# Cellular and LoRa gateway software: a verified model

The repository is the software of a LoRa gateway with a cellular modem. This
project models the parts in which a mistake is hard to see by reading one
function, and proves what they promise over every input or every run.

| part | files | what is modelled |
|---|---|---|
| shared | `Common` | optional values, bytes, digits, reversal |
| dial loop | `DialModel`, `DialRetry`, `DialBackoff`, `DialOutcome`, `Dialer` | the event loop that dials, re-dials and watches the data calls, as a transition system with a nondeterministic modem and clock, and as the object whose fields the loop updates |
| AT line reader | `LineSpec`, `LineReader` | what the lines of a stream are, which bytes a limited buffer loses and when a prompt is seen; the fixed buffer that is filled by arbitrary reads and cut in place |
| AT channel | `AtProtocol`, `AtTheorems`, `AtChannel`, `AtReader` | reader and command thread around one pending response, each section under the command mutex one atomic step; the reader loop from bytes to that protocol |
| AT fields | `AtTok`, `AtTokenizer` | the field tokenizer that cuts a line up by overwriting delimiters |
| QMI messages | `QmiTlv`, `QmiBuild`, `QmiProfile` | byte-level message builders, the TLV walker, the modem profile that is written, read back and compared |
| QMI transport | `QmiTransport` | transaction ids with wrap-around, reply matching, the sending and receiving threads |
| data calls | `DataCall`, `Registration` | call handles per IP family, the fold over system-information TLVs |
| list | `QList` | the intrusive circular list with its pointer updates |
| Base64 | `Base64`, `Base64Buffers` | the codec as a regrouping of bits, and the block loops that write buffers |
| strings | `Endpoint` | `XhYmZs` durations and `host:port`, with strtok and atoi |

Each imperative part has two layers: functions on values, about which the main
theorems are proved, and classes and loops whose methods are proved to compute
exactly those functions (`ensures Snapshot() == ...`, `ensures Model() == ...`,
`ensures out[..n] == ...`).

Results that were not obvious from the code:

* A retry can be lost. A START that comes too early reads the clock twice
  (quectel-cm/src/main.c:469-470). If the allowed time comes between the two
  readings the alarm is set to 0 seconds, which arms nothing, or, a second later,
  to a number of seconds that wraps around to years. `DialRetry.RetryCanBeLost` is
  such a run; `DialRetry.NoLostRetry` says, for every run, that this is the only
  way; `DialRetry.AlwaysLookedAtAgain` says that even then the timeout of poll
  brings the dial back.
* After the SMS prompt the line reader steps over its own terminator, so bytes of
  older lines become input again: `LineReading.PromptRevivesOldBytes` reads "xyzab",
  the prompt and "abOK" from a stream that says "OK". Whether a call takes that case
  is known before it, from what is buffered and how the reads are cut:
  `LineSpec.PromptComes`.
* A line longer than the buffer loses its start, and the rest is returned as a line:
  `LineReading.LongLineIsDitched`. `LineSpec.TooLong` says exactly when.
* A final result code that arrives before the issuing thread has woken up overwrites
  the one before (quectel-cm/src/atchannel.c:205). It is the only way a processed line
  disappears: `AtTheorems.LinesAreConserved`, `AtTheorems.SecondFinalOverwrites`.
* A final result code right behind an SMS announcement is taken for its second line
  (quectel-cm/src/atchannel.c:445-462), and the command can only time out:
  `AtReading.FinalBehindSmsIsUnheard`. An announcement at the end of the stream is
  dropped: `AtReading.StreamIsConserved`.
* The back-off bound fails if the modem reports a detach between two dials, if the
  call list changes while one family is up and the other down, or after a status that
  is neither connected nor disconnected: `DialBackoff.DetachLiftsPause`,
  `DialBackoff.CallListCutsPause`, `DialBackoff.IndefiniteSkipsPause`.
* A profile converges exactly under a condition on its texts and on what the modem
  held before: `QmiProfile.ProfileConverges`.
* A printed duration reads back exactly while its hours, in seconds, fit an int:
  `Endpoint.DurationRoundTrip`.

Conventions: `None` stands for a NULL pointer; a member that takes a `ghost`
sequence is told what the memory holds and promises its result in those terms.
What the modem, the clock, read() and the condition variable do is a parameter or
an event.

## Model

| member | source | states |
|---|---|---|
| DialRetry.NoLostRetry | quectel-cm/src/main.c:416-722 | over every run from the initial CHECK: all states keep a queued START or CHECK, an alarm of at most a minute or an unattached modem for a family that is down, if and only if no deferred START reads the clock a second time when the allowed time has come |
| DialRetry.StepKeepsRetryIff | quectel-cm/src/main.c:461-720 | exactly which single event of a running loop drops the retry |
| DialRetry.StartKeepsRetryIff | quectel-cm/src/main.c:465-534 | a START read with the alarm cancelled leaves a retry behind unless it is deferred with its second clock reading past the allowed time and nothing else queued |
| DialRetry.CheckKeepsRetry | quectel-cm/src/main.c:536-625 | after any CHECK a family that is down has a START queued |
| DialRetry.RetryCanBeLost | quectel-cm/src/main.c:469-470 | a concrete possible run, without any alarm going off, after which a family is down, nothing is queued and no alarm is armed; only the timeout of poll is left |
| DialRetry.AlwaysLookedAtAgain | quectel-cm/src/main.c:424-430 | in whatever state the loop runs, a START, a CHECK or a STOP is queued, or the timeout of poll queues a CHECK after which a family that is still down has a START |
| DialRetry.PollQueuesStart | quectel-cm/src/main.c:427-430 | the timeout of poll leads to a START for a family that is still down, whatever the modem answers |
| DialRetry.DeferralAlarm | quectel-cm/src/main.c:469-472 | with unsigned wrap-around, a deferral arms 1 to 60 seconds, ending within the second after the allowed time, if and only if the second reading is before that time; it arms nothing within the second after it, and more than five years from then on |
| DialRetry.PauseIsBounded | quectel-cm/src/main.c:518-528 | in every run the next dial is never put off by more than a minute |
| DialRetry.LinkAgreement | quectel-cm/src/main.c:571-617 | in every state the DHCP client runs iff the link mask is a non-zero link value and no disabled family is connected or in the mask; after a CHECK with two definite statuses the mask is exactly the connected families |
| DialRetry.CheckSetsLink | quectel-cm/src/main.c:571-617 | the same for one CHECK from any state |
| DialRetry.UpdateSetsLink | quectel-cm/src/main.c:606-617 | the link update alone: mask and DHCP client agree with the statuses |
| DialBackoff.BackoffBound | quectel-cm/src/main.c:465-534 | for every configuration and every run in which nothing brings the allowed time forward while a family is down and answers are definite, the dial after the failed dials i..j-1 comes at least the sum of j-i growing pauses after dial i |
| DialBackoff.BackoffBoundV4 | quectel-cm/src/main.c:465-534 | the same for IPv4-only runs under the plain assumptions: definite query answers, no detach report |
| DialBackoff.BackoffSumValue | quectel-cm/src/main.c:518-523 | the sum is 5, 15, 35, 75 and a minute more for every further failure |
| DialBackoff.RunKeepsBackoff | quectel-cm/src/main.c:514-533 | in every steady run each streak of failures is counted and has pushed the allowed time at least by its sum |
| DialBackoff.ShortensIff | quectel-cm/src/main.c:663-685 | an event other than a START brings the allowed time forward if and only if it is a detach report before that time, or a call-list report more than a second before it while a family is up |
| DialBackoff.V4RunIsSteady | quectel-cm/src/main.c:663-685 | an IPv4-only run without detach reports is never disturbed by a call-list report while IPv4 is down |
| DialBackoff.DetachLiftsPause | quectel-cm/src/main.c:672-674 | a concrete run in which a detach report lets the next dial come at once |
| DialBackoff.CallListCutsPause | quectel-cm/src/main.c:677-685 | a concrete run in which a call-list report with IPv4 up and IPv6 down cuts the pause of five seconds to one |
| DialBackoff.IndefiniteSkipsPause | quectel-cm/src/main.c:514-533 | a concrete run in which, after a status that is neither connected nor disconnected, two failed dials follow each other at once |
| DialOutcome.FailsAreTheStreak | quectel-cm/src/main.c:514-533 | in every steady run the failure count is exactly the number of failed dials since the last good one, counted on the log of dials alone |
| DialOutcome.PauseIsExact | quectel-cm/src/main.c:514-533 | in every steady run a good dial allows the next one at once, and a failed one puts it off by exactly the pause that the streak before it demands |
| DialOutcome.DialsIff | quectel-cm/src/main.c:465-498 | a START dials if and only if the modem is attached or loopback is on, the time has come, and an enabled family is not connected |
| DialOutcome.DialConnectsIff | quectel-cm/src/main.c:474-495 | a dial brings IPv4 up if and only if the call is set up, at once or at the second try under the other auth mode, and the address is obtained; when auth mode and address change |
| DialOutcome.Dial6ConnectsIff | quectel-cm/src/main.c:497-512 | what a dial makes of IPv6: its own call, or the IPv4 status outside QMI |
| DialOutcome.StartSetsAlarm | quectel-cm/src/main.c:465-528 | a START without attachment does nothing, an early one only sets the alarm, a dial that leaves a family down sets its pause as alarm |
| DialOutcome.CheckConnectedIff | quectel-cm/src/main.c:571-591 | IPv4 is up after a CHECK if and only if it was not down, the query says so, an address is there or obtained, and the address in use still stands; what it is otherwise |
| DialOutcome.CheckSets6 | quectel-cm/src/main.c:593-604 | what IPv6 is after a CHECK, a failed query keeping it, and whether the modem counts as attached |
| DialOutcome.LinkBits | quectel-cm/src/main.c:44-62 | the bits 16 and 64 of the mask; a mask without the IPv4 bit forgets the address |
| DialOutcome.ReportsQueue | quectel-cm/src/main.c:663-707 | what each report and timer queues and when the next dial is then allowed |
| DialOutcome.EndTakesLinkDown | quectel-cm/src/main.c:627-646 | every end of the loop leaves the link down and the DHCP client stopped |
| DialOutcome.OnlyTheseEnd | quectel-cm/src/main.c:627-692 | only a STOP read or a quit ends the loop |
| Dialing.Dialer.Loop | quectel-cm/src/main.c:418-722 | the fields after any possible sequence of events are the model's state after it |
| Dialing.Supervise | quectel-cm/src/main.c:287-741 | constructs the object, runs its loop over any possible events, and promises of its fields: link mask, DHCP client and statuses agree, the next dial is at most a minute away, the failure count is the streak of failed dials and they have pushed the next one back, a retry is pending unless the one guard was met, and the loop looks again |
| LineReading.ReadStream | quectel-cm/src/atchannel.c:288-413 | however a NUL-free stream is cut into reads, the lines returned are exactly its non-empty CR- or LF-terminated segments, in order |
| LineReading.ReadAll | quectel-cm/src/atchannel.c:432-471 | draining a reader in any valid state yields the lines of what is buffered and unread |
| LineReading.LineReader.ReadLine | quectel-cm/src/atchannel.c:311-413 | for any NUL-free stream and any buffer state: the prompt case is taken iff the buffered bytes and the cuts of the coming reads say so, and then what is left is what is unread iff the cell behind the terminator is NUL; otherwise the line is the first line of exactly what ditching full buffers leaves, and the rest follows it |
| LineReading.LineReader.FindNextEol | quectel-cm/src/atchannel.c:288-299 | the first line end behind the cursor, or the end of a lone prompt, or neither |
| LineReading.LineReader.MoveUp | quectel-cm/src/atchannel.c:336-345 | the partial line and its terminator reach the front unchanged although source and target overlap |
| LineReading.LineReader.Read | quectel-cm/src/atchannel.c:375-382 | a read stores as much of what the device delivers as fits, and loses nothing |
| LineReading.LineReader.Await | quectel-cm/src/atchannel.c:323-398 | the read loop ends with a line end or the prompt buffered, or the stream exhausted, and accounts for every byte ditched on the way |
| LineReading.LineReader.Ditch | quectel-cm/src/atchannel.c:351-357 | a full buffer without a line end is dropped: blanks cost nothing, anything else is what the reference calls too long |
| LineReading.LineReader.Scan | quectel-cm/src/atchannel.c:384-387 | leading line ends are skipped; the prompt case is taken iff exactly the prompt is left, a line end is missing iff there is none and no prompt |
| LineReading.LineReader.Cut | quectel-cm/src/atchannel.c:400-413 | placing the terminator takes exactly the first line |
| LineSpec.FirstLine | quectel-cm/src/atchannel.c:311-413 | cutting at the first line end behind leading blanks gives the first of the reference splitter's lines |
| LineSpec.CutTakes | quectel-cm/src/atchannel.c:400-413 | a window cut at its first line end is the first line of the stream and the rest behind it |
| LineSpec.SurvivesIff | quectel-cm/src/atchannel.c:351-357 | bytes are lost if and only if the line, counted from where its buffer starts, fills the buffer |
| LineSpec.FittingSurvives | quectel-cm/src/atchannel.c:351-357 | no byte is lost of a stream whose blank runs with their lines are shorter than the buffer |
| LineSpec.LineEnds | quectel-cm/src/atchannel.c:295-298 | a carriage return or a line feed ends a line, no other character does |
| LineReading.PromptRevivesOldBytes | quectel-cm/src/atchannel.c:290-293 | from a new reader, the stream of a line, the prompt and "OK" makes it return two bytes of the first line in front of "OK" |
| LineReading.LongLineIsDitched | quectel-cm/src/atchannel.c:351-357 | for every buffer size and every line at least that long, however it is cut into reads, what is returned is the part behind the last full buffer, or nothing if the line fills whole buffers |
| AtTheorems.LinesAreConserved | quectel-cm/src/atchannel.c:217-280 | over every interleaving: the lines the handler was called with, those that made the reader send data, those held by all responses (pending, freed or handed over) and the final lines overwritten by later ones are together exactly the processed lines, each once |
| AtTheorems.NothingLostIff | quectel-cm/src/atchannel.c:203-208 | in every run: handler, triggers and responses together hold every processed line if and only if no command was sent two final lines while it was installed |
| AtTheorems.SecondFinalOverwrites | quectel-cm/src/atchannel.c:203-208 | for any command and any two final lines: after the second, the responses hold that one and nothing else, and the first is lost |
| AtTheorems.HandlerGetsTheRest | quectel-cm/src/atchannel.c:217-280 | in every run the handler was called, in arrival order, with exactly the lines processed while nothing was pending or that were neither final, nor asked-for, nor an answer; data was sent for exactly the lines that ask for it |
| AtTheorems.ResponsesHold | quectel-cm/src/atchannel.c:217-280 | in every run each response ever allocated, wherever it is, holds in arrival order exactly the answers among the lines processed while it was installed, the last final line of that time, and its success |
| AtTheorems.WokenCommandReceives | quectel-cm/src/atchannel.c:726-785 | a command that ends without error returns exactly that response, or the error its wrapper makes of a success without lines |
| AtTheorems.CommandEnds | quectel-cm/src/atchannel.c:738-785 | in every run, for every way a command can end: its error, and whether a response comes with it; a command whose caller takes none returns success once its final line is there; nothing else makes a command return |
| AtTheorems.FinalCodes | quectel-cm/src/atchannel.c:131-163 | a line is a final success or error exactly if it starts with one of the codes, written out |
| AtTheorems.StrictCommandHasOneLine | quectel-cm/src/atchannel.c:838-892 | a successful single-line or numeric command has exactly one intermediate |
| AtTheorems.RunKeepsSlot | quectel-cm/src/atchannel.c:726-785 | in every run a response is pending exactly while the issuer waits |
| AtTheorems.ExitLeavesNoPending | quectel-cm/src/atchannel.c:610-619 | every exit of a command leaves nothing pending, and no command finds another one's response |
| AtTheorems.ResponsesAreAccounted | quectel-cm/src/atchannel.c:673-699 | in every run each allocated response is freed once, or handed over once, or pending, and no other ever is |
| AtTheorems.ClosedFails | quectel-cm/src/atchannel.c:480-489 | on a closed channel a command fails with channel-closed and a waiting one does not succeed |
| AtTheorems.ClosedUntilReopened | quectel-cm/src/atchannel.c:654-671 | from a close to the next open every issue in a run returns channel-closed |
| AtTheorems.ReopenedWaits | quectel-cm/src/atchannel.c:625-651 | after a reopening a command that can be written waits for its answer |
| AtChannels.TurnRound | quectel-cm/src/atchannel.c:705-718 | the pointer loop keeps the nodes and reverses their texts |
| AtChannels.AtResponse.ReverseLines | quectel-cm/src/atchannel.c:705-718 | the response's list is reversed in place |
| AtChannels.AtResponse.AddLine | quectel-cm/src/atchannel.c:111-124 | a line is pushed at the head of the list |
| AtChannels.AtChannel.ProcessLine | quectel-cm/src/atchannel.c:217-280 | the heap after a line is the protocol's state after it |
| AtChannels.AtChannel.Complete | quectel-cm/src/atchannel.c:765-785 | the object handed over is the pending one with its lines in arrival order |
| AtChannels.AtChannel.SendCommand | quectel-cm/src/atchannel.c:726-763 | issuing a command up to the wait, with its three failures |
| AtChannels.AtChannel.Release | quectel-cm/src/atchannel.c:610-619 | the pending response is freed and the slot cleared |
| AtChannels.RunChannel | quectel-cm/src/atchannel.c:217-280 | any run of the channel object is a run of the protocol, and every response on the heap or handed over holds what it should |
| AtReading.RunSystem | quectel-cm/src/atchannel.c:432-471 | reader and issuing thread over a byte stream, in any order and with any cuts: the channel object ends in the state after the events the lines of the stream make, and once the reader is through every line of the stream is accounted for |
| AtReading.StreamIsConserved | quectel-cm/src/atchannel.c:432-471 | each line of the stream went to the handler, alone or in a pair, made the reader send data, is held by a response, was an overwritten final line, or was an SMS announcement whose second line never came |
| AtReading.WeaveReadsAll | quectel-cm/src/atchannel.c:432-471 | whatever the other thread does in between, the lines processed and those handed over in pairs are the ones the stream alone determines |
| AtReading.PairingBalances | quectel-cm/src/atchannel.c:445-462 | pairing an announcement with the line behind it takes every line of a stream once |
| AtReading.FinalBehindSmsIsUnheard | quectel-cm/src/atchannel.c:445-462 | if every final line of a stream comes right behind an SMS announcement, no command of any run ends other than by a timeout or a failed write, as long as the channel is not closed |
| AtReading.ReadPass | quectel-cm/src/atchannel.c:432-471 | one pass of the reader loop over the bytes makes the event, or the end, that the next lines of the stream call for |
| AtReading.SmsCodes | quectel-cm/src/atchannel.c:189-201 | a line announces an SMS exactly if it starts with one of the four prefixes, written out |
| AtReading.EndCloses | quectel-cm/src/atchannel.c:415-430 | when the reader is through, the channel was closed exactly if a callback is registered |
| AtTok.RoundTripIff | quectel-cm/src/at_tok.c:50-87 | the tokens of a printed list of quoted and plain fields are the fields if and only if the list is well formed |
| AtTok.LineRoundTrip | quectel-cm/src/at_tok.c:30-87 | the same behind a prefix and a colon |
| AtTok.StartIff | quectel-cm/src/at_tok.c:30-48 | the fields are found behind the prefix if and only if it has no colon |
| AtTok.NextIsPlain | quectel-cm/src/at_tok.c:82-84 | a printable plain field comes back whole and the cursor stands behind its comma |
| AtTok.NextIsQuoted | quectel-cm/src/at_tok.c:78-81 | the same for a quoted field |
| AtTok.BadPlain | quectel-cm/src/at_tok.c:70-87 | a plain field that is not printable is never what is returned for it |
| AtTok.BadQuoted | quectel-cm/src/at_tok.c:70-87 | nor is a quoted field with a quote inside |
| AtTok.FieldSyntax | quectel-cm/src/at_tok.c:39-84 | comma, double quote, colon and the six space characters, written out |
| AtTok.JunkIsDropped | quectel-cm/src/at_tok.c:78-81 | what lies between a closing quote and the next comma is dropped |
| AtTok.JunkAtEnd | quectel-cm/src/at_tok.c:78-81 | so is what lies between a closing quote and the end of the line |
| AtTok.OpenQuoteTakesAll | quectel-cm/src/at_tok.c:78-81 | a quote that is never closed takes the rest of the line |
| AtTok.SpaceIsSkipped | quectel-cm/src/at_tok.c:50-56 | leading space is skipped |
| AtTokenizing.AtTokenizer.Start | quectel-cm/src/at_tok.c:30-48 | the cursor stands behind the first colon, or is NULL |
| AtTokenizing.AtTokenizer.SkipNextComma | quectel-cm/src/at_tok.c:58-68 | the cursor stands behind the next comma, or at the end |
| AtTokenizing.AtTokenizer.Separate | quectel-cm/src/at_tok.c:78-84 | the token in the line ends at the delimiter, which became its terminator; what lies before is untouched |
| AtTokenizing.AtTokenizer.NextTok | quectel-cm/src/at_tok.c:70-87 | the pointer returned holds the next token and the cursor the rest |
| AtTokenizing.AtTokenizer.NextStr | quectel-cm/src/at_tok.c:172-181 | fails only when nothing is left, else returns the next token |
| AtTokenizing.AtTokenizer.HasMore | quectel-cm/src/at_tok.c:184-187 | true iff a non-empty string is left |
| AtTokenizing.AtTokenizer.ReadTokens | quectel-cm/src/at_tok.c:172-187 | reading while there is more terminates, and all pointers still hold their tokens after the later cuts |
| AtTokenizing.AtTokenizer.ReadLine | quectel-cm/src/at_tok.c:30-87 | the whole line: fails iff it has no colon, else its tokens |
| AtTokenizing.AtTokenizer.ReadFields | quectel-cm/src/at_tok.c:30-87 | for a printed line in memory: all pointers returned hold their fields after all cuts if and only if the list is well formed |
| QmiTlv.GetTlv | quectel-cm/src/QMIThread.c:86-107 | the offset of the first TLV of a type, or of the one at an index, where that TLV stands whole; NULL iff there is none |
| QmiTlv.DumpTlv | quectel-cm/src/QCQMUX.c:348-369 | the indexed walk visits each TLV once, in order |
| QmiTlv.ReadTlv | quectel-cm/src/QMIThread.c:86-107 | type, length and value of a TLV read back as written |
| QmiTlv.EncodeAppend | quectel-cm/src/QMIThread.c:199-292 | TLV lists written one after the other are the list written at once |
| QmiTlv.TlvLayout | quectel-cm/src/QMIThread.c:199-292 | the byte form of a TLV, written out: type, length with the low byte first, value |
| QmiBuild.CopyText | quectel-cm/src/QMIThread.c:64-70 | the text is copied, its terminator lies behind it, everything before and after is untouched |
| QmiBuild.FillStart | quectel-cm/src/QMIThread.c:199-292 | the body holds exactly the TLVs of the request, despite the terminators, for every profile that fits |
| QmiBuild.FillModify | quectel-cm/src/QMIThread.c:555-614 | the same for the modify request, with one byte more only where a terminator stays behind the message |
| QmiBuild.EndMessage | quectel-cm/src/QMIThread.c:132-150 | both length fields agree with the message and its TLVs tile it |
| QmiBuild.ComposeStart | quectel-cm/src/QMIThread.c:117-151 | the start-network message is framed consistently and holds its TLVs |
| QmiBuild.ComposeModify | quectel-cm/src/QMIThread.c:117-151 | so is the modify-profile message |
| QmiProfile.StartRoundTrip | quectel-cm/src/QMIThread.c:199-292 | reading the composed bytes with GetTLV gives exactly the effective APN, user, password, auth, family, technology and index, and NULL for what is omitted; the walk gives all TLVs |
| QmiProfile.StartLookup | quectel-cm/src/QMIThread.c:199-292 | for every type, the first TLV of that type in the request is the field meant |
| QmiProfile.CdmaFields | quectel-cm/src/QMIThread.c:214-219 | on CDMA: no APN and no index, and without a configured login the carrier's user and password, written out, under auth mode 2 |
| QmiProfile.PlainFields | quectel-cm/src/QMIThread.c:199-292 | on any other network the fields are those of the profile |
| QmiProfile.StartOrder | quectel-cm/src/QMIThread.c:199-292 | the TLVs of a full start request come in the order technology, APN, user, password, auth, family, index |
| QmiProfile.ModifyOrder | quectel-cm/src/QMIThread.c:555-614 | and those of a full modify request in the order profile, IP type, APN, user, password, auth |
| QmiProfile.GetValue | quectel-cm/src/QMIThread.c:86-107 | GetTLV and a read of the value give the value of the first TLV of the type |
| QmiProfile.GetProfile | quectel-cm/src/QMIThread.c:2296-2322 | the settings kept from a report, in whatever order it lists them |
| QmiProfile.ProfileConverges | quectel-cm/src/QMIThread.c:2204-2209 | after a modify request to a modem that stores what it is sent, the next comparison finds nothing to change if and only if each text is short enough or was absent on both sides, and the auth mode was sent or already held |
| QmiProfile.FullProfileConverges | quectel-cm/src/QMIThread.c:2204-2209 | with APN, user and password present and at most 63 bytes it always does, and the message fits |
| QmiProfile.StoredAfterModify | quectel-cm/src/QMIThread.c:555-614 | what the modem holds afterwards: what was sent, else what it held |
| QmiProfile.KeptText | quectel-cm/src/QMIThread.c:72-79 | a text survives the 64-byte field if and only if it is at most 63 bytes |
| QmiProfile.SetProfileResults | quectel-cm/src/QMIThread.c:2201-2217 | -1 exactly without an index, 1 exactly if some setting differs; an empty report reads as empty texts and zeros |
| QmiProfile.ModifyThenCheck | quectel-cm/src/QMIThread.c:2181-2218 | convergence over the bytes of both messages |
| QmiTransport.Counter.Draw | quectel-cm/src/QMIThread.c:109-115 | the ids run through 1 to 65535 and start over, never 0 |
| QmiTransport.TidNext | quectel-cm/src/QmiWwanCM.c:27-33 | the counter's step, for data and for control messages, is the next draw's id |
| QmiTransport.SameTidIff | quectel-cm/src/QMIThread.c:109-115 | two draws share an id if and only if they are whole rounds of 65535 (255) apart |
| QmiTransport.StaleReplySafety | quectel-cm/src/QMIThread.c:656-720 | in every run with an echoing modem, what the caller of request j gets is a reply to a request i of the same counter with j-i a multiple of 65535 (255) |
| QmiTransport.StaleTakenIff | quectel-cm/src/QMIThread.c:637-652 | exactly when a reply to request i is taken for the reply to request j |
| QmiTransport.ZeroIdNeverMatches | quectel-cm/src/QMIThread.c:637-652 | a message with transaction id 0 matches no request |
| QmiTransport.MatchAnswers | quectel-cm/src/QMIThread.c:713-720 | what matches the request in the slot answers it |
| QmiTransport.OwnReply | quectel-cm/src/QMIThread.c:656-720 | within a round of ids every caller gets its own reply |
| QmiTransport.CurrentReplyAccepted | quectel-cm/src/QMIThread.c:713-720 | the reply to the request in the slot is accepted |
| QmiTransport.ReplyIsHanded | quectel-cm/src/QMIThread.c:678-720 | a caller that waits and wants it gets the reply to its own request once that has arrived |
| QmiTransport.HandedIff | quectel-cm/src/QMIThread.c:678-697 | a caller gets something exactly if it goes on without a timeout, wants a response and one is there |
| QmiTransport.LostDeviceHandsNothing | quectel-cm/src/QMIThread.c:702-711 | after the device is lost a caller that still waits for a reply gets nothing, while a reply that came before stays |
| QmiTransport.WaitsIff | quectel-cm/src/QmiWwanCM.c:140-149 | a request is waited for exactly if the device takes it and, unless it is a control message, it has a client id |
| QmiTransport.StepKeepsConsistent | quectel-cm/src/QMIThread.c:656-720 | every step keeps the slots tied to the last request and its id |
| QmiTransport.Transport.SendRequest | quectel-cm/src/QmiWwanCM.c:140-149 | a request is composed and fills the slot; one without a client id is refused there with its own service type, the second data service goes out as the first |
| QmiTransport.Transport.Compose | quectel-cm/src/QMIThread.c:117-151 | the next id of the right counter and the length go into the header |
| QmiTransport.Transport.Deliver | quectel-cm/src/QMIThread.c:713-720 | whatever arrives, only a message that matches the request in the slot moves to the response slot |
| QmiTransport.Transport.DeliverNone | quectel-cm/src/QMIThread.c:702-711 | a lost device empties both slots |
| QmiTransport.Transport.Resume | quectel-cm/src/QMIThread.c:678-697 | the caller gets the response exactly if it was not timed out, one was there and it was wanted; else it is dropped or left |
| QmiTransport.Execute | quectel-cm/src/QMIThread.c:656-720 | any run of the transport object is a run of the protocol; with an echoing modem all it handed over answers the requests |
| QmiTransport.WireLength | quectel-cm/src/QMIThread.c:138-141 | the length field counts all but the first byte of the request |
| QmiTransport.WireLayout | quectel-cm/src/QMIThread.c:124-131 | the header byte by byte, with the second data service written as the first |
| DataCall.HistoryIsLawful | quectel-cm/src/QMIThread.c:2024-2050 | in every sequence of calls with any answers, each stop carries the non-zero handle of its family's most recent start, not stopped and not found disconnected since |
| DataCall.LiveIsMostRecent | quectel-cm/src/QMIThread.c:294-303 | the handle kept is in force if and only if it is that of the most recent start and nothing ended it |
| DataCall.DataCalls.Setup | quectel-cm/src/QMIThread.c:1985-2022 | a start that succeeds replaces the family's handle, one that fails keeps it, the other family's never changes |
| DataCall.DataCalls.Query | quectel-cm/src/QMIThread.c:1940-1957 | by the answer: without a usable one the query fails and both handles stay; no status, a reconfiguration or status 1 gives 1 and clears the handle; any other status is reported and keeps it |
| DataCall.DataCalls.Deactivate | quectel-cm/src/QMIThread.c:2033-2048 | nothing is sent without a handle; only a stop that succeeds clears it |
| DataCall.RunCalls | quectel-cm/src/QMIThread.c:1930-2050 | after every sequence of calls the two statics hold the handles its history leaves in force |
| DataCall.IdleCallsKeepHandles | quectel-cm/src/QMIThread.c:1940-2048 | any number of calls without a usable answer leaves the handles as they were |
| DataCall.StopReachesModem | quectel-cm/src/QMIThread.c:2033-2048 | a handle that was started is stopped with, however many calls failed in between |
| Registration.Fold | quectel-cm/src/QMIThread.c:1507-1733 | for every well-formed TLV list: attached iff some entry reports the packet domain; CDMA iff some CDMA or HDR entry is in service and none that marks LTE is |
| Registration.VisitMarks | quectel-cm/src/QMIThread.c:1507-1733 | one entry adds its marks, and LTE overrules CDMA whichever comes first |
| Registration.OrderDoesNotMatter | quectel-cm/src/QMIThread.c:1507-1733 | any permutation of the entries gives the same result |
| Registration.EntryMeans | quectel-cm/src/QMIThread.c:1510-1733 | what a single entry makes of attachment and CDMA, by type and bytes written out |
| Registration.OverrulesCdma | quectel-cm/src/QMIThread.c:1510-1733 | exactly which entry overrules a CDMA one: LTE or 5G in service, LTE system information with the packet domain |
| QList.Init | quectel-cm/src/qlist.h:17-21 | a node linked to itself is the empty list |
| QList.AddTail | quectel-cm/src/qlist.h:23-29 | the four pointer writes append the item to the sequence |
| QList.Remove | quectel-cm/src/qlist.h:31-35 | the two pointer writes take exactly this item out, whose own pointers stay |
| QList.Forward | quectel-cm/src/qlist.h:11-11 | following next visits the items in order and ends at the head |
| QList.Backward | quectel-cm/src/qlist.h:15-15 | following prev visits them in reverse and ends at the head |
| QList.Empty | quectel-cm/src/qlist.h:13-13 | the emptiness test |
| QList.Ends | quectel-cm/src/qlist.h:14-15 | head and tail are the first and last item, or the list itself |
| QList.Run | quectel-cm/src/qlist.h:11-35 | after any legal sequence of init, add and remove both traversals agree with the abstract sequence |
| Base64.RoundTrip | lora-gateway-bridge/src/base64.cpp:50-84 | decoding an encoding gives the bytes back, for every byte sequence |
| Base64.CanonicalIff | lora-gateway-bridge/src/base64.cpp:319-336 | a text that decodes is the encoding of its bytes if and only if it is canonical: alphabet, zero tail bits, exact padding |
| Base64.PaddingIsIgnored | lora-gateway-bridge/src/base64.cpp:319-336 | removing the padding does not change what a text decodes to |
| Base64.OctetsOfCodes | lora-gateway-bridge/src/base64.cpp:168-195 | regrouping bits into sixes and back is the identity |
| Base64.CodesOfOctets | lora-gateway-bridge/src/base64.cpp:246-275 | the other way it is the identity if and only if the unused bits are zero |
| Base64.CharRoundTrip | lora-gateway-bridge/src/base64.cpp:86-121 | a code's character is in the alphabet, is no padding, and gives the code back |
| Base64.CodeRoundTrip | lora-gateway-bridge/src/base64.cpp:86-121 | a character of the alphabet comes back from its code |
| Base64.Alphabet | lora-gateway-bridge/src/base64.cpp:86-121 | code x is written as character x of the alphabet of RFC 4648, written out |
| Base64.AlphabetIff | lora-gateway-bridge/src/base64.cpp:104-121 | a character is read exactly if it is in that alphabet, as its position |
| Base64.PaddingWritten | lora-gateway-bridge/src/base64.cpp:280-317 | an encoding ends in two equals signs, one or none, by the bytes left over, behind characters of the alphabet only |
| Base64.TwoIgnored | lora-gateway-bridge/src/base64.cpp:325-327 | an equals sign as last but one character of whole blocks takes the last two off |
| Base64.OneIgnored | lora-gateway-bridge/src/base64.cpp:328-329 | an equals sign only at the end takes one off |
| Base64.DecodeFails | lora-gateway-bridge/src/base64.cpp:200-278 | -1 exactly if one character is left over, the exit exactly on a character outside the alphabet |
| Base64Buffers.EncodeString | lora-gateway-bridge/src/base64.cpp:50-66 | the chosen buffer is always large enough and the string in it is the encoding |
| Base64Buffers.DecodeString | lora-gateway-bridge/src/base64.cpp:68-84 | the bytes, the error or the exit that decoding the text means |
| Base64Buffers.BinToB64 | lora-gateway-bridge/src/base64.cpp:280-317 | fails iff text, padding and terminator do not fit, else writes exactly them |
| Base64Buffers.BinToB64NoPad | lora-gateway-bridge/src/base64.cpp:125-198 | the same without padding |
| Base64Buffers.B64ToBinNoPad | lora-gateway-bridge/src/base64.cpp:200-278 | exactly when it returns -1 and when it exits; else the bytes |
| Base64Buffers.PutBlocks | lora-gateway-bridge/src/base64.cpp:169-177 | the quotients and remainders that stand for shifts and masks on the 24-bit word give the text of all full blocks |
| Base64Buffers.PutAllBytes | lora-gateway-bridge/src/base64.cpp:247-255 | and the bytes of all full blocks, up to a character outside the alphabet |
| Base64Buffers.EncodingWords | lora-gateway-bridge/src/base64.cpp:168-195 | the codes of the encoding are those whose words equal the words of the bytes |
| Base64Buffers.DecodingWords | lora-gateway-bridge/src/base64.cpp:246-275 | the bytes of a text are those whose words equal the words of its codes, up to dropped bits |
| Base64Buffers.CutInFour | lora-gateway-bridge/src/base64.cpp:173-176 | a word cut by quotients and remainders gives the four codes it was made of |
| Base64Buffers.CutInThree | lora-gateway-bridge/src/base64.cpp:252-254 | and the three bytes |
| Endpoint.DurationRoundTrip | cgi-cpp/src/cgicpp-toml.cpp:448-510 | a printed 32-bit duration reads back as itself if and only if it is below 596524 hours; every value below 2^31 is |
| Endpoint.DurationWritten | cgi-cpp/src/cgicpp-toml.cpp:448-466 | seconds always, minutes from one minute on, hours from one hour on, each with its unit |
| Endpoint.DecimalDigits | cgi-cpp/src/cgicpp-toml.cpp:456-463 | numbers are written in decimal |
| Endpoint.PrintDuration | cgi-cpp/src/cgicpp-toml.cpp:448-466 | appending part by part prints the duration |
| Endpoint.ParseDuration | cgi-cpp/src/cgicpp-toml.cpp:469-510 | the running sum with strtok's hidden position is what the text reads as; units are looked for in the whole text, numbers in front of its first NUL |
| Endpoint.BareUnit | cgi-cpp/src/cgicpp-toml.cpp:479-507 | a unit without a number is a NULL token |
| Endpoint.EndpointRoundTrip | cgi-cpp/src/cgicpp-toml.cpp:640-656 | splitting a joined server string gives host and port back if and only if the host has no NUL and is a colon-free name of at least 7 characters or a shorter scheme with one colon-free rest, and the port is an int |
| Endpoint.SplitServer | cgi-cpp/src/cgicpp-toml.cpp:640-656 | the split as it runs, on the part of the text in front of its first NUL |
| Endpoint.SplitHasNoNul | cgi-cpp/src/cgicpp-toml.cpp:640-656 | no host that comes out of the split holds a NUL |
| Endpoint.SplitAddress | cgi-cpp/src/cgicpp-toml.cpp:643-656 | an address with its port, a missing port, a colon in front |
| Endpoint.SplitScheme | cgi-cpp/src/cgicpp-toml.cpp:643-656 | a short scheme takes the next part with it; a missing part is a NULL token |
| Endpoint.AtoiOfDigits | cgi-cpp/src/cgicpp-toml.cpp:654-654 | atoi undoes to_string for every int and is undefined for larger numbers |
| Endpoint.AtoiReads | cgi-cpp/src/cgicpp-toml.cpp:483-506 | atoi skips a space and takes a sign, and stops at what is no digit |
| Endpoint.StrtokFirst | cgi-cpp/src/cgicpp-toml.cpp:482-482 | strtok returns the part before the delimiter and keeps the rest |
| Endpoint.StrtokSkips | cgi-cpp/src/cgicpp-toml.cpp:482-503 | delimiters in front of a token are skipped |

## Left out

- Sockets, poll, ioctl, sysfs, USB detection, threads and timeouts as such: the dial loop, the reader, the transport and the condition variable take their answers as events or parameters; writes to the control sockets succeed.
- The proxy mode of the AT channel, its raw-data wrapper and handshake: the protocol is modelled for the non-proxy mode and one issuing thread.
- LineReading.ReadStream: streams with a line that starts like the SMS prompt or a blank run with its line not shorter than the buffer are excluded, as the property fails for them; LineReading.LineReader.ReadLine says what a call does with them.
- LineReading.LineReader.ReadLine: streams with NUL bytes are not modelled; after a prompt that fills the buffer to its end the cursor is given one more cell to stand on.
- The 64-byte command buffer of writeline and the modem reboot that a SIM status line requests.
- AtReading.RunSystem: one session of the reader, so without a close from the other thread or a reopening, on streams without a prompt whose lines fit.
- Reads that fail and the interrupted-read retry of the line reader: an end of the stream stands for all of them.
- QmiTlv.GetTlv: TLV lengths that do not tile the declared length are not modelled.
- QmiBuild.FillStart: profiles whose message does not fit the 256-byte buffer are excluded, as the code writes past it without a check; the branch for profile index type 0x32 is dead code.
- QmiTransport.StaleReplySafety: assumes a modem that echoes service, client and id in replies and sends indications with id 0.
- QmiTransport.Transport.Compose: what follows the transaction id is an arbitrary body here; the bodies of the start and modify requests are in QmiBuild.
- The MBIM and AT request tables, QoS, cell information, QRTR and message merging: disabled by default or only consulted through their answers.
- DialRetry.NoLostRetry: assumes that the clock never goes back or wraps and that two readings in one handler are less than 34 years apart; unsigned long is taken as 64 bits wide.
- When an alarm goes off is left open in the dial model, so results over all runs also cover alarms that are early or late.
- The data-capability text and eHRPD personality of the registration query: display data.
- The profile-list scan and profile creation of requestGetProfile: not part of the comparison.
- at_tok_scanf, at_tok_nextint and the other typed readers: thin wrappers over strtol on a token.
- Base64Buffers.EncodeString: inputs so long that the buffer size overflows int (half a gigabyte) and NULL arguments are not modelled.
- Endpoint.ParseDuration: strtok's overwriting of the text is modelled by the position it keeps, not by the buffer; a NULL token or an int overflow is a value, where C leaves the outcome undefined.
- The bridge's downlink queue, its JSON mapping, and the CGI getters and setters: plain field copying.
- Mosquitto, libevent, JSON and TOML libraries: not visible here.
