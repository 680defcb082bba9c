/** Small definitions that several parts share. */
module Common {

  /** `None` stands for a NULL pointer or an answer that did not come. */
  datatype Option<T> = None | Some(value: T)

  type Byte = x: int | 0 <= x < 256

  predicate IsDigit(ch: char)
  {
    '0' <= ch <= '9'
  }

  function Reversed<T>(s: seq<T>): (r: seq<T>)
    ensures |r| == |s| && forall i :: 0 <= i < |s| ==> r[i] == s[|s| - 1 - i]
  {
    if s == [] then [] else Reversed(s[1..]) + [s[0]]
  }
}
