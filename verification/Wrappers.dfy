/** Small shared datatypes, an optional value and the outcome of an operation that may throw, and laws of sequences. */
module Wrappers {

  datatype Option<+T> = None | Some(value: T)

  datatype Result<+T, +E> = Ok(value: T) | Threw(error: E)

  // Appending a sequence and then another is appending both, and appending nothing changes nothing.
  lemma Grow<T>(a: seq<T>, b: seq<T>, c: seq<T>)
    ensures a + b + c == a + (b + c)
    ensures |b| == 0 ==> a + b == a
  {
  }

  lemma Parts<T>(s: seq<T>, pos: nat, start: nat, end: nat)
    requires pos <= start <= end <= |s|
    ensures s[pos..] == s[pos..start] + (s[start..end] + s[end..])
  {
  }
}
