/** A value that may be absent, and a sequence laid over another. */
module Wrappers {
  datatype Option<+T> = None | Some(value: T)

  /** `s` with `t` laid over it from `a` on. */
  function Put<T>(s: seq<T>, a: nat, t: seq<T>): (r: seq<T>)
    requires a + |t| <= |s|
    ensures |r| == |s|
    ensures forall i :: 0 <= i < |s| ==> r[i] == if a <= i < a + |t| then t[i - a] else s[i]
  {
    seq(|s|, i requires 0 <= i < |s| => if a <= i < a + |t| then t[i - a] else s[i])
  }
}
