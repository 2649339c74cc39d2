/** What several modules need and no module owns: optional values and the loss of one element of a channel. */
module Prelude {

  datatype Option<T> = None | Some(value: T)

  /** The sequence without its i-th element, if it has one. */
  function Without<T>(s: seq<T>, i: nat): (r: seq<T>)
    ensures i >= |s| ==> r == s
    ensures i < |s| ==>
              |r| == |s| - 1 && forall j :: 0 <= j < |r| ==> r[j] == s[if j < i then j else j + 1]
  {
    if i < |s| then s[..i] + s[i + 1..] else s
  }
}
