/** The first element of a sequence that fails a test: where a Python loop or
    comprehension over the sequence raises first. */
module Sequences {
  import opened Wrappers

  function FirstFailing<T>(s: seq<T>, ok: T -> bool): (r: Option<nat>)
    ensures r.None? <==> forall i :: 0 <= i < |s| ==> ok(s[i])
    ensures r.Some? ==> r.value < |s| && !ok(s[r.value])
                        && forall j :: 0 <= j < r.value ==> ok(s[j])
  {
    if s == [] then None
    else if !ok(s[0]) then Some(0)
    else
      match FirstFailing(s[1..], ok)
      case None => None
      case Some(i) => Some(i + 1)
  }

  /** The prefix of length i + 1 extends the prefix of length i. */
  lemma PrefixStep<T>(s: seq<T>, i: nat)
    requires i < |s|
    ensures s[..i + 1] == s[..i] + [s[i]]
  {
  }

  /** A non-empty sequence is its front followed by its last element. */
  lemma LastStep<T>(s: seq<T>)
    requires s != []
    ensures s == s[..|s| - 1] + [s[|s| - 1]]
  {
  }
}
