/** Searching in strings, as `string_view::find` does. */
module Strings {
  import opened Wrappers

  const CRLF := "\r\n"

  predicate OccursAt(s: string, what: string, at: nat) {
    at + |what| <= |s| && s[at..at + |what|] == what
  }

  predicate Contains(s: string, what: string) {
    exists at: nat :: at <= |s| && OccursAt(s, what, at)
  }

  /** The first occurrence at or behind a position. */
  function FindFrom(s: string, what: string, from: nat): (r: Option<nat>)
    ensures r.Some? ==> from <= r.value && r.value + |what| <= |s|
    decreases |s| - from
  {
    if from + |what| > |s| then None
    else if s[from..from + |what|] == what then Some(from)
    else FindFrom(s, what, from + 1)
  }

  function Find(s: string, what: string): Option<nat> { FindFrom(s, what, 0) }

  lemma {:induction false} FindFromSpec(s: string, what: string, from: nat)
    ensures match FindFrom(s, what, from)
            case Some(at) => OccursAt(s, what, at) && forall i: nat :: from <= i < at ==> !OccursAt(s, what, i)
            case None => forall i: nat :: from <= i ==> !OccursAt(s, what, i)
    decreases |s| - from
  {
    if from + |what| <= |s| && s[from..from + |what|] != what {
      FindFromSpec(s, what, from + 1);
    }
  }

  /** The first occurrence is the only one with none before it. */
  lemma FindIs(s: string, what: string, at: nat)
    ensures Find(s, what) == Some(at) <==> OccursAt(s, what, at) && forall i: nat :: i < at ==> !OccursAt(s, what, i)
  {
    FindFromSpec(s, what, 0);
  }

  function StartsWith(s: string, what: string): bool { |what| <= |s| && s[..|what|] == what }
}
