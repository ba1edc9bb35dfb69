/** The structural matcher: an anchor is a sequence of instruction predicates,
    and a search finds the first position at or after the cursor where they
    match consecutively (the GotoNext/TryGotoNext search of ILCursor). */
module Matching {
  import opened Wrappers
  import opened Metadata

  /** One predicate of an anchor: an exact instruction (opcode and operand), a
      callvirt of any method, or a branch of the given condition to any label. */
  datatype Pattern = Is(instr: Instr) | AnyCallvirt | AnyBranch(cond: Cond)

  predicate Matches(p: Pattern, i: Instr) {
    match p
    case Is(x) => i == x
    case AnyCallvirt => i.Callvirt?
    case AnyBranch(c) => i.Branch? && i.cond == c
  }

  /** The predicates match the instructions starting at position k, one each. */
  predicate MatchesAt(s: seq<Instr>, pats: seq<Pattern>, k: nat) {
    k + |pats| <= |s| && forall j :: 0 <= j < |pats| ==> Matches(pats[j], s[k + j])
  }

  /** The first position at or after `from` where the anchor matches. */
  function FirstMatch(s: seq<Instr>, pats: seq<Pattern>, from: nat): (r: Option<nat>)
    ensures r.Some? ==> from <= r.value && MatchesAt(s, pats, r.value)
    ensures r.Some? ==> forall k :: from <= k < r.value ==> !MatchesAt(s, pats, k)
    ensures r.None? ==> forall k :: from <= k ==> !MatchesAt(s, pats, k)
    decreases |s| - from
  {
    if from + |pats| > |s| then None
    else if MatchesAt(s, pats, from) then Some(from)
    else FirstMatch(s, pats, from + 1)
  }

  /** The scan the cursor runs: each start position in turn, each predicate in
      turn, stopping at the first failing predicate. */
  method Search(s: seq<Instr>, pats: seq<Pattern>, from: nat) returns (r: Option<nat>)
    ensures r == FirstMatch(s, pats, from)
  {
    var i := from;
    while i + |pats| <= |s|
      invariant from <= i
      invariant FirstMatch(s, pats, i) == FirstMatch(s, pats, from)
      decreases |s| - i
    {
      var j := 0;
      while j < |pats| && Matches(pats[j], s[i + j])
        invariant 0 <= j <= |pats|
        invariant forall t :: 0 <= t < j ==> Matches(pats[t], s[i + t])
      {
        j := j + 1;
      }
      if j == |pats| {
        return Some(i);
      }
      i := i + 1;
    }
    return None;
  }

  /** Instructions placed in front of a stream do not change where an anchor
      matches in it, only shift the position. */
  lemma {:induction false} FirstMatchAfterPrefix(a: seq<Instr>, b: seq<Instr>, pats: seq<Pattern>, j: nat)
    ensures FirstMatch(b, pats, j).None? ==> FirstMatch(a + b, pats, |a| + j).None?
    ensures FirstMatch(b, pats, j).Some? ==>
              FirstMatch(a + b, pats, |a| + j) == Some(|a| + FirstMatch(b, pats, j).value)
    decreases |b| - j
  {
    MatchesAfterPrefix(a, b, pats, j);
    if j + |pats| > |b| {
    } else if MatchesAt(b, pats, j) {
    } else {
      FirstMatchAfterPrefix(a, b, pats, j + 1);
    }
  }

  lemma MatchesAfterPrefix(a: seq<Instr>, b: seq<Instr>, pats: seq<Pattern>, j: nat)
    ensures MatchesAt(a + b, pats, |a| + j) <==> MatchesAt(b, pats, j)
  {
    if j + |pats| <= |b| {
      forall t | 0 <= t < |pats|
        ensures Matches(pats[t], (a + b)[|a| + j + t]) == Matches(pats[t], b[j + t])
      {
        assert (a + b)[|a| + j + t] == b[j + t];
      }
    }
  }

  /** Searching from position p of s, or from the start of the same suffix put
      behind any other prefix, finds the same instruction. */
  lemma {:induction false} FirstMatchInSuffix(s: seq<Instr>, p: nat, a: seq<Instr>, pats: seq<Pattern>)
    requires p <= |s|
    ensures FirstMatch(s, pats, p).None? ==> FirstMatch(a + s[p..], pats, |a|).None?
    ensures FirstMatch(s, pats, p).Some? ==>
              FirstMatch(a + s[p..], pats, |a|) == Some(FirstMatch(s, pats, p).value - p + |a|)
  {
    SplitAt(s, p, pats);
    FirstMatchAfterPrefix(s[..p], s[p..], pats, 0);
    FirstMatchAfterPrefix(a, s[p..], pats, 0);
  }

  lemma SplitAt(s: seq<Instr>, p: nat, pats: seq<Pattern>)
    requires p <= |s|
    ensures FirstMatch(s, pats, p) == FirstMatch(s[..p] + s[p..], pats, |s[..p]| + 0)
  {
    assert s == s[..p] + s[p..];
  }

  /** A one-instruction anchor is found at the first occurrence of that
      instruction, or nowhere if it does not occur. */
  lemma FirstMatchOne(s: seq<Instr>, x: Instr, from: nat)
    ensures FirstMatch(s, [Is(x)], from).Some? ==>
              && FirstMatch(s, [Is(x)], from).value < |s| && s[FirstMatch(s, [Is(x)], from).value] == x
              && forall j :: from <= j < FirstMatch(s, [Is(x)], from).value ==> s[j] != x
    ensures FirstMatch(s, [Is(x)], from).None? ==> forall j :: from <= j < |s| ==> s[j] != x
  {
    forall j | from <= j < |s|
      ensures MatchesAt(s, [Is(x)], j) <==> s[j] == x
    {
      assert Matches([Is(x)][0], s[j + 0]) <==> s[j] == x;
    }
  }
}
