/** The instruction cursor the two patch scripts drive: a method body opened
    for editing (its instructions, locals and labels) together with the
    cursor position. Label handling follows ILCursor: labels marked at the
    cursor since it last moved are the cursor's "after labels", and the next
    instruction emitted there becomes their target; labels of removed
    instructions are moved to the cursor in the same way. */
module Cursor {
  import opened Wrappers
  import opened Metadata
  import opened Matching

  /** Where a successful search leaves the cursor: at the start of the match or just past it. */
  datatype MoveType = Before | After

  datatype CursorError = NoMatch | RemoveOutOfRange

  /** The binding of a label marked at position p of a stream of length len:
      the instruction there, or none past the end (a null target). */
  function At(p: nat, len: nat): (r: Option<nat>)
    ensures r.Some? <==> p < len
    ensures r.Some? ==> r.value == p
  {
    if p < len then Some(p) else None
  }

  /** A label binding after n instructions were inserted at position k in front of its target. */
  function Moved(o: Option<nat>, k: nat, n: nat): Option<nat> {
    match o
    case None => None
    case Some(q) => Some(if q < k then q else q + n)
  }

  /** Every label bound at or after k moves n places on; the others stay. */
  function ShiftFrom(labels: seq<Option<nat>>, k: nat, n: nat): (r: seq<Option<nat>>)
    ensures |r| == |labels|
  {
    seq(|labels|, l requires 0 <= l < |labels| => Moved(labels[l], k, n))
  }

  /** The labels after one instruction is emitted at position p: the cursor's
      after labels now target it, the others follow their instruction. */
  function EmittedAt(labels: seq<Option<nat>>, p: nat, after: set<LabelId>): (r: seq<Option<nat>>)
    ensures |r| == |labels|
  {
    seq(|labels|, l requires 0 <= l < |labels| => if l in after then Some(p) else Moved(labels[l], p, 1))
  }

  /** A label binding after the n instructions at p were removed from a stream
      now of length len: a target inside the range moves to the cursor. */
  function Removed(o: Option<nat>, p: nat, n: nat, len: nat): Option<nat> {
    match o
    case None => None
    case Some(q) => if q < p then Some(q) else if q < p + n then At(p, len) else Some(q - n)
  }

  function RemovedAt(labels: seq<Option<nat>>, p: nat, n: nat, len: nat): (r: seq<Option<nat>>)
    ensures |r| == |labels|
  {
    seq(|labels|, l requires 0 <= l < |labels| => Removed(labels[l], p, n, len))
  }

  /** The labels that targeted one of the n instructions at p. */
  function TargetingRange(labels: seq<Option<nat>>, p: nat, n: nat): set<LabelId> {
    set l | 0 <= l < |labels| && labels[l].Some? && p <= labels[l].value < p + n
  }

  lemma TargetingRangeHas(labels: seq<Option<nat>>, p: nat, n: nat, l: nat)
    requires l < |labels|
    ensures l in TargetingRange(labels, p, n) <==> labels[l].Some? && p <= labels[l].value < p + n
  {
  }

  lemma ShiftFromNothing(labels: seq<Option<nat>>, k: nat)
    ensures ShiftFrom(labels, k, 0) == labels
  {
  }

  lemma EmittedAtShift(labels: seq<Option<nat>>, k: nat, n: nat)
    ensures EmittedAt(ShiftFrom(labels, k, n), k + n, {}) == ShiftFrom(labels, k, n + 1)
  {
  }

  /** A body with `code` inserted before position k, every label following its instruction. */
  function InsertBefore(b: MethodBody, k: nat, code: seq<Instr>): (r: MethodBody)
    requires k <= |b.instrs|
    ensures |r.instrs| == |b.instrs| + |code| && |r.labels| == |b.labels| && r.variables == b.variables
  {
    MethodBody(b.instrs[..k] + code + b.instrs[k..], b.variables, ShiftFrom(b.labels, k, |code|))
  }

  /** The instruction at position i once `code` is inserted before k. */
  lemma InsertBeforeAt(b: MethodBody, k: nat, code: seq<Instr>, i: nat)
    requires k <= |b.instrs| && i < |b.instrs| + |code|
    ensures InsertBefore(b, k, code).instrs[i] ==
              if i < k then b.instrs[i] else if i < k + |code| then code[i - k] else b.instrs[i - |code|]
  {
  }

  /** A bound label still lands, after the insertion, on the instruction it targeted. */
  lemma InsertBeforeLabel(b: MethodBody, k: nat, code: seq<Instr>, l: nat)
    requires k <= |b.instrs| && l < |b.labels| && b.labels[l].Some? && b.labels[l].value < |b.instrs|
    ensures InsertBefore(b, k, code).labels[l].Some?
    ensures InsertBefore(b, k, code).labels[l].value < |InsertBefore(b, k, code).instrs|
    ensures InsertBefore(b, k, code).instrs[InsertBefore(b, k, code).labels[l].value] == b.instrs[b.labels[l].value]
  {
    InsertBeforeAt(b, k, code, InsertBefore(b, k, code).labels[l].value);
  }

  /** Inserting branch-free code keeps a body well formed and its branches
      resolved, every bound label still lands on the instruction it targeted,
      and an anchor matched at or after k matches |code| places further on. */
  lemma {:induction false} InsertBeforeKeepsTargets(b: MethodBody, k: nat, code: seq<Instr>)
    requires WellFormedBody(b) && k <= |b.instrs|
    requires forall i :: 0 <= i < |code| ==> !code[i].Branch?
    ensures WellFormedBody(InsertBefore(b, k, code))
    ensures BranchesResolve(b) ==> BranchesResolve(InsertBefore(b, k, code))
    ensures forall l :: 0 <= l < |b.labels| && b.labels[l].Some? ==>
              && InsertBefore(b, k, code).labels[l].Some?
              && InsertBefore(b, k, code).instrs[InsertBefore(b, k, code).labels[l].value] == b.instrs[b.labels[l].value]
    ensures forall pats, q :: k <= q && MatchesAt(b.instrs, pats, q) ==>
              MatchesAt(InsertBefore(b, k, code).instrs, pats, q + |code|)
  {
    var n := |code|;
    var b' := InsertBefore(b, k, code);
    forall l | 0 <= l < |b.labels| && b.labels[l].Some?
      ensures b'.labels[l].Some? && b'.labels[l].value < |b'.instrs|
      ensures b'.instrs[b'.labels[l].value] == b.instrs[b.labels[l].value]
    {
      InsertBeforeLabel(b, k, code, l);
    }
    forall l | 0 <= l < |b'.labels| && b'.labels[l].Some?
      ensures b'.labels[l].value < |b'.instrs|
    {
      InsertBeforeLabel(b, k, code, l);
    }
    forall i | 0 <= i < |b'.instrs|
      ensures b'.instrs[i].Branch? ==> b'.instrs[i].target < |b'.labels|
      ensures BranchesResolve(b) && b'.instrs[i].Branch? ==> b'.labels[b'.instrs[i].target].Some?
    {
      InsertBeforeAt(b, k, code, i);
      if b'.instrs[i].Branch? && k + n <= i {
        assert b'.instrs[i] == b.instrs[i - n];
      } else if b'.instrs[i].Branch? && i < k {
        assert b'.instrs[i] == b.instrs[i];
      }
    }
    forall pats: seq<Pattern>, q | k <= q && MatchesAt(b.instrs, pats, q)
      ensures MatchesAt(b'.instrs, pats, q + n)
    {
      forall j | 0 <= j < |pats|
        ensures Matches(pats[j], b'.instrs[q + n + j])
      {
        InsertBeforeAt(b, k, code, q + n + j);
      }
    }
  }

  class ILCursor {
    var instrs: seq<Instr>
    var variables: seq<string>
    var labels: seq<Option<nat>>
    var index: nat
    var afterLabels: set<LabelId>

    ghost predicate Valid()
      reads this
    {
      && index <= |instrs|
      && (forall l :: 0 <= l < |labels| && labels[l].Some? ==> labels[l].value < |instrs|)
      && (forall l :: l in afterLabels ==> l < |labels| && labels[l] == At(index, |instrs|))
      && (forall i :: 0 <= i < |instrs| && instrs[i].Branch? ==> instrs[i].target < |labels|)
    }

    /** The body as it stands. */
    function Body(): MethodBody
      reads this
    {
      MethodBody(instrs, variables, labels)
    }

    /** Opens a body for editing, with the cursor before its first instruction. */
    constructor (b: MethodBody)
      requires WellFormedBody(b)
      ensures Valid() && Body() == b && index == 0 && afterLabels == {}
    {
      instrs, variables, labels := b.instrs, b.variables, b.labels;
      index, afterLabels := 0, {};
    }

    /** TryGotoNext: moves to the first match at or after the cursor, if any. */
    method TryGotoNext(move: MoveType, pats: seq<Pattern>) returns (found: bool)
      requires Valid()
      modifies this
      ensures Valid() && Body() == old(Body())
      ensures found <==> FirstMatch(instrs, pats, old(index)).Some?
      ensures found ==> afterLabels == {} &&
                        index == FirstMatch(instrs, pats, old(index)).value + (if move == After then |pats| else 0)
      ensures !found ==> index == old(index) && afterLabels == old(afterLabels)
    {
      var k := Search(instrs, pats, index);
      found := k.Some?;
      if found {
        index := k.value + (if move == After then |pats| else 0);
        afterLabels := {};
      }
    }

    /** GotoNext: the same search, failing when there is no match. */
    method GotoNext(move: MoveType, pats: seq<Pattern>) returns (r: Outcome<CursorError>)
      requires Valid()
      modifies this
      ensures Valid() && Body() == old(Body())
      ensures r.Pass? <==> FirstMatch(instrs, pats, old(index)).Some?
      ensures r.Pass? ==> afterLabels == {} &&
                          index == FirstMatch(instrs, pats, old(index)).value + (if move == After then |pats| else 0)
      ensures r.Fail? ==> r.error == NoMatch && index == old(index) && afterLabels == old(afterLabels)
    {
      var found := TryGotoNext(move, pats);
      r := if found then Pass else Fail(NoMatch);
    }

    /** Emit: inserts x at the cursor and moves past it. */
    method Emit(x: Instr)
      requires Valid()
      requires x.Branch? ==> x.target < |labels|
      modifies this
      ensures Valid()
      ensures instrs == old(instrs[..index]) + [x] + old(instrs[index..])
      ensures instrs[..index] == old(instrs[..index]) + [x] && instrs[index..] == old(instrs[index..])
      ensures index == old(index) + 1
      ensures labels == EmittedAt(old(labels), old(index), old(afterLabels))
      ensures afterLabels == {} && variables == old(variables)
    {
      instrs := instrs[..index] + [x] + instrs[index..];
      labels := EmittedAt(labels, index, afterLabels);
      index := index + 1;
      afterLabels := {};
    }

    /** RemoveRange: deletes n instructions at the cursor; the labels that
        targeted them become after labels of the cursor. */
    method RemoveRange(n: nat) returns (r: Outcome<CursorError>)
      requires Valid()
      modifies this
      ensures Valid()
      ensures r.Pass? <==> old(index) + n <= |old(instrs)|
      ensures r.Fail? ==> r.error == RemoveOutOfRange && Body() == old(Body())
                          && index == old(index) && afterLabels == old(afterLabels)
      ensures r.Pass? ==> instrs == old(instrs[..index]) + old(instrs[index + n..])
      ensures r.Pass? ==> instrs[..index] == old(instrs[..index]) && instrs[index..] == old(instrs[index + n..])
      ensures r.Pass? ==> labels == RemovedAt(old(labels), old(index), n, |instrs|)
      ensures r.Pass? ==> afterLabels == TargetingRange(old(labels), old(index), n)
      ensures index == old(index) && variables == old(variables)
    {
      if index + n > |instrs| {
        return Fail(RemoveOutOfRange);
      }
      var moved := TargetingRange(labels, index, n);
      instrs := instrs[..index] + instrs[index + n..];
      labels := RemovedAt(labels, index, n, |instrs|);
      afterLabels := moved;
      r := Pass;
    }

    /** Remove: RemoveRange(1). */
    method Remove() returns (r: Outcome<CursorError>)
      requires Valid()
      modifies this
      ensures Valid()
      ensures r.Pass? <==> old(index) < |old(instrs)|
      ensures r.Fail? ==> r.error == RemoveOutOfRange && Body() == old(Body())
                          && index == old(index) && afterLabels == old(afterLabels)
      ensures r.Pass? ==> instrs == old(instrs[..index]) + old(instrs[index + 1..])
      ensures r.Pass? ==> instrs[..index] == old(instrs[..index]) && instrs[index..] == old(instrs[index + 1..])
      ensures r.Pass? ==> labels == RemovedAt(old(labels), old(index), 1, |instrs|)
      ensures r.Pass? ==> afterLabels == TargetingRange(old(labels), old(index), 1)
      ensures index == old(index) && variables == old(variables)
    {
      r := RemoveRange(1);
    }

    /** DefineLabel: a fresh, unbound label. */
    method DefineLabel() returns (l: LabelId)
      requires Valid()
      modifies this
      ensures Valid()
      ensures l == |old(labels)| && labels == old(labels) + [None]
      ensures instrs == old(instrs) && variables == old(variables)
      ensures index == old(index) && afterLabels == old(afterLabels)
    {
      l := |labels|;
      labels := labels + [None];
    }

    /** MarkLabel: binds l to the cursor position. */
    method MarkLabel(l: LabelId)
      requires Valid() && l < |labels|
      modifies this
      ensures Valid()
      ensures labels == old(labels)[l := At(index, |instrs|)]
      ensures afterLabels == old(afterLabels) + {l}
      ensures instrs == old(instrs) && variables == old(variables) && index == old(index)
    {
      labels := labels[l := At(index, |instrs|)];
      afterLabels := afterLabels + {l};
    }

    /** Body.Variables.Add: appends a local of type t and returns its index. */
    method AddVariable(t: string) returns (v: nat)
      requires Valid()
      modifies this
      ensures Valid()
      ensures v == |old(variables)| && variables == old(variables) + [t]
      ensures instrs == old(instrs) && labels == old(labels)
      ensures index == old(index) && afterLabels == old(afterLabels)
    {
      v := |variables|;
      variables := variables + [t];
    }
  }

  /** The labels after n instructions are emitted one by one at position p:
      the cursor's after labels target the first of them, the others follow
      their instruction. */
  function EmittedRun(labels: seq<Option<nat>>, p: nat, n: nat, after: set<LabelId>): (r: seq<Option<nat>>)
    ensures |r| == |labels|
  {
    seq(|labels|, l requires 0 <= l < |labels| => if n > 0 && l in after then Some(p) else Moved(labels[l], p, n))
  }

  lemma EmittedRunStep(labels: seq<Option<nat>>, p: nat, i: nat, after: set<LabelId>)
    ensures EmittedAt(EmittedRun(labels, p, i, after), p + i, if i == 0 then after else {})
            == EmittedRun(labels, p, i + 1, after)
  {
  }

  lemma EmittedRunQuiet(labels: seq<Option<nat>>, p: nat, n: nat)
    ensures EmittedRun(labels, p, n, {}) == ShiftFrom(labels, p, n)
  {
  }

  /** A straight run of c.Emit calls, one per instruction of code, in order. */
  method EmitAll(c: ILCursor, code: seq<Instr>)
    requires c.Valid()
    requires forall i :: 0 <= i < |code| && code[i].Branch? ==> code[i].target < |c.labels|
    modifies c
    ensures c.Valid()
    ensures c.instrs == old(c.instrs[..c.index]) + code + old(c.instrs[c.index..])
    ensures c.index == old(c.index) + |code|
    ensures c.labels == EmittedRun(old(c.labels), old(c.index), |code|, old(c.afterLabels))
    ensures c.afterLabels == (if |code| == 0 then old(c.afterLabels) else {})
    ensures c.variables == old(c.variables)
  {
    ghost var p, pre, suf, labels0, after0 := c.index, c.instrs[..c.index], c.instrs[c.index..], c.labels, c.afterLabels;
    assert c.labels == EmittedRun(labels0, p, 0, after0);
    var i := 0;
    while i < |code|
      invariant 0 <= i <= |code|
      invariant c.Valid() && c.index == p + i
      invariant c.instrs[..c.index] == pre + code[..i] && c.instrs[c.index..] == suf
      invariant c.labels == EmittedRun(labels0, p, i, after0) && |c.labels| == |labels0|
      invariant c.afterLabels == (if i == 0 then after0 else {})
      invariant c.variables == old(c.variables)
    {
      EmittedRunStep(labels0, p, i, after0);
      c.Emit(code[i]);
      assert code[..i + 1] == code[..i] + [code[i]];
      assert c.instrs[..c.index] == pre + code[..i + 1];
      i := i + 1;
    }
    assert code[..i] == code;
    assert c.instrs == c.instrs[..c.index] + c.instrs[c.index..];
  }

  /** RemoveRange(n) followed by a run of emits: the n instructions at the
      cursor are replaced by code, and the labels of the removed instructions
      are bound to the first instruction of code. */
  method Replace(c: ILCursor, n: nat, code: seq<Instr>) returns (r: Outcome<CursorError>)
    requires c.Valid()
    requires forall i :: 0 <= i < |code| && code[i].Branch? ==> code[i].target < |c.labels|
    modifies c
    ensures c.Valid()
    ensures r.Pass? <==> old(c.index) + n <= |old(c.instrs)|
    ensures r.Fail? ==> r.error == RemoveOutOfRange && c.Body() == old(c.Body()) && c.index == old(c.index)
    ensures r.Pass? ==> c.instrs == old(c.instrs[..c.index]) + code + old(c.instrs[c.index + n..])
    ensures r.Pass? ==> c.labels == EmittedRun(RemovedAt(old(c.labels), old(c.index), n, |old(c.instrs)| - n),
                                               old(c.index), |code|, TargetingRange(old(c.labels), old(c.index), n))
    ensures r.Pass? ==> c.variables == old(c.variables) && c.index == old(c.index) + |code|
    ensures r.Pass? && |code| > 0 ==> c.afterLabels == {}
  {
    r := c.RemoveRange(n);
    if r.Fail? {
      return;
    }
    EmitAll(c, code);
  }

  /** Replacing one instruction by one other leaves every label where it
      was: the labels of the removed instruction are bound to its replacement. */
  lemma {:induction false} ReplaceOneKeepsLabels(labels: seq<Option<nat>>, k: nat, len: nat)
    requires forall l :: 0 <= l < |labels| && labels[l].Some? ==> labels[l].value < len
    requires k < len
    ensures EmittedRun(RemovedAt(labels, k, 1, len - 1), k, 1, TargetingRange(labels, k, 1)) == labels
  {
    var r := EmittedRun(RemovedAt(labels, k, 1, len - 1), k, 1, TargetingRange(labels, k, 1));
    forall l | 0 <= l < |labels|
      ensures r[l] == labels[l]
    {
      TargetingRangeHas(labels, k, 1, l);
    }
  }

  /** GotoNext over a stream whose tail is the suffix of s from p, with the
      cursor at the start of that tail: the match found is the first match in
      s at or after p, shifted to where the tail now starts. */
  method SeekInSuffix(c: ILCursor, move: MoveType, pats: seq<Pattern>, ghost s: seq<Instr>, ghost p: nat,
                      ghost a: seq<Instr>) returns (r: Outcome<CursorError>)
    requires c.Valid() && p <= |s| && c.instrs == a + s[p..] && c.index == |a|
    modifies c
    ensures c.Valid() && c.Body() == old(c.Body())
    ensures r.Pass? <==> FirstMatch(s, pats, p).Some?
    ensures r.Pass? ==> c.afterLabels == {} &&
                        c.index == FirstMatch(s, pats, p).value - p + |a| + (if move == After then |pats| else 0)
    ensures r.Fail? ==> c.index == old(c.index) && c.afterLabels == old(c.afterLabels)
  {
    FirstMatchInSuffix(s, p, a, pats);
    r := c.GotoNext(move, pats);
  }

  /** A run of emits followed by MarkLabel(mark): mark is bound to the
      instruction after the emitted code. */
  method EmitAndMark(c: ILCursor, code: seq<Instr>, mark: LabelId)
    requires c.Valid() && mark < |c.labels|
    requires forall i :: 0 <= i < |code| && code[i].Branch? ==> code[i].target < |c.labels|
    modifies c
    ensures c.Valid()
    ensures c.instrs == old(c.instrs[..c.index]) + code + old(c.instrs[c.index..])
    ensures c.index == old(c.index) + |code|
    ensures c.labels == EmittedRun(old(c.labels), old(c.index), |code|, old(c.afterLabels))[mark := At(c.index, |c.instrs|)]
    ensures c.afterLabels == (if |code| == 0 then old(c.afterLabels) else {}) + {mark}
    ensures c.variables == old(c.variables)
  {
    EmitAll(c, code);
    c.MarkLabel(mark);
  }

  /** The labels once the n instructions at p of a stream of length len are
      replaced by m instructions with mark bound to the first of them: mark
      and the labels of the removed instructions land there. */
  function RangeReplaced(labels: seq<Option<nat>>, p: nat, n: nat, len: nat, mark: LabelId, m: nat)
    : (r: seq<Option<nat>>)
    requires n <= len && mark < |labels|
    ensures |r| == |labels|
  {
    EmittedRun(RemovedAt(labels, p, n, len - n)[mark := At(p, len - n)], p, m, TargetingRange(labels, p, n) + {mark})
  }

  /** RemoveRange(n), MarkLabel(mark), then a run of emits: the n instructions
      at the cursor are replaced by code, and mark, together with the labels of
      the removed instructions, is bound to the first instruction of code. */
  method ReplaceRange(c: ILCursor, n: nat, mark: LabelId, code: seq<Instr>) returns (r: Outcome<CursorError>)
    requires c.Valid() && mark < |c.labels|
    requires forall i :: 0 <= i < |code| && code[i].Branch? ==> code[i].target < |c.labels|
    modifies c
    ensures c.Valid()
    ensures r.Pass? <==> old(c.index) + n <= |old(c.instrs)|
    ensures r.Fail? ==> r.error == RemoveOutOfRange && c.Body() == old(c.Body()) && c.index == old(c.index)
    ensures r.Pass? ==> c.instrs == old(c.instrs[..c.index]) + code + old(c.instrs[c.index + n..])
    ensures r.Pass? ==> c.labels == RangeReplaced(old(c.labels), old(c.index), n, |old(c.instrs)|, mark, |code|)
    ensures r.Pass? ==> c.variables == old(c.variables) && c.index == old(c.index) + |code|
  {
    ghost var s0, l0, p0 := c.instrs, c.labels, c.index;
    r := c.RemoveRange(n);
    if r.Fail? {
      return;
    }
    ghost var s1 := c.instrs;
    c.MarkLabel(mark);
    EmitAll(c, code);
    assert s1[..p0] == s0[..p0] && s1[p0..] == s0[p0 + n..];
  }
}
