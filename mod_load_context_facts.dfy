/** What the ModLoadContext patch promises about the body it rewrites and the
    module it returns: where the three anchors were found, where every
    instruction and label ends up, what the logger local and the two new
    labels are used for, and that a patched module is refused. */
module ModLoadContextFacts {
  import opened Wrappers
  import opened Metadata
  import opened Matching
  import opened PatchSupport
  import opened ModLoadContextScript

  /** Instruction i of the rewritten body, region by region: the original code
      up to the logger site, the logger initialisation, the original code up to
      `call File.Exists`, `brtrue.s foundPdb` in place of the old branch, the
      debugger guard, the original code up to the eight-instruction anchor,
      the pdb load in place of the nine removed instructions, and the rest. */
  function RewrittenAt(b: MethodBody, p: Plan, i: nat): Instr
    requires PlanFits(b, p) && i < |b.instrs| + 24
  {
    var v := |b.variables|;
    if i < p.loggerAt then b.instrs[i]
    else if i < p.loggerAt + 3 then LoggerInit(p.getLogger, v)[i - p.loggerAt]
    else if i < p.existsAt + 4 then b.instrs[i - 3]
    else if i == p.existsAt + 4 then Branch(IfTrue, |b.labels|)
    else if i < p.existsAt + 20 then DebugGuard(|b.labels| + 1, v, p.properties, p.eacPath, p.debug)[i - p.existsAt - 5]
    else if i < p.bytesAt + 18 then b.instrs[i - 18]
    else if i < p.bytesAt + 33 then PdbLoad(v, p.properties, p.eacPath, p.debug)[i - p.bytesAt - 18]
    else b.instrs[i - 24]
  }

  /** Instruction i of the guarded prefix, up to the new branch. */
  lemma GuardedFrontAt(b: MethodBody, p: Plan, i: nat)
    requires PlanFits(b, p) && i < p.existsAt + 5
    ensures GuardedPrefix(b, p.loggerAt, p.existsAt, p.getLogger, p.properties, p.eacPath, p.debug)[i]
            == RewrittenAt(b, p, i)
  {
    var s := b.instrs;
    var logger := LoggerInit(p.getLogger, |b.variables|);
    var s2 := s[p.loggerAt..p.existsAt + 1];
    var front := s[..p.loggerAt] + logger + s2;
    var prefix := GuardedPrefix(b, p.loggerAt, p.existsAt, p.getLogger, p.properties, p.eacPath, p.debug);
    assert prefix == front + [Branch(IfTrue, |b.labels|)] + DebugGuard(|b.labels| + 1, |b.variables|, p.properties, p.eacPath, p.debug);
    assert |front| == p.existsAt + 4;
    if i < p.loggerAt {
      assert prefix[i] == front[i] == s[i];
    } else if i < p.loggerAt + 3 {
      assert prefix[i] == front[i] == logger[i - p.loggerAt];
    } else if i < p.existsAt + 4 {
      assert prefix[i] == front[i] == s2[i - p.loggerAt - 3];
    } else {
      assert prefix[i] == Branch(IfTrue, |b.labels|);
    }
  }

  /** Instruction i of the guarded prefix, in the debugger guard. */
  lemma GuardedGuardAt(b: MethodBody, p: Plan, i: nat)
    requires PlanFits(b, p) && p.existsAt + 5 <= i < p.existsAt + 20
    ensures GuardedPrefix(b, p.loggerAt, p.existsAt, p.getLogger, p.properties, p.eacPath, p.debug)[i]
            == DebugGuard(|b.labels| + 1, |b.variables|, p.properties, p.eacPath, p.debug)[i - p.existsAt - 5]
  {
    var front := b.instrs[..p.loggerAt] + LoggerInit(p.getLogger, |b.variables|) + b.instrs[p.loggerAt..p.existsAt + 1]
                 + [Branch(IfTrue, |b.labels|)];
    assert |front| == p.existsAt + 5;
  }

  /** Instruction i of the guarded prefix. */
  lemma GuardedPrefixAt(b: MethodBody, p: Plan, i: nat)
    requires PlanFits(b, p) && i < p.existsAt + 20
    ensures GuardedPrefix(b, p.loggerAt, p.existsAt, p.getLogger, p.properties, p.eacPath, p.debug)[i]
            == RewrittenAt(b, p, i)
  {
    if i < p.existsAt + 5 {
      GuardedFrontAt(b, p, i);
    } else {
      GuardedGuardAt(b, p, i);
      assert RewrittenAt(b, p, i)
             == DebugGuard(|b.labels| + 1, |b.variables|, p.properties, p.eacPath, p.debug)[i - p.existsAt - 5];
    }
  }

  /** Instruction i of the rewritten body. */
  lemma ManipulatedAt(b: MethodBody, p: Plan, i: nat)
    requires PlanFits(b, p) && i < |b.instrs| + 24
    ensures |ManipulatedInstrs(b, p)| == |b.instrs| + 24
    ensures ManipulatedInstrs(b, p)[i] == RewrittenAt(b, p, i)
  {
    var s := b.instrs;
    var prefix := GuardedPrefix(b, p.loggerAt, p.existsAt, p.getLogger, p.properties, p.eacPath, p.debug);
    var s3 := s[p.existsAt + 2..p.bytesAt];
    var load := PdbLoad(|b.variables|, p.properties, p.eacPath, p.debug);
    var s4 := s[p.bytesAt + 9..];
    var r := ManipulatedInstrs(b, p);
    assert r == prefix + s3 + load + s4;
    if i < p.existsAt + 20 {
      assert r[i] == prefix[i];
      GuardedPrefixAt(b, p, i);
    } else if i < p.bytesAt + 18 {
      assert r[i] == s3[i - p.existsAt - 20];
    } else if i < p.bytesAt + 33 {
      assert r[i] == load[i - p.bytesAt - 18];
    } else {
      assert r[i] == s4[i - p.bytesAt - 33];
    }
  }

  /** The rewritten instructions are the original ones with 24 more, laid out
      as RewrittenAt says. */
  lemma {:induction false} ManipulatedLayout(b: MethodBody, p: Plan)
    requires PlanFits(b, p)
    ensures |ManipulatedInstrs(b, p)| == |b.instrs| + 24
    ensures forall i :: 0 <= i < |b.instrs| + 24 ==> ManipulatedInstrs(b, p)[i] == RewrittenAt(b, p, i)
  {
    forall i | 0 <= i < |b.instrs| + 24
      ensures ManipulatedInstrs(b, p)[i] == RewrittenAt(b, p, i)
    {
      ManipulatedAt(b, p, i);
    }
  }

  /** Lines 138-148: bytesAt is the first eight-instruction anchor from existsAt + 2 on. */
  lemma {:induction false} BytesAnchorFound(b: MethodBody, md: ModuleDef, properties: FieldDef, eacPath: FieldDef,
                                            loggerAt: nat, existsAt: nat, getLogger: MethodDef, debug: MethodDef, p: Plan)
    requires BytesPlan(b, md, properties, eacPath, loggerAt, existsAt, getLogger, debug) == Success(p)
    ensures p.loggerAt == loggerAt && p.existsAt == existsAt && p.getLogger == getLogger && p.debug == debug
    ensures ModFile(md).Success? && GetModAssembly(md).Success?
    ensures MatchesAt(b.instrs, BytesAnchor(ModFile(md).value, GetModAssembly(md).value, properties, eacPath), p.bytesAt)
    ensures forall k :: existsAt + 2 <= k < p.bytesAt ==>
              !MatchesAt(b.instrs, BytesAnchor(ModFile(md).value, GetModAssembly(md).value, properties, eacPath), k)
  {
    var anchor := BytesAnchor(ModFile(md).value, GetModAssembly(md).value, properties, eacPath);
    assert FirstMatch(b.instrs, anchor, existsAt + 2) == Some(p.bytesAt);
  }

  /** Lines 103-110: existsAt is the first `call File.Exists` from loggerAt on,
      followed by at least one instruction; ILog.Debug is found. */
  lemma {:induction false} ExistsAnchorFound(b: MethodBody, md: ModuleDef, log4net: ModuleDef, properties: FieldDef,
                                             eacPath: FieldDef, loggerAt: nat, getLogger: MethodDef, p: Plan)
    requires ExistsPlan(b, md, log4net, properties, eacPath, loggerAt, getLogger) == Success(p)
    ensures b.instrs[p.existsAt] == Call(FileExists) && Debug(log4net) == Success(p.debug)
    ensures forall k :: loggerAt <= k < p.existsAt ==> b.instrs[k] != Call(FileExists)
    ensures BytesPlan(b, md, properties, eacPath, loggerAt, p.existsAt, getLogger, p.debug) == Success(p)
  {
    var m := FirstMatch(b.instrs, ExistsAnchor(), loggerAt);
    assert m.Some? && |b.instrs| > m.value + 1;
    var debug := Debug(log4net);
    assert debug.Success?;
    assert BytesPlan(b, md, properties, eacPath, loggerAt, m.value, getLogger, debug.value) == Success(p);
    FirstMatchOne(b.instrs, Call(FileExists), loggerAt);
  }

  /** Lines 86-101: no LoadFromAssemblyPath call anywhere in the body, the
      logger goes just past the first `blt` anchor, GetLogger is found. */
  lemma {:induction false} LoggerAnchorFound(b: MethodBody, md: ModuleDef, log4net: ModuleDef,
                                             properties: FieldDef, eacPath: FieldDef, p: Plan)
    requires PlanFor(b, md, log4net, properties, eacPath) == Success(p)
    ensures forall i :: 0 <= i < |b.instrs| ==> b.instrs[i] != Call(LoadFromAssemblyPath)
    ensures 5 <= p.loggerAt && MatchesAt(b.instrs, BltAnchor(), p.loggerAt - 5)
    ensures forall k :: 0 <= k < p.loggerAt - 5 ==> !MatchesAt(b.instrs, BltAnchor(), k)
    ensures GetLogger(log4net) == Success(p.getLogger)
    ensures ExistsPlan(b, md, log4net, properties, eacPath, p.loggerAt, p.getLogger) == Success(p)
  {
    assert FirstMatch(b.instrs, [Is(Call(LoadFromAssemblyPath))], 0).None?;
    FirstMatchOne(b.instrs, Call(LoadFromAssemblyPath), 0);
    assert LoggerPlan(b, md, log4net, properties, eacPath) == Success(p);
    var blt := FirstMatch(b.instrs, BltAnchor(), 0);
    var getLogger := GetLogger(log4net);
    assert blt.Some? && getLogger.Success?;
    assert ExistsPlan(b, md, log4net, properties, eacPath, blt.value + 5, getLogger.value) == Success(p);
  }

  /** The anchors are where the plan says and the ones found first: the body
      holds no LoadFromAssemblyPath call, the logger goes just past the first
      `blt` anchor, existsAt is the first `call File.Exists` after it, and
      bytesAt the first eight-instruction anchor after the branch that follows. */
  lemma {:induction false} PlanAnchors(b: MethodBody, md: ModuleDef, log4net: ModuleDef,
                                       properties: FieldDef, eacPath: FieldDef, p: Plan)
    requires PlanFor(b, md, log4net, properties, eacPath) == Success(p)
    ensures forall i :: 0 <= i < |b.instrs| ==> b.instrs[i] != Call(LoadFromAssemblyPath)
    ensures 5 <= p.loggerAt && MatchesAt(b.instrs, BltAnchor(), p.loggerAt - 5)
    ensures forall k :: 0 <= k < p.loggerAt - 5 ==> !MatchesAt(b.instrs, BltAnchor(), k)
    ensures GetLogger(log4net) == Success(p.getLogger) && Debug(log4net) == Success(p.debug)
    ensures b.instrs[p.existsAt] == Call(FileExists)
    ensures forall k :: p.loggerAt <= k < p.existsAt ==> b.instrs[k] != Call(FileExists)
    ensures ModFile(md).Success? && GetModAssembly(md).Success?
    ensures MatchesAt(b.instrs, BytesAnchor(ModFile(md).value, GetModAssembly(md).value, properties, eacPath), p.bytesAt)
    ensures forall k :: p.existsAt + 2 <= k < p.bytesAt ==>
              !MatchesAt(b.instrs, BytesAnchor(ModFile(md).value, GetModAssembly(md).value, properties, eacPath), k)
    ensures p.properties == properties && p.eacPath == eacPath && PlanFits(b, p)
  {
    LoggerAnchorFound(b, md, log4net, properties, eacPath, p);
    ExistsAnchorFound(b, md, log4net, properties, eacPath, p.loggerAt, p.getLogger, p);
    BytesAnchorFound(b, md, properties, eacPath, p.loggerAt, p.existsAt, p.getLogger, p.debug, p);
  }

  /** Where an original instruction that survives the rewrite ends up. */
  function Survivor(q: nat, p: Plan): nat {
    Relocated(Some(q), p).value
  }

  /** Every original instruction but the branch after `call File.Exists` and
      the nine at the anchor is still there, in its old order. */
  lemma {:induction false} ManipulatedKeeps(b: MethodBody, p: Plan, q: nat)
    requires PlanFits(b, p) && q < |b.instrs|
    requires q != p.existsAt + 1 && !(p.bytesAt <= q < p.bytesAt + 9)
    ensures Survivor(q, p) < |ManipulatedInstrs(b, p)|
    ensures ManipulatedInstrs(b, p)[Survivor(q, p)] == b.instrs[q]
  {
    ManipulatedAt(b, p, Survivor(q, p));
  }

  /** The survivors keep their order. */
  lemma SurvivorsInOrder(p: Plan, q: nat, q': nat)
    requires p.loggerAt <= p.existsAt && p.existsAt + 2 <= p.bytesAt
    requires q < q' && q != p.existsAt + 1 && !(p.bytesAt <= q < p.bytesAt + 9)
    requires q' != p.existsAt + 1 && !(p.bytesAt <= q' < p.bytesAt + 9)
    ensures Survivor(q, p) < Survivor(q', p)
  {
  }

  /** The logger local: appended to the locals as an object, stored by the
      emitted GetLogger call and loaded by both debug messages, after the store. */
  lemma {:induction false} LoggerLocal(b: MethodBody, p: Plan, b': MethodBody)
    requires PlanFits(b, p) && b' == ManipulatedBody(b, p)
    ensures b'.variables == b.variables + [ObjectType]
    ensures b'.instrs[p.loggerAt] == Ldstr(LoggerName) && b'.instrs[p.loggerAt + 1] == Call(p.getLogger)
    ensures b'.instrs[p.loggerAt + 2] == Stloc(|b.variables|)
    ensures b'.instrs[p.existsAt + 12] == Ldloc(|b.variables|) && b'.instrs[p.bytesAt + 18] == Ldloc(|b.variables|)
    ensures p.loggerAt + 2 < p.existsAt + 12 < p.bytesAt + 18
  {
    ManipulatedAt(b, p, p.loggerAt);
    ManipulatedAt(b, p, p.loggerAt + 1);
    ManipulatedAt(b, p, p.loggerAt + 2);
    ManipulatedAt(b, p, p.existsAt + 12);
    ManipulatedAt(b, p, p.bytesAt + 18);
  }

  /** A branch of the rewritten body: an original branch, or one of the three
      emitted, which jump to foundPdb (|labels|) and skipDebug (|labels| + 1). */
  lemma BranchAt(b: MethodBody, p: Plan, i: nat)
    requires WellFormedBody(b) && PlanFits(b, p) && i < |b.instrs| + 24 && RewrittenAt(b, p, i).Branch?
    ensures RewrittenAt(b, p, i).target < |b.labels| + 2
    ensures RewrittenAt(b, p, i).target == |b.labels| ==> i == p.existsAt + 4
    ensures RewrittenAt(b, p, i).target == |b.labels| + 1 ==> i == p.existsAt + 6 || i == p.existsAt + 11
    ensures BranchesResolve(b) && RewrittenAt(b, p, i).target < |b.labels| ==>
              b.labels[RewrittenAt(b, p, i).target].Some?
  {
    var v := |b.variables|;
    if p.existsAt + 5 <= i < p.existsAt + 20 {
      var guard := DebugGuard(|b.labels| + 1, v, p.properties, p.eacPath, p.debug);
      assert guard == DebugSkip(|b.labels| + 1, p.properties, p.eacPath)
                      + DebugLine(v, p.properties, p.eacPath, NotFoundTail, p.debug);
      assert guard[i - p.existsAt - 5].Branch? ==> i - p.existsAt - 5 == 1 || i - p.existsAt - 5 == 6;
    }
  }

  /** foundPdb and skipDebug: the two new labels, where they are bound and the
      three emitted branches that jump to them, the only branches that do. */
  lemma {:induction false} NewLabels(b: MethodBody, p: Plan, b': MethodBody)
    requires WellFormedBody(b) && PlanFits(b, p) && b' == ManipulatedBody(b, p)
    ensures |b'.labels| == |b.labels| + 2
    ensures b'.labels[|b.labels|] == Some(p.bytesAt + 18) && b'.labels[|b.labels| + 1] == Some(p.existsAt + 20)
    ensures b'.instrs[p.existsAt + 4] == Branch(IfTrue, |b.labels|)
    ensures b'.instrs[p.existsAt + 6] == Branch(IfFalse, |b.labels| + 1)
    ensures b'.instrs[p.existsAt + 11] == Branch(IfTrue, |b.labels| + 1)
    ensures p.existsAt + 2 < p.bytesAt ==> b'.instrs[p.existsAt + 20] == b.instrs[p.existsAt + 2]
    ensures p.existsAt + 2 == p.bytesAt ==> b'.instrs[p.existsAt + 20] == Ldloc(|b.variables|)
    ensures forall i :: 0 <= i < |b'.instrs| && b'.instrs[i].Branch? && b'.instrs[i].target == |b.labels| ==>
              i == p.existsAt + 4
    ensures forall i :: 0 <= i < |b'.instrs| && b'.instrs[i].Branch? && b'.instrs[i].target == |b.labels| + 1 ==>
              i == p.existsAt + 6 || i == p.existsAt + 11
  {
    ManipulatedLayout(b, p);
    assert b'.instrs[p.existsAt + 4] == RewrittenAt(b, p, p.existsAt + 4);
    assert b'.instrs[p.existsAt + 6] == RewrittenAt(b, p, p.existsAt + 6);
    assert b'.instrs[p.existsAt + 11] == RewrittenAt(b, p, p.existsAt + 11);
    assert b'.instrs[p.existsAt + 20] == RewrittenAt(b, p, p.existsAt + 20);
    forall i | 0 <= i < |b'.instrs| && b'.instrs[i].Branch?
      ensures b'.instrs[i].target == |b.labels| ==> i == p.existsAt + 4
      ensures b'.instrs[i].target == |b.labels| + 1 ==> i == p.existsAt + 6 || i == p.existsAt + 11
    {
      BranchAt(b, p, i);
    }
  }

  /** An old label: unbound labels stay unbound; one on the replaced branch
      moves to the new `brtrue.s foundPdb`, one on the nine removed
      instructions to the first instruction emitted in their place, any other
      stays on its instruction. */
  lemma {:induction false} OldLabel(b: MethodBody, p: Plan, b': MethodBody, l: nat)
    requires WellFormedBody(b) && PlanFits(b, p) && b' == ManipulatedBody(b, p) && l < |b.labels|
    ensures b'.labels[l].Some? <==> b.labels[l].Some?
    ensures b.labels[l].Some? && b.labels[l].value == p.existsAt + 1 ==> b'.labels[l] == Some(p.existsAt + 4)
    ensures b.labels[l].Some? && p.bytesAt <= b.labels[l].value < p.bytesAt + 9 ==>
              b'.labels[l] == Some(p.bytesAt + 18)
    ensures b.labels[l].Some? && b.labels[l].value != p.existsAt + 1 && !(p.bytesAt <= b.labels[l].value < p.bytesAt + 9) ==>
              && b'.labels[l] == Some(Survivor(b.labels[l].value, p))
              && b'.instrs[Survivor(b.labels[l].value, p)] == b.instrs[b.labels[l].value]
  {
    assert b'.labels[l] == Relocated(b.labels[l], p);
    if b.labels[l].Some? && b.labels[l].value != p.existsAt + 1 && !(p.bytesAt <= b.labels[l].value < p.bytesAt + 9) {
      ManipulatedKeeps(b, p, b.labels[l].value);
    }
  }

  /** The rewritten body is well formed, and every branch resolves in it if
      every branch resolved in the original. */
  lemma {:induction false} ManipulatedWellFormed(b: MethodBody, p: Plan, b': MethodBody)
    requires WellFormedBody(b) && PlanFits(b, p) && b' == ManipulatedBody(b, p)
    ensures WellFormedBody(b')
    ensures BranchesResolve(b) ==> BranchesResolve(b')
  {
    ManipulatedLayout(b, p);
    forall l | 0 <= l < |b'.labels| && b'.labels[l].Some?
      ensures b'.labels[l].value < |b'.instrs|
    {
      if l < |b.labels| {
        assert b'.labels[l] == Relocated(b.labels[l], p);
      }
    }
    forall i | 0 <= i < |b'.instrs| && b'.instrs[i].Branch?
      ensures b'.instrs[i].target < |b'.labels|
      ensures BranchesResolve(b) ==> b'.labels[b'.instrs[i].target].Some?
    {
      BranchAt(b, p, i);
      var t := b'.instrs[i].target;
      if t < |b.labels| {
        assert b'.labels[t] == Relocated(b.labels[t], p);
      }
    }
  }

  /** The body of ModLoadContext.LoadAssemblies, when the lookups that lead to it succeed. */
  function LoadAssembliesBody(md: ModuleDef): Option<MethodBody> {
    match LoadTarget(md)
    case Failure(_) => None
    case Success(t) => if t.loadAssemblies in md.bodies then Some(md.bodies[t.loadAssemblies]) else None
  }

  /** The probe runs before any edit: a LoadAssemblies body that calls
      LoadFromAssemblyPath anywhere is refused, whatever else it holds. */
  lemma {:induction false} ModLoadContextProbesFirst(md: ModuleDef, log4net: ModuleDef, i: nat)
    requires LoadAssembliesBody(md).Some?
    requires i < |LoadAssembliesBody(md).value.instrs|
    requires LoadAssembliesBody(md).value.instrs[i] == Call(LoadFromAssemblyPath)
    ensures PatchedModLoadContext(md, log4net) == Failure(AlreadyPatched)
  {
    var b := LoadAssembliesBody(md).value;
    assert MatchesAt(b.instrs, LoadProbe(), i);
    assert FirstMatch(b.instrs, LoadProbe(), 0).Some?;
  }

  /** The edit: LoadAssemblies gets the manipulated body of its plan, every
      other body and every type stays as it was, and the module stays valid. */
  lemma {:induction false} ModLoadContextEdit(md: ModuleDef, log4net: ModuleDef, md': ModuleDef)
    requires ValidModule(md)
    requires PatchedModLoadContext(md, log4net) == Success(md')
    ensures md'.types == md.types && md'.bodies.Keys == md.bodies.Keys
    ensures LoadTarget(md).Success? && LoadAssembliesBody(md).Some?
    ensures PlanFor(LoadAssembliesBody(md).value, md, log4net,
                    LoadTarget(md).value.properties, LoadTarget(md).value.eacPath).Success?
    ensures md'.bodies[LoadTarget(md).value.loadAssemblies]
            == ManipulatedBody(LoadAssembliesBody(md).value,
                               PlanFor(LoadAssembliesBody(md).value, md, log4net,
                                       LoadTarget(md).value.properties, LoadTarget(md).value.eacPath).value)
    ensures forall m :: m in md.bodies && m != LoadTarget(md).value.loadAssemblies ==> md'.bodies[m] == md.bodies[m]
    ensures ValidModule(md')
  {
    var t := LoadTarget(md).value;
    var b := md.bodies[t.loadAssemblies];
    var p := PlanFor(b, md, log4net, t.properties, t.eacPath).value;
    var b' := ManipulatedBody(b, p);
    assert md' == md.(bodies := md.bodies[t.loadAssemblies := b']);
    ManipulatedWellFormed(b, p, b');
  }

  /** Idempotence: a module the ModLoadContext patch has patched is refused by
      its probe, since the emitted pdb load ends in a LoadFromAssemblyPath call. */
  lemma {:induction false} ModLoadContextIdempotent(md: ModuleDef, log4net: ModuleDef, md': ModuleDef)
    requires ValidModule(md)
    requires PatchedModLoadContext(md, log4net) == Success(md')
    ensures PatchedModLoadContext(md', log4net) == Failure(AlreadyPatched)
  {
    var i := ModLoadContextLoads(md, log4net, md');
    ModLoadContextProbesFirst(md', log4net, i);
  }

  /** The patched LoadAssemblies body calls LoadFromAssemblyPath: the pdb load
      the patch emits ends in that call. */
  lemma {:induction false} ModLoadContextLoads(md: ModuleDef, log4net: ModuleDef, md': ModuleDef) returns (i: nat)
    requires ValidModule(md)
    requires PatchedModLoadContext(md, log4net) == Success(md')
    ensures LoadTarget(md') == LoadTarget(md) && LoadTarget(md).Success?
    ensures LoadTarget(md).value.loadAssemblies in md'.bodies
    ensures i < |md'.bodies[LoadTarget(md).value.loadAssemblies].instrs|
    ensures md'.bodies[LoadTarget(md).value.loadAssemblies].instrs[i] == Call(LoadFromAssemblyPath)
  {
    ModLoadContextEdit(md, log4net, md');
    var t := LoadTarget(md).value;
    var b := md.bodies[t.loadAssemblies];
    var p := PlanFor(b, md, log4net, t.properties, t.eacPath).value;
    assert LoadTarget(md') == LoadTarget(md) by {
      assert GetType(md', ModLoadContextType) == GetType(md, ModLoadContextType);
      assert GetType(md', BuildPropertiesType) == GetType(md, BuildPropertiesType);
    }
    i := p.bytesAt + 32;
    ManipulatedAt(b, p, i);
    assert RewrittenAt(b, p, i) == Call(LoadFromAssemblyPath);
  }
}
