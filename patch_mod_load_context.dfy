/** The AssemblyManager/ModLoadContext patch: ModLoadContext.LoadAssemblies is
    rewritten so that, when the mod's pdb file exists, the assembly is loaded
    from the path next to it (LoadFromAssemblyPath) rather than from the bytes
    read out of the mod file, with log4net debug messages on both paths. */
module ModLoadContextScript {
  import opened Wrappers
  import opened Metadata
  import opened Matching
  import opened Cursor
  import opened PatchSupport

  const AssemblyManagerType := "Terraria.ModLoader.Core.AssemblyManager"
  const ModLoadContextType := "Terraria.ModLoader.Core.AssemblyManager/ModLoadContext"
  const BuildPropertiesType := "Terraria.ModLoader.Core.BuildProperties"
  const LoggerName := "tML"
  const PdbPrefix := "Located pdb at "
  const NotFoundTail := ", but the file was not found"
  const LoadingTail := ", loading assembly from disk"
  const DllExtension := ".dll"

  /** The members looked up before the body is opened. */
  datatype Target = Target(loadAssemblies: MethodDef, properties: FieldDef, eacPath: FieldDef)

  /** The members the emitted code refers to, and the three anchor sites found
      in the original body: loggerAt is just past the `blt` anchor, existsAt is
      the `call File.Exists`, bytesAt the start of the eight-instruction anchor. */
  datatype Plan = Plan(loggerAt: nat, existsAt: nat, bytesAt: nat,
                       properties: FieldDef, eacPath: FieldDef, getLogger: MethodDef, debug: MethodDef)

  /** Lines 72-76: ModLoadContext (null if missing), its LoadAssemblies and
      properties, and BuildProperties.eacPath, in that order. */
  function LoadTarget(md: ModuleDef): Result<Target, PatchError> {
    var modLoadContext := GetType(md, ModLoadContextType);
    match MethodOf(modLoadContext, ModLoadContextType, "LoadAssemblies")
    case Failure(e) => Failure(e)
    case Success(loadAssemblies) =>
      match FieldOf(modLoadContext, ModLoadContextType, "properties")
      case Failure(e) => Failure(e)
      case Success(properties) =>
        match FieldOf(GetType(md, BuildPropertiesType), BuildPropertiesType, "eacPath")
        case Failure(e) => Failure(e)
        case Success(eacPath) => Success(Target(loadAssemblies, properties, eacPath))
  }

  /** log4net's LogManager.GetLogger, the type found by its simple name. */
  function GetLogger(log4net: ModuleDef): Result<MethodDef, PatchError> {
    MethodOf(TypeNamed(log4net.types, "LogManager"), "LogManager", "GetLogger")
  }

  /** log4net's ILog.Debug. */
  function Debug(log4net: ModuleDef): Result<MethodDef, PatchError> {
    MethodOf(TypeNamed(log4net.types, "ILog"), "ILog", "Debug")
  }

  function ModFile(md: ModuleDef): Result<FieldDef, PatchError> {
    FieldOf(GetType(md, ModLoadContextType), ModLoadContextType, "modFile")
  }

  function GetModAssembly(md: ModuleDef): Result<MethodDef, PatchError> {
    MethodOf(GetType(md, AssemblyManagerType), AssemblyManagerType, "GetModAssembly")
  }

  /** The probe: a call to AssemblyLoadContext.LoadFromAssemblyPath anywhere in the body. */
  function LoadProbe(): seq<Pattern> {
    [Is(Call(LoadFromAssemblyPath))]
  }

  /** `ldloc.3; ldloc.2; ldlen; conv.i4; blt _`: the end of the loop header. */
  function BltAnchor(): seq<Pattern> {
    [Is(Ldloc(3)), Is(Ldloc(2)), Is(Ldlen), Is(ConvI4), AnyBranch(IfLess)]
  }

  function ExistsAnchor(): seq<Pattern> {
    [Is(Call(FileExists))]
  }

  /** `ldarg.0; ldarg.0; ldfld modFile; call GetModAssembly; ldarg.0; ldfld properties;
      ldfld eacPath; call File.ReadAllBytes`: the call that loads the assembly from bytes. */
  function BytesAnchor(modFile: FieldDef, getModAssembly: MethodDef, properties: FieldDef, eacPath: FieldDef): seq<Pattern> {
    [Is(Ldarg(0)), Is(Ldarg(0)), Is(Ldfld(modFile)), Is(Call(getModAssembly)),
     Is(Ldarg(0)), Is(Ldfld(properties)), Is(Ldfld(eacPath)), Is(Call(FileReadAllBytes))]
  }

  /** `tml = LogManager.GetLogger("tML")`, tml being local v. */
  function LoggerInit(getLogger: MethodDef, v: nat): (r: seq<Instr>)
    ensures |r| == 3 && forall i :: 0 <= i < |r| ==> !r[i].Branch?
  {
    [Ldstr(LoggerName), Call(getLogger), Stloc(v)]
  }

  /** `if (!Debugger.IsAttached || string.IsNullOrEmpty(this.properties.eacPath)) goto skipDebug`. */
  function DebugSkip(skipDebug: LabelId, properties: FieldDef, eacPath: FieldDef): seq<Instr> {
    [Call(DebuggerIsAttached), Branch(IfFalse, skipDebug),
     Ldarg(0), Ldfld(properties), Ldfld(eacPath), Call(StringIsNullOrEmpty), Branch(IfTrue, skipDebug)]
  }

  /** `tml.Debug("Located pdb at " + this.properties.eacPath + tail)`. */
  function DebugLine(v: nat, properties: FieldDef, eacPath: FieldDef, tail: string, debug: MethodDef): seq<Instr> {
    [Ldloc(v), Ldstr(PdbPrefix), Ldarg(0), Ldfld(properties), Ldfld(eacPath), Ldstr(tail),
     Call(StringConcat3), Callvirt(debug)]
  }

  /** `base.LoadFromAssemblyPath(Path.ChangeExtension(this.properties.eacPath, ".dll"))`. */
  function LoadCall(properties: FieldDef, eacPath: FieldDef): seq<Instr> {
    [Ldarg(0), Ldarg(0), Ldfld(properties), Ldfld(eacPath), Ldstr(DllExtension),
     Call(PathChangeExtension), Call(LoadFromAssemblyPath)]
  }

  /** Lines 116-134: the debugger guard and the "file was not found" message. */
  function DebugGuard(skipDebug: LabelId, v: nat, properties: FieldDef, eacPath: FieldDef, debug: MethodDef): (r: seq<Instr>)
    ensures |r| == 15
    ensures forall i :: 0 <= i < |r| && r[i].Branch? ==> r[i].target == skipDebug
  {
    DebugSkip(skipDebug, properties, eacPath) + DebugLine(v, properties, eacPath, NotFoundTail, debug)
  }

  /** Lines 152-171: the "loading assembly from disk" message and the load from the pdb's path. */
  function PdbLoad(v: nat, properties: FieldDef, eacPath: FieldDef, debug: MethodDef): (r: seq<Instr>)
    ensures |r| == 15 && forall i :: 0 <= i < |r| ==> !r[i].Branch?
  {
    DebugLine(v, properties, eacPath, LoadingTail, debug) + LoadCall(properties, eacPath)
  }

  /** What ManipCtx finds in the body before it edits anything, or why it
      stops: the probe, the three anchors, the member lookups and the two
      removals, checked in the order the script meets them. */
  function PlanFor(b: MethodBody, md: ModuleDef, log4net: ModuleDef, properties: FieldDef, eacPath: FieldDef)
    : (r: Result<Plan, PatchError>)
    ensures r.Success? ==> PlanFits(b, r.value) && r.value.properties == properties && r.value.eacPath == eacPath
  {
    if FirstMatch(b.instrs, LoadProbe(), 0).Some? then Failure(AlreadyPatched)
    else LoggerPlan(b, md, log4net, properties, eacPath)
  }

  /** Lines 87-101: the `blt` anchor and LogManager.GetLogger. */
  function LoggerPlan(b: MethodBody, md: ModuleDef, log4net: ModuleDef, properties: FieldDef, eacPath: FieldDef)
    : (r: Result<Plan, PatchError>)
    ensures r.Success? ==> PlanFits(b, r.value) && r.value.properties == properties && r.value.eacPath == eacPath
  {
    match FirstMatch(b.instrs, BltAnchor(), 0)
    case None => Failure(AnchorNotFound)
    case Some(blt) =>
      match GetLogger(log4net)
      case Failure(e) => Failure(e)
      case Success(getLogger) => ExistsPlan(b, md, log4net, properties, eacPath, blt + |BltAnchor()|, getLogger)
  }

  /** Lines 103-134: the `call File.Exists` anchor after the logger site, the
      instruction after it to remove, and ILog.Debug. */
  function ExistsPlan(b: MethodBody, md: ModuleDef, log4net: ModuleDef, properties: FieldDef, eacPath: FieldDef,
                      loggerAt: nat, getLogger: MethodDef): (r: Result<Plan, PatchError>)
    ensures r.Success? ==> PlanFits(b, r.value) && r.value.loggerAt == loggerAt && r.value.getLogger == getLogger
                           && r.value.properties == properties && r.value.eacPath == eacPath
  {
    match FirstMatch(b.instrs, ExistsAnchor(), loggerAt)
    case None => Failure(AnchorNotFound)
    case Some(existsAt) =>
      if |b.instrs| <= existsAt + 1 then Failure(RemovePastEnd)
      else
        match Debug(log4net)
        case Failure(e) => Failure(e)
        case Success(debug) => BytesPlan(b, md, properties, eacPath, loggerAt, existsAt, getLogger, debug)
  }

  /** Lines 138-148: the eight-instruction anchor after the branch, with its
      two lookups, and the nine instructions to remove. */
  function BytesPlan(b: MethodBody, md: ModuleDef, properties: FieldDef, eacPath: FieldDef,
                     loggerAt: nat, existsAt: nat, getLogger: MethodDef, debug: MethodDef): (r: Result<Plan, PatchError>)
    ensures r.Success? ==> r.value == Plan(loggerAt, existsAt, r.value.bytesAt, properties, eacPath, getLogger, debug)
                           && existsAt + 2 <= r.value.bytesAt && r.value.bytesAt + 9 <= |b.instrs|
  {
    match ModFile(md)
    case Failure(e) => Failure(e)
    case Success(modFile) =>
      match GetModAssembly(md)
      case Failure(e) => Failure(e)
      case Success(getModAssembly) =>
        match FirstMatch(b.instrs, BytesAnchor(modFile, getModAssembly, properties, eacPath), existsAt + 2)
        case None => Failure(AnchorNotFound)
        case Some(bytesAt) =>
          if |b.instrs| < bytesAt + 9 then Failure(RemovePastEnd)
          else Success(Plan(loggerAt, existsAt, bytesAt, properties, eacPath, getLogger, debug))
  }

  predicate PlanFits(b: MethodBody, p: Plan) {
    p.loggerAt <= p.existsAt && p.existsAt + 2 <= p.bytesAt && p.bytesAt + 9 <= |b.instrs|
  }

  /** Where an old label ends up: labels in front of the logger code stay,
      the branch after File.Exists is replaced in place by the new brtrue,
      labels of the nine removed instructions move to the first instruction
      emitted at their site, and the rest follow their instruction. */
  function Relocated(o: Option<nat>, p: Plan): Option<nat> {
    match o
    case None => None
    case Some(q) =>
      Some(if q < p.loggerAt then q
           else if q <= p.existsAt then q + 3
           else if q == p.existsAt + 1 then p.existsAt + 4
           else if q < p.bytesAt then q + 18
           else if q < p.bytesAt + 9 then p.bytesAt + 18
           else q + 24)
  }

  function RelocatedLabels(labels: seq<Option<nat>>, p: Plan): (r: seq<Option<nat>>)
    ensures |r| == |labels|
  {
    seq(|labels|, l requires 0 <= l < |labels| => Relocated(labels[l], p))
  }

  /** The instructions in front of the eight-instruction anchor once the
      branch after File.Exists has been replaced: the logger initialisation
      after the `blt` anchor, `brtrue.s foundPdb` in place of the old branch,
      then the debugger guard and its message. */
  function GuardedPrefix(b: MethodBody, loggerAt: nat, existsAt: nat, getLogger: MethodDef,
                         properties: FieldDef, eacPath: FieldDef, debug: MethodDef): (r: seq<Instr>)
    requires loggerAt <= existsAt && existsAt + 1 < |b.instrs|
    ensures |r| == existsAt + 20
  {
    b.instrs[..loggerAt] + LoggerInit(getLogger, |b.variables|) + b.instrs[loggerAt..existsAt + 1]
      + [Branch(IfTrue, |b.labels|)] + DebugGuard(|b.labels| + 1, |b.variables|, properties, eacPath, debug)
  }

  /** The rewritten instructions: the guarded prefix, the original code up to
      the anchor, and the pdb load in place of the nine removed instructions. */
  function ManipulatedInstrs(b: MethodBody, p: Plan): seq<Instr>
    requires PlanFits(b, p)
  {
    GuardedPrefix(b, p.loggerAt, p.existsAt, p.getLogger, p.properties, p.eacPath, p.debug)
      + b.instrs[p.existsAt + 2..p.bytesAt] + PdbLoad(|b.variables|, p.properties, p.eacPath, p.debug)
      + b.instrs[p.bytesAt + 9..]
  }

  /** The rewritten labels: old labels relocated, then foundPdb on the first
      instruction emitted at the removal site and skipDebug on the instruction
      after the first debug call. */
  function ManipulatedLabels(labels: seq<Option<nat>>, p: Plan): (r: seq<Option<nat>>)
    ensures |r| == |labels| + 2
  {
    RelocatedLabels(labels, p) + [Some(p.bytesAt + 18), Some(p.existsAt + 20)]
  }

  /** The rewritten body: the instructions above, the logger local appended,
      old labels relocated, foundPdb bound to the first instruction emitted at
      the removal site and skipDebug to the instruction after the first debug call. */
  function ManipulatedBody(b: MethodBody, p: Plan): MethodBody
    requires PlanFits(b, p)
  {
    MethodBody(ManipulatedInstrs(b, p), b.variables + [ObjectType], ManipulatedLabels(b.labels, p))
  }

  function ManipCtxSpec(b: MethodBody, md: ModuleDef, log4net: ModuleDef, properties: FieldDef, eacPath: FieldDef)
    : Result<MethodBody, PatchError>
  {
    match PlanFor(b, md, log4net, properties, eacPath)
    case Failure(e) => Failure(e)
    case Success(p) => Success(ManipulatedBody(b, p))
  }

  /** The patched module, or why the patch fails. */
  function PatchedModLoadContext(md: ModuleDef, log4net: ModuleDef): Result<ModuleDef, PatchError> {
    match LoadTarget(md)
    case Failure(e) => Failure(e)
    case Success(t) =>
      if t.loadAssemblies !in md.bodies then Failure(MissingBody(t.loadAssemblies))
      else
        match ManipCtxSpec(md.bodies[t.loadAssemblies], md, log4net, t.properties, t.eacPath)
        case Failure(e) => Failure(e)
        case Success(b') => Success(md.(bodies := md.bodies[t.loadAssemblies := b']))
  }

  /** Where an old label is once the branch after File.Exists has been replaced. */
  function Guarded(o: Option<nat>, loggerAt: nat, existsAt: nat): Option<nat> {
    match o
    case None => None
    case Some(q) =>
      Some(if q < loggerAt then q
           else if q <= existsAt then q + 3
           else if q == existsAt + 1 then existsAt + 4
           else q + 18)
  }

  /** Labels once the branch after File.Exists has been replaced and skipDebug
      marked: foundPdb not yet bound, skipDebug on the instruction after the
      first debug call (none if there is no such instruction). */
  function GuardedLabels(labels: seq<Option<nat>>, loggerAt: nat, existsAt: nat, len: nat): (r: seq<Option<nat>>)
    ensures |r| == |labels| + 2
  {
    seq(|labels|, l requires 0 <= l < |labels| => Guarded(labels[l], loggerAt, existsAt))
      + [None, At(existsAt + 20, len + 18)]
  }

  /** The labels once the logger code is emitted, the branch after
      File.Exists replaced, the debug guard emitted and skipDebug marked. */
  lemma {:induction false} GuardLabels(labels: seq<Option<nat>>, loggerAt: nat, existsAt: nat, len: nat,
                                       la: seq<Option<nat>>, lc: seq<Option<nat>>, k2: nat, idx: nat, lenD: nat,
                                       ld: seq<Option<nat>>)
    requires loggerAt <= existsAt
    requires la == ShiftFrom(labels, loggerAt, 3) && lc == la + [None]
    requires k2 == existsAt + 5 && idx == existsAt + 20 && lenD == len + 18
    requires ld == ShiftFrom(lc + [None], k2, 15)[|labels| + 1 := At(idx, lenD)]
    ensures ld == GuardedLabels(labels, loggerAt, existsAt, len)
  {
    var expected := GuardedLabels(labels, loggerAt, existsAt, len);
    forall l | 0 <= l < |labels|
      ensures ld[l] == expected[l]
    {
      assert la[l] == Moved(labels[l], loggerAt, 3);
    }
    assert ld[|labels|] == expected[|labels|];
  }

  /** One label through the removal of the nine instructions and the 15 emitted in their place. */
  lemma FinalStep(o: Option<nat>, moved: bool, p: Plan, len: nat)
    requires o.Some? ==> o.value < len
    requires p.loggerAt <= p.existsAt && p.existsAt + 2 <= p.bytesAt && p.bytesAt + 9 <= len
    requires moved <==> Guarded(o, p.loggerAt, p.existsAt).Some? &&
                        p.bytesAt + 18 <= Guarded(o, p.loggerAt, p.existsAt).value < p.bytesAt + 27
    ensures (if moved then Some(p.bytesAt + 18)
             else Moved(Removed(Guarded(o, p.loggerAt, p.existsAt), p.bytesAt + 18, 9, len + 9), p.bytesAt + 18, 15))
            == Relocated(o, p)
  {
  }

  /** The label table through the removal of the nine instructions at the
      anchor, the mark of foundPdb there and the 15 instructions emitted. */
  predicate FinalSetup(labels: seq<Option<nat>>, p: Plan, len: nat, la: seq<Option<nat>>,
                       k: nat, lenA: nat, n: nat, mark: LabelId, lf: seq<Option<nat>>)
  {
    && p.loggerAt <= p.existsAt && p.existsAt + 2 <= p.bytesAt && p.bytesAt + 9 <= len
    && la == GuardedLabels(labels, p.loggerAt, p.existsAt, len)
    && k == p.bytesAt + 18 && lenA == len + 18 && n == 15 && mark == |labels|
    && mark < |la| && lf == RangeReplaced(la, k, 9, lenA, mark, n)
  }

  /** One entry of the labels after the removal, the mark and the emitted run. */
  lemma FinalAt(la: seq<Option<nat>>, k: nat, lenA: nat, n: nat, mark: LabelId, lf: seq<Option<nat>>, l: nat)
    requires n > 0 && 9 <= lenA && l < |la| && mark < |la| && l != mark
    requires mark < |la| && lf == RangeReplaced(la, k, 9, lenA, mark, n)
    ensures lf[l] == if la[l].Some? && k <= la[l].value < k + 9 then Some(k) else Moved(Removed(la[l], k, 9, lenA - 9), k, n)
  {
    TargetingRangeHas(la, k, 9, l);
  }

  lemma GuardedAt(labels: seq<Option<nat>>, loggerAt: nat, existsAt: nat, len: nat, l: nat)
    requires l < |labels|
    ensures GuardedLabels(labels, loggerAt, existsAt, len)[l] == Guarded(labels[l], loggerAt, existsAt)
  {
  }

  /** An old label ends up where Relocated says. */
  lemma FinalOld(labels: seq<Option<nat>>, p: Plan, len: nat, la: seq<Option<nat>>,
                 k: nat, lenA: nat, n: nat, mark: LabelId, lf: seq<Option<nat>>, l: nat)
    requires FinalSetup(labels, p, len, la, k, lenA, n, mark, lf)
    requires l < |labels| && (labels[l].Some? ==> labels[l].value < len)
    ensures lf[l] == Relocated(labels[l], p)
  {
    FinalAt(la, k, lenA, n, mark, lf, l);
    GuardedAt(labels, p.loggerAt, p.existsAt, len, l);
    FinalStep(labels[l], la[l].Some? && k <= la[l].value < k + 9, p, len);
  }

  lemma GuardedSkipDebug(labels: seq<Option<nat>>, loggerAt: nat, existsAt: nat, len: nat)
    ensures GuardedLabels(labels, loggerAt, existsAt, len)[|labels| + 1] == At(existsAt + 20, len + 18)
  {
  }

  /** skipDebug stays on the instruction after the first debug call, which is
      the first emitted instruction when the anchor follows the branch at once. */
  lemma FinalSkipDebug(labels: seq<Option<nat>>, p: Plan, len: nat, la: seq<Option<nat>>,
                       k: nat, lenA: nat, n: nat, mark: LabelId, lf: seq<Option<nat>>)
    requires FinalSetup(labels, p, len, la, k, lenA, n, mark, lf)
    ensures lf[|labels| + 1] == Some(p.existsAt + 20)
  {
    var skipDebug := |labels| + 1;
    GuardedSkipDebug(labels, p.loggerAt, p.existsAt, len);
    assert la[skipDebug] == Some(p.existsAt + 20);
    FinalAt(la, k, lenA, n, mark, lf, skipDebug);
    if p.bytesAt == p.existsAt + 2 {
      assert k <= la[skipDebug].value < k + 9;
    } else {
      assert la[skipDebug].value < k;
    }
  }

  /** foundPdb is bound to the first emitted instruction. */
  lemma FinalMark(labels: seq<Option<nat>>, p: Plan, len: nat, la: seq<Option<nat>>,
                  k: nat, lenA: nat, n: nat, mark: LabelId, lf: seq<Option<nat>>)
    requires FinalSetup(labels, p, len, la, k, lenA, n, mark, lf)
    ensures |lf| == |labels| + 2 && lf[|labels|] == Some(p.bytesAt + 18)
  {
    assert mark in TargetingRange(la, k, 9) + {mark};
  }

  /** The labels at the end: foundPdb and the labels of the nine removed
      instructions on the first instruction emitted at the removal site. */
  lemma {:induction false} FinalLabels(labels: seq<Option<nat>>, p: Plan, len: nat, la: seq<Option<nat>>,
                                       k: nat, lenA: nat, n: nat, mark: LabelId, lf: seq<Option<nat>>)
    requires LabelsBound(labels, len)
    requires p.loggerAt <= p.existsAt && p.existsAt + 2 <= p.bytesAt && p.bytesAt + 9 <= len
    requires la == GuardedLabels(labels, p.loggerAt, p.existsAt, len)
    requires k == p.bytesAt + 18 && lenA == len + 18 && n == 15 && mark == |labels|
    requires mark < |la| && lf == RangeReplaced(la, k, 9, lenA, mark, n)
    ensures lf == ManipulatedLabels(labels, p)
  {
    var expected := ManipulatedLabels(labels, p);
    assert FinalSetup(labels, p, len, la, k, lenA, n, mark, lf);
    forall l | 0 <= l < |labels|
      ensures lf[l] == expected[l]
    {
      FinalOld(labels, p, len, la, k, lenA, n, mark, lf, l);
    }
    FinalMark(labels, p, len, la, k, lenA, n, mark, lf);
    FinalSkipDebug(labels, p, len, la, k, lenA, n, mark, lf);
  }

  /** The instructions once the branch after File.Exists has been replaced. */
  lemma {:induction false} GuardInstrs(s: seq<Instr>, loggerAt: nat, existsAt: nat, logger: seq<Instr>,
                                        br: Instr, code: seq<Instr>, sa: seq<Instr>, sc: seq<Instr>, sd: seq<Instr>)
    requires loggerAt <= existsAt && existsAt + 1 < |s| && |logger| == 3
    requires sa == s[..loggerAt] + logger + s[loggerAt..]
    requires sc == sa[..existsAt + 4] + [br] + sa[existsAt + 4 + 1..]
    requires sd == sc[..existsAt + 4 + 1] + code + sc[existsAt + 4 + 1..]
    ensures sd == (s[..loggerAt] + logger + s[loggerAt..existsAt + 1] + [br] + code) + s[existsAt + 2..]
  {
    assert sa[..existsAt + 4] == s[..loggerAt] + logger + s[loggerAt..existsAt + 1];
    assert sa[existsAt + 5..] == s[existsAt + 2..];
    assert sc[..existsAt + 5] == s[..loggerAt] + logger + s[loggerAt..existsAt + 1] + [br];
    assert sc[existsAt + 5..] == s[existsAt + 2..];
  }

  /** The instructions once the nine have been replaced. */
  lemma {:induction false} FinalInstrs(s: seq<Instr>, existsAt: nat, bytesAt: nat, prefix: seq<Instr>,
                                        code: seq<Instr>, sd: seq<Instr>, se: seq<Instr>, sf: seq<Instr>)
    requires existsAt + 2 <= bytesAt && bytesAt + 9 <= |s| && |prefix| == existsAt + 20
    requires sd == prefix + s[existsAt + 2..]
    requires se == sd[..bytesAt + 18] + sd[bytesAt + 27..]
    requires sf == se[..bytesAt + 18] + code + se[bytesAt + 18..]
    ensures sf == prefix + s[existsAt + 2..bytesAt] + code + s[bytesAt + 9..]
  {
    assert sd[..bytesAt + 18] == prefix + s[existsAt + 2..bytesAt];
    assert sd[bytesAt + 27..] == s[bytesAt + 9..];
    assert se[..bytesAt + 18] == prefix + s[existsAt + 2..bytesAt];
    assert se[bytesAt + 18..] == s[bytesAt + 9..];
  }

  /** The replacement of the branch after File.Exists, seen on the whole instruction stream. */
  lemma {:induction false} GuardStage(b: MethodBody, loggerAt: nat, existsAt: nat, getLogger: MethodDef,
                                      properties: FieldDef, eacPath: FieldDef, debug: MethodDef,
                                      sa: seq<Instr>, sc: seq<Instr>, sd: seq<Instr>)
    requires loggerAt <= existsAt && existsAt + 1 < |b.instrs|
    requires sa == b.instrs[..loggerAt] + LoggerInit(getLogger, |b.variables|) + b.instrs[loggerAt..]
    requires sc == sa[..existsAt + 4] + [Branch(IfTrue, |b.labels|)] + sa[existsAt + 4 + 1..]
    requires sd == sc[..existsAt + 4 + 1] + DebugGuard(|b.labels| + 1, |b.variables|, properties, eacPath, debug)
                   + sc[existsAt + 4 + 1..]
    ensures |sa| == |b.instrs| + 3 && |sd| == |b.instrs| + 18
    ensures sd == GuardedPrefix(b, loggerAt, existsAt, getLogger, properties, eacPath, debug) + b.instrs[existsAt + 2..]
  {
    GuardInstrs(b.instrs, loggerAt, existsAt, LoggerInit(getLogger, |b.variables|), Branch(IfTrue, |b.labels|),
                DebugGuard(|b.labels| + 1, |b.variables|, properties, eacPath, debug), sa, sc, sd);
  }

  /** Lines 106-110: foundPdb is defined and the instruction under the
      cursor (the branch after `call File.Exists`) is replaced by
      `brtrue.s foundPdb`. */
  method RetargetExistsBranch(c: ILCursor) returns (r: Outcome<PatchError>, foundPdb: LabelId)
    requires c.Valid()
    modifies c
    ensures c.Valid() && foundPdb == |old(c.labels)|
    ensures r.Pass? <==> old(c.index) < |old(c.instrs)|
    ensures r.Fail? ==> r.error == RemovePastEnd
    ensures r.Pass? ==>
              && c.instrs == old(c.instrs)[..old(c.index)] + [Branch(IfTrue, foundPdb)] + old(c.instrs)[old(c.index) + 1..]
              && c.labels == old(c.labels) + [None]
              && c.index == old(c.index) + 1 && c.afterLabels == {} && c.variables == old(c.variables)
  {
    foundPdb := c.DefineLabel();
    var replaced := Replace(c, 1, [Branch(IfTrue, foundPdb)]);
    if replaced.Fail? {
      return Fail(RemovePastEnd), foundPdb;
    }
    ReplaceOneKeepsLabels(old(c.labels) + [None], old(c.index), |old(c.instrs)|);
    r := Pass;
  }

  /** Lines 112-136: skipDebug is defined, the debugger guard jumping to it
      and the "file was not found" message are emitted, and skipDebug is
      marked after them. ILog.Debug is looked up before the run of emits
      rather than just before its last one; a failure discards the body
      either way. */
  method EmitDebugGuard(c: ILCursor, log4net: ModuleDef, properties: FieldDef, eacPath: FieldDef, tmlLogger: nat)
    returns (r: Result<MethodDef, PatchError>, skipDebug: LabelId)
    requires c.Valid() && c.afterLabels == {}
    modifies c
    ensures c.Valid() && r == Debug(log4net) && skipDebug == |old(c.labels)|
    ensures r.Success? ==>
              && c.instrs == old(c.instrs)[..old(c.index)] + DebugGuard(skipDebug, tmlLogger, properties, eacPath, r.value)
                             + old(c.instrs)[old(c.index)..]
              && c.labels == ShiftFrom(old(c.labels) + [None], old(c.index), 15)[skipDebug := At(c.index, |c.instrs|)]
              && c.index == old(c.index) + 15 && c.afterLabels == {skipDebug} && c.variables == old(c.variables)
  {
    skipDebug := c.DefineLabel();
    r := Debug(log4net);
    if r.Failure? {
      return;
    }
    EmitAndMark(c, DebugGuard(skipDebug, tmlLogger, properties, eacPath, r.value), skipDebug);
    EmittedRunQuiet(old(c.labels) + [None], old(c.index), 15);
  }

  /** Lines 87-101: the cursor moves past the `blt` anchor, the logger local
      is added and `tml = LogManager.GetLogger("tML")` is emitted there. */
  method EmitLoggerInit(c: ILCursor, ghost b: MethodBody, ghost md: ModuleDef, log4net: ModuleDef,
                        ghost properties: FieldDef, ghost eacPath: FieldDef)
    returns (r: Result<MethodDef, PatchError>, tmlLogger: nat, ghost loggerAt: nat)
    requires c.Valid() && c.instrs == b.instrs && c.labels == b.labels && c.variables == b.variables
    requires c.index == 0 && c.afterLabels == {}
    modifies c
    ensures c.Valid()
    ensures r.Failure? ==> LoggerPlan(b, md, log4net, properties, eacPath) == Failure(r.error)
    ensures r.Success? ==>
              && LoggerPlan(b, md, log4net, properties, eacPath)
                   == ExistsPlan(b, md, log4net, properties, eacPath, loggerAt, r.value)
              && loggerAt <= |b.instrs| && tmlLogger == |b.variables|
              && c.instrs == b.instrs[..loggerAt] + LoggerInit(r.value, tmlLogger) + b.instrs[loggerAt..]
              && c.labels == ShiftFrom(b.labels, loggerAt, 3)
              && c.index == loggerAt + 3 && c.afterLabels == {} && c.variables == b.variables + [ObjectType]
  {
    var seek := c.GotoNext(After, BltAnchor());
    if seek.Fail? {
      return Failure(AnchorNotFound), 0, 0;
    }
    loggerAt := c.index;
    tmlLogger := c.AddVariable(ObjectType);
    r := GetLogger(log4net);
    if r.Failure? {
      return;
    }
    EmitAll(c, LoggerInit(r.value, tmlLogger));
    EmittedRunQuiet(b.labels, loggerAt, 3);
  }

  /** Lines 106-136 with the cursor just past `call File.Exists`: the
      branch after it is replaced by `brtrue.s foundPdb`, followed by the
      debugger guard, the "file was not found" message and the mark of
      skipDebug. */
  method GuardExistsBranch(c: ILCursor, ghost b: MethodBody, ghost loggerAt: nat, ghost existsAt: nat,
                           ghost getLogger: MethodDef, log4net: ModuleDef, properties: FieldDef, eacPath: FieldDef,
                           tmlLogger: nat)
    returns (r: Result<MethodDef, PatchError>, foundPdb: LabelId)
    requires c.Valid() && c.afterLabels == {}
    requires WellFormedBody(b) && loggerAt <= existsAt && existsAt < |b.instrs| && tmlLogger == |b.variables|
    requires c.instrs == b.instrs[..loggerAt] + LoggerInit(getLogger, tmlLogger) + b.instrs[loggerAt..]
    requires c.labels == ShiftFrom(b.labels, loggerAt, 3)
    requires c.index == existsAt + 4
    modifies c
    ensures c.Valid()
    ensures r == if |b.instrs| <= existsAt + 1 then Failure(RemovePastEnd) else Debug(log4net)
    ensures r.Success? ==>
              && foundPdb == |b.labels|
              && c.instrs == GuardedPrefix(b, loggerAt, existsAt, getLogger, properties, eacPath, r.value)
                             + b.instrs[existsAt + 2..]
              && c.labels == GuardedLabels(b.labels, loggerAt, existsAt, |b.instrs|)
              && c.index == existsAt + 20 && c.variables == old(c.variables)
  {
    ghost var sa, la := c.instrs, c.labels;
    var retargeted;
    retargeted, foundPdb := RetargetExistsBranch(c);
    if retargeted.Fail? {
      return Failure(RemovePastEnd), foundPdb;
    }
    ghost var sc, lc, k2 := c.instrs, c.labels, c.index;
    var skipDebug;
    r, skipDebug := EmitDebugGuard(c, log4net, properties, eacPath, tmlLogger);
    if r.Failure? {
      return;
    }
    GuardStage(b, loggerAt, existsAt, getLogger, properties, eacPath, r.value, sa, sc, c.instrs);
    GuardLabels(b.labels, loggerAt, existsAt, |b.instrs|, la, lc, k2, c.index, |c.instrs|, c.labels);
  }

  /** Lines 103-136: the cursor moves past `call File.Exists`, looked for
      after the logger code, and the branch after it is guarded. */
  method ReplaceExistsBranch(c: ILCursor, ghost b: MethodBody, ghost md: ModuleDef, ghost loggerAt: nat,
                             ghost getLogger: MethodDef, log4net: ModuleDef, properties: FieldDef, eacPath: FieldDef,
                             tmlLogger: nat)
    returns (r: Result<MethodDef, PatchError>, foundPdb: LabelId, ghost existsAt: nat)
    requires c.Valid() && c.afterLabels == {}
    requires WellFormedBody(b) && loggerAt <= |b.instrs| && tmlLogger == |b.variables|
    requires c.instrs == b.instrs[..loggerAt] + LoggerInit(getLogger, tmlLogger) + b.instrs[loggerAt..]
    requires c.labels == ShiftFrom(b.labels, loggerAt, 3)
    requires c.index == loggerAt + 3
    modifies c
    ensures c.Valid()
    ensures r.Failure? ==> ExistsPlan(b, md, log4net, properties, eacPath, loggerAt, getLogger) == Failure(r.error)
    ensures r.Success? ==>
              && ExistsPlan(b, md, log4net, properties, eacPath, loggerAt, getLogger)
                   == BytesPlan(b, md, properties, eacPath, loggerAt, existsAt, getLogger, r.value)
              && loggerAt <= existsAt && existsAt + 1 < |b.instrs| && foundPdb == |b.labels|
              && c.instrs == GuardedPrefix(b, loggerAt, existsAt, getLogger, properties, eacPath, r.value)
                             + b.instrs[existsAt + 2..]
              && c.labels == GuardedLabels(b.labels, loggerAt, existsAt, |b.instrs|)
              && c.index == existsAt + 20 && c.variables == old(c.variables)
  {
    ghost var m := FirstMatch(b.instrs, ExistsAnchor(), loggerAt);
    var seek := SeekInSuffix(c, After, ExistsAnchor(), b.instrs, loggerAt,
                             b.instrs[..loggerAt] + LoggerInit(getLogger, tmlLogger));
    if seek.Fail? {
      return Failure(AnchorNotFound), 0, 0;
    }
    existsAt := m.value;
    r, foundPdb := GuardExistsBranch(c, b, loggerAt, existsAt, getLogger, log4net, properties, eacPath, tmlLogger);
  }

  /** The nine-instruction replacement, seen on the whole instruction stream. */
  lemma {:induction false} ReplacedBytesLoad(b: MethodBody, p: Plan, sd: seq<Instr>, k: nat, code: seq<Instr>, sf: seq<Instr>)
    requires PlanFits(b, p) && k == p.bytesAt + 18
    requires code == PdbLoad(|b.variables|, p.properties, p.eacPath, p.debug)
    requires sd == GuardedPrefix(b, p.loggerAt, p.existsAt, p.getLogger, p.properties, p.eacPath, p.debug)
                   + b.instrs[p.existsAt + 2..]
    requires sf == sd[..k] + code + sd[k + 9..]
    ensures sf == ManipulatedInstrs(b, p)
  {
    var prefix := GuardedPrefix(b, p.loggerAt, p.existsAt, p.getLogger, p.properties, p.eacPath, p.debug);
    FinalInstrs(b.instrs, p.existsAt, p.bytesAt, prefix, code, sd, sd[..k] + sd[k + 9..], sf);
  }

  /** Lines 138-147: the cursor moves before the eight-instruction anchor,
      looked for after the replaced branch. */
  method SeekBytesLoad(c: ILCursor, ghost b: MethodBody, md: ModuleDef, ghost loggerAt: nat, ghost existsAt: nat,
                       ghost getLogger: MethodDef, properties: FieldDef, eacPath: FieldDef, ghost debug: MethodDef)
    returns (r: Outcome<PatchError>, ghost bytesAt: nat)
    requires c.Valid() && loggerAt <= existsAt && existsAt + 1 < |b.instrs|
    requires c.instrs == GuardedPrefix(b, loggerAt, existsAt, getLogger, properties, eacPath, debug)
                         + b.instrs[existsAt + 2..]
    requires c.index == existsAt + 20
    modifies c
    ensures c.Valid() && c.Body() == old(c.Body())
    ensures r.Fail? ==> BytesPlan(b, md, properties, eacPath, loggerAt, existsAt, getLogger, debug) == Failure(r.error)
    ensures r.Pass? ==> c.index == bytesAt + 18 && existsAt + 2 <= bytesAt
    ensures r.Pass? ==> BytesPlan(b, md, properties, eacPath, loggerAt, existsAt, getLogger, debug)
                          == if |b.instrs| < bytesAt + 9 then Failure(RemovePastEnd)
                             else Success(Plan(loggerAt, existsAt, bytesAt, properties, eacPath, getLogger, debug))
  {
    var modFile := ModFile(md);
    if modFile.Failure? {
      return Fail(modFile.error), 0;
    }
    var getModAssembly := GetModAssembly(md);
    if getModAssembly.Failure? {
      return Fail(getModAssembly.error), 0;
    }
    var anchor := BytesAnchor(modFile.value, getModAssembly.value, properties, eacPath);
    ghost var m := FirstMatch(b.instrs, anchor, existsAt + 2);
    var seek := SeekInSuffix(c, Before, anchor, b.instrs, existsAt + 2,
                             GuardedPrefix(b, loggerAt, existsAt, getLogger, properties, eacPath, debug));
    if seek.Fail? {
      return Fail(AnchorNotFound), 0;
    }
    bytesAt := m.value;
    r := Pass;
  }

  /** The removal of the nine instructions and the emitted pdb load, seen on
      the whole body. */
  lemma {:induction false} BytesLoadStage(b: MethodBody, p: Plan, sd: seq<Instr>, la: seq<Option<nat>>, k: nat,
                                          code: seq<Instr>, mark: LabelId, sf: seq<Instr>, lf: seq<Option<nat>>)
    requires LabelsBound(b.labels, |b.instrs|) && PlanFits(b, p)
    requires k == p.bytesAt + 18 && mark == |b.labels| && code == PdbLoad(|b.variables|, p.properties, p.eacPath, p.debug)
    requires sd == GuardedPrefix(b, p.loggerAt, p.existsAt, p.getLogger, p.properties, p.eacPath, p.debug)
                   + b.instrs[p.existsAt + 2..]
    requires la == GuardedLabels(b.labels, p.loggerAt, p.existsAt, |b.instrs|)
    requires sf == sd[..k] + code + sd[k + 9..]
    requires 9 <= |sd| && mark < |la| && lf == RangeReplaced(la, k, 9, |sd|, mark, |code|)
    ensures MethodBody(sf, b.variables + [ObjectType], lf) == ManipulatedBody(b, p)
  {
    ReplacedBytesLoad(b, p, sd, k, code, sf);
    FinalLabels(b.labels, p, |b.instrs|, la, k, |sd|, |code|, mark, lf);
  }

  /** What ReplaceRange leaves behind at the anchor: it fails exactly when
      fewer than nine instructions follow it, and otherwise the body is the
      manipulated body. */
  lemma BytesLoadOutcome(b: MethodBody, loggerAt: nat, existsAt: nat, bytesAt: nat, getLogger: MethodDef,
                         properties: FieldDef, eacPath: FieldDef, debug: MethodDef, sd: seq<Instr>,
                         la: seq<Option<nat>>, k: nat, code: seq<Instr>, mark: LabelId, pass: bool,
                         sf: seq<Instr>, lf: seq<Option<nat>>)
    requires LabelsBound(b.labels, |b.instrs|) && loggerAt <= existsAt && existsAt + 2 <= bytesAt
    requires existsAt + 1 < |b.instrs|
    requires k == bytesAt + 18 && mark == |b.labels| && code == PdbLoad(|b.variables|, properties, eacPath, debug)
    requires sd == GuardedPrefix(b, loggerAt, existsAt, getLogger, properties, eacPath, debug) + b.instrs[existsAt + 2..]
    requires la == GuardedLabels(b.labels, loggerAt, existsAt, |b.instrs|)
    requires pass <==> k + 9 <= |sd|
    requires pass ==> sf == sd[..k] + code + sd[k + 9..] && lf == RangeReplaced(la, k, 9, |sd|, mark, |code|)
    ensures pass <==> bytesAt + 9 <= |b.instrs|
    ensures pass ==> MethodBody(sf, b.variables + [ObjectType], lf)
                       == ManipulatedBody(b, Plan(loggerAt, existsAt, bytesAt, properties, eacPath, getLogger, debug))
  {
    assert |sd| == |b.instrs| + 18;
    if pass {
      var p := Plan(loggerAt, existsAt, bytesAt, properties, eacPath, getLogger, debug);
      assert PlanFits(b, p);
      BytesLoadStage(b, p, sd, la, k, code, mark, sf, lf);
    }
  }

  /** Lines 148-171: the anchor and the instruction after it are removed,
      foundPdb is marked there and the "loading assembly from disk" message
      and the LoadFromAssemblyPath call are emitted in their place. */
  method ReplaceBytesLoad(c: ILCursor, ghost b: MethodBody, ghost loggerAt: nat, ghost existsAt: nat,
                          ghost bytesAt: nat, ghost getLogger: MethodDef, properties: FieldDef, eacPath: FieldDef,
                          debug: MethodDef, tmlLogger: nat, foundPdb: LabelId)
    returns (r: Outcome<PatchError>)
    requires c.Valid()
    requires LabelsBound(b.labels, |b.instrs|) && loggerAt <= existsAt && existsAt + 1 < |b.instrs|
    requires c.index == bytesAt + 18 && existsAt + 2 <= bytesAt
    requires c.instrs == GuardedPrefix(b, loggerAt, existsAt, getLogger, properties, eacPath, debug)
                         + b.instrs[existsAt + 2..]
    requires c.labels == GuardedLabels(b.labels, loggerAt, existsAt, |b.instrs|)
    requires c.variables == b.variables + [ObjectType] && tmlLogger == |b.variables| && foundPdb == |b.labels|
    modifies c
    ensures c.Valid()
    ensures r.Pass? <==> bytesAt + 9 <= |b.instrs|
    ensures r.Fail? ==> r.error == RemovePastEnd
    ensures r.Pass? ==>
              c.Body() == ManipulatedBody(b, Plan(loggerAt, existsAt, bytesAt, properties, eacPath, getLogger, debug))
  {
    var load := PdbLoad(tmlLogger, properties, eacPath, debug);
    ghost var sd, la, k := c.instrs, c.labels, c.index;
    var replaced := ReplaceRange(c, 9, foundPdb, load);
    BytesLoadOutcome(b, loggerAt, existsAt, bytesAt, getLogger, properties, eacPath, debug,
                     sd, la, k, load, foundPdb, replaced.Pass?, c.instrs, c.labels);
    if replaced.Fail? {
      return Fail(RemovePastEnd);
    }
    r := Pass;
  }

  /** ManipCtx (lines 82-172) on the body of LoadAssemblies: the probe, then
      the three anchored edits. */
  method ManipCtx(b: MethodBody, md: ModuleDef, log4net: ModuleDef, properties: FieldDef, eacPath: FieldDef)
    returns (r: Result<MethodBody, PatchError>)
    requires WellFormedBody(b)
    ensures r == ManipCtxSpec(b, md, log4net, properties, eacPath)
  {
    var c := new ILCursor(b);
    var patched := c.TryGotoNext(After, LoadProbe());
    if patched {
      return Failure(AlreadyPatched);
    }
    var getLogger, tmlLogger, loggerAt := EmitLoggerInit(c, b, md, log4net, properties, eacPath);
    if getLogger.Failure? {
      return Failure(getLogger.error);
    }
    var debug, foundPdb, existsAt := ReplaceExistsBranch(c, b, md, loggerAt, getLogger.value, log4net,
                                                         properties, eacPath, tmlLogger);
    if debug.Failure? {
      return Failure(debug.error);
    }
    var seek, bytesAt := SeekBytesLoad(c, b, md, loggerAt, existsAt, getLogger.value, properties, eacPath, debug.value);
    if seek.Fail? {
      return Failure(seek.error);
    }
    var replaced := ReplaceBytesLoad(c, b, loggerAt, existsAt, bytesAt, getLogger.value, properties, eacPath,
                                     debug.value, tmlLogger, foundPdb);
    if replaced.Fail? {
      return Failure(replaced.error);
    }
    r := Success(c.Body());
  }

  /** PatchModLoadContext (lines 69-175): the lookups, then ManipCtx on the
      body of LoadAssemblies, whose result replaces that body. */
  method PatchModLoadContext(md: ModuleDef, log4net: ModuleDef) returns (r: Result<ModuleDef, PatchError>)
    requires ValidModule(md)
    ensures r == PatchedModLoadContext(md, log4net)
  {
    var target := LoadTarget(md);
    if target.Failure? {
      return Failure(target.error);
    }
    var t := target.value;
    if t.loadAssemblies !in md.bodies {
      return Failure(MissingBody(t.loadAssemblies));
    }
    var b := ManipCtx(md.bodies[t.loadAssemblies], md, log4net, t.properties, t.eacPath);
    if b.Failure? {
      return Failure(b.error);
    }
    r := Success(md.(bodies := md.bodies[t.loadAssemblies := b.value]));
  }
}
