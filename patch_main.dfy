/** The Terraria.Main patch: a "Patched by ppeb!" line is prepended to the
    version text drawn by Main.DrawVersionNumber, unless it is already there. */
module PatchMainScript {
  import opened Wrappers
  import opened Metadata
  import opened Matching
  import opened Cursor
  import opened PatchSupport

  const MainType := "Terraria.Main"
  const FontAssetsType := "Terraria.GameContent.FontAssets"
  const Marker := "Patched by ppeb!\n"

  /** The probe: the marker string loaded anywhere in the body. */
  function MarkerProbe(): seq<Pattern> {
    [Is(Ldstr(Marker))]
  }

  /** The anchor: `ldsfld MouseText; callvirt _; ldloc.3; callvirt _; stloc 4`. */
  function MainAnchor(mouseText: FieldDef): seq<Pattern> {
    [Is(Ldsfld(mouseText)), AnyCallvirt, Is(Ldloc(3)), AnyCallvirt, Is(Stloc(4))]
  }

  /** `text = "Patched by ppeb!\n" + text`, text being local 3. */
  function MarkerCode(): seq<Instr> {
    [Ldstr(Marker), Ldloc(3), Call(StringConcat2), Stloc(3)]
  }

  /** The field the anchor loads, looked up in Terraria.GameContent.FontAssets. */
  function MouseText(md: ModuleDef): Result<FieldDef, PatchError> {
    FieldOf(GetType(md, FontAssetsType), FontAssetsType, "MouseText")
  }

  /** The patched module, or why the patch fails: the marker code spliced in
      right before the first anchor, every label following its instruction. */
  function PatchedMain(md: ModuleDef): Result<ModuleDef, PatchError> {
    match GetType(md, MainType)
    case None => Failure(NullReference(MainType))
    case Some(main) =>
      match FindMethod(main, "DrawVersionNumber")
      case Failure(e) => Failure(Lookup(e))
      case Success(m) =>
        if m !in md.bodies then Failure(MissingBody(m))
        else
          var b := md.bodies[m];
          if FirstMatch(b.instrs, MarkerProbe(), 0).Some? then Failure(AlreadyPatched)
          else
            match MouseText(md)
            case Failure(e) => Failure(e)
            case Success(mouseText) =>
              match FirstMatch(b.instrs, MainAnchor(mouseText), 0)
              case None => Failure(AnchorNotFound)
              case Some(k) => Success(md.(bodies := md.bodies[m := InsertBefore(b, k, MarkerCode())]))
  }

  /** PatchMain: probe, seek the anchor with the cursor before it, emit the four instructions. */
  method PatchMain(md: ModuleDef) returns (r: Result<ModuleDef, PatchError>)
    requires ValidModule(md)
    ensures r == PatchedMain(md)
  {
    var main := GetType(md, MainType);
    if main.None? {
      return Failure(NullReference(MainType));
    }
    var found := FindMethod(main.value, "DrawVersionNumber");
    if found.Failure? {
      return Failure(Lookup(found.error));
    }
    var m := found.value;
    if m !in md.bodies {
      return Failure(MissingBody(m));
    }
    var b := md.bodies[m];
    var c := new ILCursor(b);
    var patched := c.TryGotoNext(After, MarkerProbe());
    if patched {
      return Failure(AlreadyPatched);
    }
    var mouseText := MouseText(md);
    if mouseText.Failure? {
      return Failure(mouseText.error);
    }
    var seek := c.GotoNext(Before, MainAnchor(mouseText.value));
    if seek.Fail? {
      return Failure(AnchorNotFound);
    }
    ghost var k := c.index;
    assert FirstMatch(b.instrs, MainAnchor(mouseText.value), 0) == Some(k);
    EmitAll(c, MarkerCode());
    EmittedRunQuiet(b.labels, k, |MarkerCode()|);
    assert c.Body() == InsertBefore(b, k, MarkerCode());
    r := Success(md.(bodies := md.bodies[m := c.Body()]));
  }

  /** The body of DrawVersionNumber, when the lookups that lead to it succeed. */
  function MainBody(md: ModuleDef): Option<MethodBody> {
    match GetType(md, MainType)
    case None => None
    case Some(main) =>
      match FindMethod(main, "DrawVersionNumber")
      case Failure(_) => None
      case Success(m) => if m in md.bodies then Some(md.bodies[m]) else None
  }

  /** The probe runs before any edit: a body that loads the marker anywhere is
      refused whatever else it holds, and only then is MouseText looked up. */
  lemma {:induction false} PatchMainProbesFirst(md: ModuleDef, i: nat)
    requires MainBody(md).Some?
    requires i < |MainBody(md).value.instrs| && MainBody(md).value.instrs[i] == Ldstr(Marker)
    ensures PatchedMain(md) == Failure(AlreadyPatched)
  {
    assert MatchesAt(MainBody(md).value.instrs, MarkerProbe(), i);
  }

  /** The edit: DrawVersionNumber gets the marker code inserted right before
      the first anchor (InsertBeforeKeepsTargets says what that keeps);
      nothing else in the module changes. */
  lemma {:induction false} PatchMainEdit(md: ModuleDef, md': ModuleDef)
    requires ValidModule(md)
    requires PatchedMain(md) == Success(md')
    ensures md'.types == md.types && md'.bodies.Keys == md.bodies.Keys
    ensures MainBody(md).Some? && MouseText(md).Success?
    ensures FirstMatch(MainBody(md).value.instrs, MainAnchor(MouseText(md).value), 0).Some?
    ensures MainBody(md') == Some(InsertBefore(MainBody(md).value,
              FirstMatch(MainBody(md).value.instrs, MainAnchor(MouseText(md).value), 0).value, MarkerCode()))
    ensures forall m :: m in md.bodies && md.bodies[m] != md'.bodies[m] ==>
              Some(md.bodies[m]) == MainBody(md)
    ensures ValidModule(md')
  {
    var main := GetType(md, MainType).value;
    var m := FindMethod(main, "DrawVersionNumber").value;
    var b := md.bodies[m];
    var k := FirstMatch(b.instrs, MainAnchor(MouseText(md).value), 0).value;
    assert md' == md.(bodies := md.bodies[m := InsertBefore(b, k, MarkerCode())]);
    assert GetType(md', MainType) == Some(main);
    InsertBeforeKeepsTargets(b, k, MarkerCode());
  }

  /** Idempotence: a module PatchMain has patched is refused by the probe. */
  lemma {:induction false} PatchMainIdempotent(md: ModuleDef, md': ModuleDef)
    requires ValidModule(md)
    requires PatchedMain(md) == Success(md')
    ensures PatchedMain(md') == Failure(AlreadyPatched)
  {
    PatchMainEdit(md, md');
    var b := MainBody(md).value;
    var k := FirstMatch(b.instrs, MainAnchor(MouseText(md).value), 0).value;
    InsertBeforeKeepsTargets(b, k, MarkerCode());
    assert InsertBefore(b, k, MarkerCode()).instrs[k] == Ldstr(Marker);
    PatchMainProbesFirst(md', k);
  }

  /** PatchMain only inserts: every instruction of every body is still in that
      body afterwards, at the same place or four places later. */
  lemma {:induction false} PatchMainKeeps(md: ModuleDef, md': ModuleDef, m: MethodDef, i: nat) returns (j: nat)
    requires PatchedMain(md) == Success(md')
    requires m in md.bodies && i < |md.bodies[m].instrs|
    ensures m in md'.bodies && j < |md'.bodies[m].instrs| && md'.bodies[m].instrs[j] == md.bodies[m].instrs[i]
    ensures j == i || j == i + |MarkerCode()|
  {
    var main := GetType(md, MainType).value;
    var m0 := FindMethod(main, "DrawVersionNumber").value;
    var b := md.bodies[m0];
    var k := FirstMatch(b.instrs, MainAnchor(MouseText(md).value), 0).value;
    assert md' == md.(bodies := md.bodies[m0 := InsertBefore(b, k, MarkerCode())]);
    j := i;
    if m == m0 {
      if k <= i {
        j := i + |MarkerCode()|;
      }
      InsertBeforeAt(b, k, MarkerCode(), j);
    }
  }
}
