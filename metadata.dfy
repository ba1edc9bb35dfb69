/** The parts of a managed module the patcher reads and writes: types, their
    fields and methods, method bodies as instruction sequences, and the
    by-name member lookups of Program.cs (FindField, FindMethod). */
module Metadata {
  import opened Wrappers

  /** A field, identified by its declaring type and its name. */
  datatype FieldDef = FieldDef(declaringType: string, name: string)

  /** A method, identified by its declaring type, its name and its arity
      (the arity tells overloads such as the two- and three-string Concat apart). */
  datatype MethodDef = MethodDef(declaringType: string, name: string, arity: nat)

  /** A type: its full name (nested types use '/'), its simple name and its members in declaration order. */
  datatype TypeDef = TypeDef(fullName: string, name: string, fields: seq<FieldDef>, methods: seq<MethodDef>)

  /** A label handle. Every branch target of a body is a label. */
  type LabelId = nat

  /** The branch conditions the patcher matches or emits; the others are opaque codes. */
  datatype Cond = Always | IfTrue | IfFalse | IfLess | OtherCond(code: nat)

  /** One instruction. Local and argument accesses are given by index, whatever
      their short or macro encoding; opcodes the patcher never inspects are Other. */
  datatype Instr =
    | Ldarg(arg: nat)
    | Ldloc(local: nat)
    | Stloc(local: nat)
    | Ldstr(str: string)
    | Ldfld(field: FieldDef)
    | Ldsfld(field: FieldDef)
    | Call(callee: MethodDef)
    | Callvirt(callee: MethodDef)
    | Ldlen
    | ConvI4
    | Branch(cond: Cond, target: LabelId)
    | Other(code: nat)

  /** A method body: its instructions, the types of its locals, and for each
      label handle the position it is bound to (None: not bound). */
  datatype MethodBody = MethodBody(instrs: seq<Instr>, variables: seq<string>, labels: seq<Option<nat>>)

  /** A module: its types and the bodies of the methods that have one. */
  datatype ModuleDef = ModuleDef(types: seq<TypeDef>, bodies: map<MethodDef, MethodBody>)

  /** A body as the reader produces it: bound labels point at instructions of
      the body and every branch names an existing label. */
  ghost predicate WellFormedBody(b: MethodBody) {
    && LabelsBound(b.labels, |b.instrs|)
    && (forall i :: 0 <= i < |b.instrs| && b.instrs[i].Branch? ==> b.instrs[i].target < |b.labels|)
  }

  /** Every bound label points at one of the first len positions. */
  ghost predicate LabelsBound(labels: seq<Option<nat>>, len: nat) {
    forall l :: 0 <= l < |labels| && labels[l].Some? ==> labels[l].value < len
  }

  /** Every branch of the body jumps to a label bound to one of its instructions. */
  ghost predicate BranchesResolve(b: MethodBody) {
    forall i :: 0 <= i < |b.instrs| && b.instrs[i].Branch? ==>
      b.instrs[i].target < |b.labels| && b.labels[b.instrs[i].target].Some?
  }

  ghost predicate ValidModule(md: ModuleDef) {
    forall m :: m in md.bodies ==> WellFormedBody(md.bodies[m])
  }

  /** The failure of FindField / FindMethod: the member sought, the type searched
      and every field (method) name of that type, as the exception message lists them. */
  datatype LookupError =
    | FieldNotFound(fieldName: string, inType: string, availableFields: seq<string>)
    | MethodNotFound(methodName: string, inType: string, availableMethods: seq<string>)

  function FieldNames(fs: seq<FieldDef>): (r: seq<string>)
    ensures |r| == |fs| && forall i :: 0 <= i < |fs| ==> r[i] == fs[i].name
  {
    seq(|fs|, i requires 0 <= i < |fs| => fs[i].name)
  }

  function MethodNames(ms: seq<MethodDef>): (r: seq<string>)
    ensures |r| == |ms| && forall i :: 0 <= i < |ms| ==> r[i] == ms[i].name
  {
    seq(|ms|, i requires 0 <= i < |ms| => ms[i].name)
  }

  /** The first index whose name is `name`. */
  function IndexOfName(names: seq<string>, name: string): (r: Option<nat>)
    ensures r.Some? ==> r.value < |names| && names[r.value] == name
    ensures r.Some? ==> forall j :: 0 <= j < r.value ==> names[j] != name
    ensures r.None? <==> forall j :: 0 <= j < |names| ==> names[j] != name
  {
    if names == [] then None
    else if names[0] == name then Some(0)
    else match IndexOfName(names[1..], name)
      case None => None
      case Some(k) => Some(k + 1)
  }

  /** FindField: the first field of `t` named `f`; otherwise a failure listing
      every field name of `t`. Never a null result. */
  function FindField(t: TypeDef, f: string): (r: Result<FieldDef, LookupError>)
    ensures r.Success? ==> r.value in t.fields && r.value.name == f
    ensures r.Failure? ==> r.error == FieldNotFound(f, t.fullName, FieldNames(t.fields))
  {
    match IndexOfName(FieldNames(t.fields), f)
    case Some(i) => Success(t.fields[i])
    case None => Failure(FieldNotFound(f, t.fullName, FieldNames(t.fields)))
  }

  /** FindField fails exactly when no field has the name, and otherwise
      returns the first field that has it. */
  lemma FindFieldFirst(t: TypeDef, f: string)
    ensures FindField(t, f).Success? <==> exists i :: 0 <= i < |t.fields| && t.fields[i].name == f
    ensures FindField(t, f).Success? ==>
              exists i :: 0 <= i < |t.fields| && t.fields[i] == FindField(t, f).value
                          && forall j :: 0 <= j < i ==> t.fields[j].name != f
  {
    var names := FieldNames(t.fields);
    var k := IndexOfName(names, f);
    if k.None? {
      forall i | 0 <= i < |t.fields|
        ensures t.fields[i].name != f
      {
        assert names[i] == t.fields[i].name;
      }
    } else {
      assert t.fields[k.value].name == f;
      forall j | 0 <= j < k.value
        ensures t.fields[j].name != f
      {
        assert names[j] == t.fields[j].name;
      }
    }
  }

  /** FindMethod: the first method of `t` named `f`; otherwise a failure listing
      every method name of `t`. */
  function FindMethod(t: TypeDef, f: string): (r: Result<MethodDef, LookupError>)
    ensures r.Success? ==> r.value in t.methods && r.value.name == f
    ensures r.Failure? ==> r.error == MethodNotFound(f, t.fullName, MethodNames(t.methods))
  {
    match IndexOfName(MethodNames(t.methods), f)
    case Some(i) => Success(t.methods[i])
    case None => Failure(MethodNotFound(f, t.fullName, MethodNames(t.methods)))
  }

  /** FindMethod fails exactly when no method has the name, and otherwise
      returns the first method that has it. */
  lemma FindMethodFirst(t: TypeDef, f: string)
    ensures FindMethod(t, f).Success? <==> exists i :: 0 <= i < |t.methods| && t.methods[i].name == f
    ensures FindMethod(t, f).Success? ==>
              exists i :: 0 <= i < |t.methods| && t.methods[i] == FindMethod(t, f).value
                          && forall j :: 0 <= j < i ==> t.methods[j].name != f
  {
    var names := MethodNames(t.methods);
    var k := IndexOfName(names, f);
    if k.None? {
      forall i | 0 <= i < |t.methods|
        ensures t.methods[i].name != f
      {
        assert names[i] == t.methods[i].name;
      }
    } else {
      assert t.methods[k.value].name == f;
      forall j | 0 <= j < k.value
        ensures t.methods[j].name != f
      {
        assert names[j] == t.methods[j].name;
      }
    }
  }

  /** ModuleDefinition.GetType: the type with this full name, or null. */
  function GetType(md: ModuleDef, fullName: string): (r: Option<TypeDef>)
    ensures r.Some? ==> r.value in md.types && r.value.fullName == fullName
  {
    FullNamed(md.types, fullName)
  }

  function FullNamed(types: seq<TypeDef>, fullName: string): (r: Option<TypeDef>)
    ensures r.Some? ==> r.value in types && r.value.fullName == fullName
  {
    if types == [] then None
    else if types[0].fullName == fullName then Some(types[0])
    else FullNamed(types[1..], fullName)
  }

  /** GetType returns null exactly when no type has the full name. */
  lemma {:induction false} FullNamedAbsent(types: seq<TypeDef>, fullName: string)
    ensures FullNamed(types, fullName).None? <==> forall i :: 0 <= i < |types| ==> types[i].fullName != fullName
  {
    if types != [] && types[0].fullName != fullName {
      FullNamedAbsent(types[1..], fullName);
      assert forall i :: 1 <= i < |types| ==> types[i] == types[1..][i - 1];
    }
  }

  /** A type declared at the top level of its module: its full name has no '/'.
      ModuleDefinition.Types lists only these; nested types hang off their parent. */
  predicate TopLevel(t: TypeDef) {
    '/' !in t.fullName
  }

  /** `Types.FirstOrDefault(t => t.Name == name)`: the first top-level type with
      this simple name, or null. */
  function TypeNamed(types: seq<TypeDef>, name: string): (r: Option<TypeDef>)
    ensures r.Some? ==> r.value in types && r.value.name == name && TopLevel(r.value)
  {
    if types == [] then None
    else if types[0].name == name && TopLevel(types[0]) then Some(types[0])
    else TypeNamed(types[1..], name)
  }

  /** FirstOrDefault returns null exactly when no top-level type has the name. */
  lemma {:induction false} TypeNamedAbsent(types: seq<TypeDef>, name: string)
    ensures TypeNamed(types, name).None? <==>
              forall i :: 0 <= i < |types| ==> types[i].name != name || !TopLevel(types[i])
  {
    if types != [] && !(types[0].name == name && TopLevel(types[0])) {
      TypeNamedAbsent(types[1..], name);
      assert forall i :: 1 <= i < |types| ==> types[i] == types[1..][i - 1];
    }
  }

  /** FirstOrDefault returns the first top-level type with the name: a nested
      type of the same simple name, or a later one, is never chosen. */
  lemma {:induction false} TypeNamedFirst(types: seq<TypeDef>, name: string) returns (i: nat)
    requires TypeNamed(types, name).Some?
    ensures i < |types| && types[i] == TypeNamed(types, name).value
    ensures forall j :: 0 <= j < i ==> types[j].name != name || !TopLevel(types[j])
  {
    if types[0].name == name && TopLevel(types[0]) {
      i := 0;
    } else {
      var k := TypeNamedFirst(types[1..], name);
      i := k + 1;
      assert forall j :: 1 <= j < |types| ==> types[j] == types[1..][j - 1];
    }
  }
}
