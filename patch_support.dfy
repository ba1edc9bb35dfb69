/** What the two patch scripts share: their failures, the library members they
    refer to by reflection, and lookups through a type that may be missing. */
module PatchSupport {
  import opened Wrappers
  import opened Metadata

  /** Why a patch fails. AlreadyPatched is the idempotence probe matching;
      NullReference is a type lookup that returned null and was dereferenced. */
  datatype PatchError =
    | AlreadyPatched
    | AnchorNotFound
    | RemovePastEnd
    | Lookup(error: LookupError)
    | NullReference(typeName: string)
    | MissingBody(target: MethodDef)

  // .NET library members obtained by reflection; opaque symbols here.
  const StringConcat2 := MethodDef("System.String", "Concat", 2)
  const StringConcat3 := MethodDef("System.String", "Concat", 3)
  const StringIsNullOrEmpty := MethodDef("System.String", "IsNullOrEmpty", 1)
  const LoadFromAssemblyPath := MethodDef("System.Runtime.Loader.AssemblyLoadContext", "LoadFromAssemblyPath", 1)
  const FileExists := MethodDef("System.IO.File", "Exists", 1)
  const FileReadAllBytes := MethodDef("System.IO.File", "ReadAllBytes", 1)
  const DebuggerIsAttached := MethodDef("System.Diagnostics.Debugger", "get_IsAttached", 0)
  const PathChangeExtension := MethodDef("System.IO.Path", "ChangeExtension", 2)
  const ObjectType := "System.Object"

  /** FindField on a type that may have been looked up as null. */
  function FieldOf(t: Option<TypeDef>, typeName: string, name: string): (r: Result<FieldDef, PatchError>)
    ensures t.None? ==> r == Failure(NullReference(typeName))
    ensures t.Some? ==> (r.Success? <==> FindField(t.value, name).Success?)
    ensures r.Success? ==> t.Some? && r.value in t.value.fields && r.value.name == name
    ensures t.Some? && r.Success? ==> r.value == FindField(t.value, name).value
    ensures t.Some? && r.Failure? ==> r.error == Lookup(FindField(t.value, name).error)
  {
    match t
    case None => Failure(NullReference(typeName))
    case Some(td) =>
      match FindField(td, name)
      case Failure(e) => Failure(Lookup(e))
      case Success(f) => Success(f)
  }

  /** FindMethod on a type that may have been looked up as null. */
  function MethodOf(t: Option<TypeDef>, typeName: string, name: string): (r: Result<MethodDef, PatchError>)
    ensures t.None? ==> r == Failure(NullReference(typeName))
    ensures t.Some? ==> (r.Success? <==> FindMethod(t.value, name).Success?)
    ensures r.Success? ==> t.Some? && r.value in t.value.methods && r.value.name == name
    ensures t.Some? && r.Success? ==> r.value == FindMethod(t.value, name).value
    ensures t.Some? && r.Failure? ==> r.error == Lookup(FindMethod(t.value, name).error)
  {
    match t
    case None => Failure(NullReference(typeName))
    case Some(td) =>
      match FindMethod(td, name)
      case Failure(e) => Failure(Lookup(e))
      case Success(m) => Success(m)
  }
}
