/** A whole run of the patcher: parse the command line, locate and read
    tModLoader.dll and log4net, apply the ModLoadContext patch and then the
    Main patch, serialise, and commit. Reading a file as a module and writing a
    module back to bytes are the module library's work; they are parameters,
    and either may fail (None). */
module Patcher {
  import opened Wrappers
  import opened Metadata
  import opened PatchSupport
  import opened ModLoadContextScript
  import opened PatchMainScript
  import opened ModLoadContextFacts
  import opened Cli
  import opened Files

  /** Why a run stops. */
  datatype RunError =
    | Args(argError: ArgError)      // the argument loop threw
    | FileMissing(path: string)     // FileNotFoundException for the module or log4net
    | Unreadable(path: string)      // the file is not a module the reader accepts
    | Patch(patchError: PatchError) // one of the two patch scripts threw
    | Unserialisable                // md.Write threw while filling the memory buffer
    | Io(ioError: IoError)          // File.Move threw during the commit

  /** The outcome of a run and the files it leaves. */
  datatype RunResult = RunResult(outcome: Outcome<RunError>, files: map<string, Bytes>)

  /** A module file read with the module reader. */
  function ReadFile(files: map<string, Bytes>, path: string, read: Bytes -> Option<ModuleDef>): (r: Result<ModuleDef, RunError>)
    ensures r.Success? <==> path in files && read(files[path]).Some?
    ensures r.Success? ==> r.value == read(files[path]).value
    ensures r.Failure? ==> r.error == (if path in files then Unreadable(path) else FileMissing(path))
  {
    if path !in files then Failure(FileMissing(path))
    else match read(files[path])
      case None => Failure(Unreadable(path))
      case Some(md) => Success(md)
  }

  /** Lines 51-53: the ModLoadContext patch, then the Main patch. */
  function Patched(md: ModuleDef, log4net: ModuleDef): Result<ModuleDef, PatchError> {
    match PatchedModLoadContext(md, log4net)
    case Failure(e) => Failure(e)
    case Success(md1) => PatchedMain(md1)
  }

  /** What a run has in hand when it reaches the commit. */
  datatype Staged = Staged(paths: Paths, md: ModuleDef, log4net: ModuleDef, patched: ModuleDef, buffer: Bytes)

  /** Lines 51-57: both patches, then serialisation to memory. */
  function Finish(paths: Paths, md: ModuleDef, log4net: ModuleDef, write: ModuleDef -> Option<Bytes>)
    : (r: Result<Staged, RunError>)
    ensures r.Success? ==> r.value.paths == paths && r.value.md == md && r.value.log4net == log4net
    ensures r.Success? ==> Patched(md, log4net) == Success(r.value.patched) && write(r.value.patched) == Some(r.value.buffer)
    ensures r.Failure? ==> r.error == (if Patched(md, log4net).Failure? then Patch(Patched(md, log4net).error) else Unserialisable)
  {
    match Patched(md, log4net)
    case Failure(e) => Failure(Patch(e))
    case Success(patched) =>
      match write(patched)
      case None => Failure(Unserialisable)
      case Some(buffer) => Success(Staged(paths, md, log4net, patched, buffer))
  }

  /** Lines 41-57 for resolved paths: the existence check and the two reads,
      then Finish. */
  function Stage(paths: Paths, files: map<string, Bytes>, read: Bytes -> Option<ModuleDef>,
                 write: ModuleDef -> Option<Bytes>): (r: Result<Staged, RunError>)
    ensures r.Success? ==> && r.value.paths == paths
                           && ReadFile(files, paths.tmlPath, read) == Success(r.value.md)
                           && ReadFile(files, paths.log4netPath, read) == Success(r.value.log4net)
    ensures r.Failure? ==> !r.error.Io?
  {
    match ReadFile(files, paths.tmlPath, read)
    case Failure(e) => Failure(e)
    case Success(md) =>
      match ReadFile(files, paths.log4netPath, read)
      case Failure(e) => Failure(e)
      case Success(log4net) => Finish(paths, md, log4net, write)
  }

  /** Lines 12-57: everything a run does before its first file operation. It
      parses, resolves, checks and reads both modules, patches, and serialises.
      Success carries what each step produced; a failure here is never a
      failure of the commit. */
  function Prepare(args: seq<string>, defaultDir: string, files: map<string, Bytes>,
                   read: Bytes -> Option<ModuleDef>, write: ModuleDef -> Option<Bytes>): (r: Result<Staged, RunError>)
    ensures r.Success? ==> Parse(args).Success? && r.value.paths == Resolve(Parse(args).value, defaultDir)
    ensures r.Success? ==> && ReadFile(files, r.value.paths.tmlPath, read) == Success(r.value.md)
                           && ReadFile(files, r.value.paths.log4netPath, read) == Success(r.value.log4net)
    ensures r.Success? ==> Patched(r.value.md, r.value.log4net) == Success(r.value.patched)
                           && write(r.value.patched) == Some(r.value.buffer)
    ensures r.Failure? ==> !r.error.Io?
  {
    match Parse(args)
    case Failure(e) => Failure(Args(e))
    case Success(o) => Stage(Resolve(o, defaultDir), files, read, write)
  }

  /** Lines 12-65 as a function of the files before the run: the preparation,
      then the commit of the buffer. */
  function RunSpec(args: seq<string>, defaultDir: string, files: map<string, Bytes>,
                   read: Bytes -> Option<ModuleDef>, write: ModuleDef -> Option<Bytes>): RunResult
  {
    match Prepare(args, defaultDir, files, read, write)
    case Failure(e) => RunResult(Fail(e), files)
    case Success(st) =>
      var c := Committed(files, st.paths.tmlPath, st.paths.outputPath, st.buffer);
      RunResult(if c.outcome.Pass? then Pass else Fail(Io(c.outcome.error)), c.files)
  }

  /** The module reader yields well-formed bodies only. */
  ghost predicate ReadsValid(read: Bytes -> Option<ModuleDef>) {
    forall bytes :: read(bytes).Some? ==> ValidModule(read(bytes).value)
  }

  /** Main (lines 11-66): the argument loop, the existence check, the reads,
      both patches, serialisation to memory, and only then the commit. */
  method Run(args: seq<string>, defaultDir: string, fs: FileSystem,
             read: Bytes -> Option<ModuleDef>, write: ModuleDef -> Option<Bytes>) returns (r: Outcome<RunError>)
    requires ReadsValid(read)
    modifies fs
    ensures r == RunSpec(args, defaultDir, old(fs.files), read, write).outcome
    ensures fs.files == RunSpec(args, defaultDir, old(fs.files), read, write).files
  {
    var parsed := ParseArgs(args);
    if parsed.Failure? {
      return Fail(Args(parsed.error));
    }
    var paths := Resolve(parsed.value, defaultDir);
    if paths.tmlPath !in fs.files {
      return Fail(FileMissing(paths.tmlPath));
    }
    var md := ReadFile(fs.files, paths.tmlPath, read);
    if md.Failure? {
      return Fail(md.error);
    }
    var log4net := ReadFile(fs.files, paths.log4netPath, read);
    if log4net.Failure? {
      return Fail(log4net.error);
    }
    var md1 := PatchModLoadContext(md.value, log4net.value);
    if md1.Failure? {
      return Fail(Patch(md1.error));
    }
    ModLoadContextEdit(md.value, log4net.value, md1.value);
    var md2 := PatchMain(md1.value);
    if md2.Failure? {
      return Fail(Patch(md2.error));
    }
    var buffer := write(md2.value);
    if buffer.None? {
      return Fail(Unserialisable);
    }
    var committed := Commit(fs, paths.tmlPath, paths.outputPath, buffer.value);
    if committed.Fail? {
      return Fail(Io(committed.error));
    }
    r := Pass;
  }

  /** LoadAssemblies, properties and eacPath are found through the types alone. */
  lemma SameTypesSameTarget(md: ModuleDef, md': ModuleDef)
    requires md'.types == md.types
    ensures LoadTarget(md') == LoadTarget(md)
  {
    assert GetType(md', ModLoadContextType) == GetType(md, ModLoadContextType);
    assert GetType(md', BuildPropertiesType) == GetType(md, BuildPropertiesType);
  }

  /** After both patches, LoadAssemblies is still found the same way and
      still calls LoadFromAssemblyPath, and the module is still well formed. */
  lemma {:induction false} PatchedLoads(md: ModuleDef, log4net: ModuleDef, md2: ModuleDef) returns (j: nat)
    requires ValidModule(md)
    requires Patched(md, log4net) == Success(md2)
    ensures ValidModule(md2)
    ensures LoadAssembliesBody(md2).Some? && j < |LoadAssembliesBody(md2).value.instrs|
    ensures LoadAssembliesBody(md2).value.instrs[j] == Call(LoadFromAssemblyPath)
  {
    var md1 := PatchedModLoadContext(md, log4net).value;
    assert PatchedMain(md1) == Success(md2);
    var i := ModLoadContextLoads(md, log4net, md1);
    ModLoadContextEdit(md, log4net, md1);
    var la := LoadTarget(md).value.loadAssemblies;
    j := PatchMainKeeps(md1, md2, la, i);
    PatchMainEdit(md1, md2);
    SameTypesSameTarget(md1, md2);
    assert LoadTarget(md2) == LoadTarget(md);
    assert LoadAssembliesBody(md2) == Some(md2.bodies[la]);
  }

  /** Both patches applied to a module they have already patched are refused
      by the first probe, and the patched module is still well formed. */
  lemma {:induction false} PatchedTwice(md: ModuleDef, log4net: ModuleDef, log4net': ModuleDef, md2: ModuleDef)
    requires ValidModule(md)
    requires Patched(md, log4net) == Success(md2)
    ensures ValidModule(md2)
    ensures Patched(md2, log4net') == Failure(AlreadyPatched)
  {
    var j := PatchedLoads(md, log4net, md2);
    ModLoadContextProbesFirst(md2, log4net', j);
  }

  /** Patching and serialising finish before the first file operation, and the
      commit cannot fail once the module file has been read: a run that fails
      leaves every file as it was. */
  lemma RunFailureLeavesFiles(args: seq<string>, defaultDir: string, files: map<string, Bytes>,
                              read: Bytes -> Option<ModuleDef>, write: ModuleDef -> Option<Bytes>)
    ensures var r := RunSpec(args, defaultDir, files, read, write);
            r.outcome.Fail? ==> !r.outcome.error.Io? && r.files == files
  {
    var p := Prepare(args, defaultDir, files, read, write);
    if p.Success? {
      CommitEffect(files, p.value.paths.tmlPath, p.value.paths.outputPath, p.value.buffer);
    }
  }

  /** A run succeeds exactly when it gets as far as a serialised patched
      module. Then the output holds that buffer, the backup holds the module's
      bytes from before the run (unless the output is the backup), the module
      path is gone unless it is the output, and no other file changes. */
  lemma RunEffect(args: seq<string>, defaultDir: string, files: map<string, Bytes>,
                  read: Bytes -> Option<ModuleDef>, write: ModuleDef -> Option<Bytes>)
    ensures RunSpec(args, defaultDir, files, read, write).outcome.Pass? <==>
              Prepare(args, defaultDir, files, read, write).Success?
    ensures Prepare(args, defaultDir, files, read, write).Success? ==>
              var st := Prepare(args, defaultDir, files, read, write).value;
              var files' := RunSpec(args, defaultDir, files, read, write).files;
              && st.paths.tmlPath in files
              && st.paths.outputPath in files' && files'[st.paths.outputPath] == st.buffer
              && (st.paths.outputPath != st.paths.backupPath ==>
                    st.paths.backupPath in files' && files'[st.paths.backupPath] == files[st.paths.tmlPath])
              && (st.paths.outputPath != st.paths.tmlPath ==> st.paths.tmlPath !in files')
              && (forall q :: q in files && q != st.paths.tmlPath && q != st.paths.backupPath && q != st.paths.outputPath ==>
                    q in files' && files'[q] == files[q])
  {
    var p := Prepare(args, defaultDir, files, read, write);
    if p.Success? {
      CommitEffect(files, p.value.paths.tmlPath, p.value.paths.outputPath, p.value.buffer);
    }
  }

  /** A run whose patches fail stops there, with every file as it was. */
  lemma RunStopsAtPatch(args: seq<string>, defaultDir: string, files: map<string, Bytes>,
                        read: Bytes -> Option<ModuleDef>, write: ModuleDef -> Option<Bytes>,
                        md: ModuleDef, log4net: ModuleDef, e: PatchError)
    requires Parse(args).Success?
    requires ReadFile(files, Resolve(Parse(args).value, defaultDir).tmlPath, read) == Success(md)
    requires ReadFile(files, Resolve(Parse(args).value, defaultDir).log4netPath, read) == Success(log4net)
    requires Patched(md, log4net) == Failure(e)
    ensures RunSpec(args, defaultDir, files, read, write) == RunResult(Fail(Patch(e)), files)
  {
  }

  /** Running again on a module the run patched in place: when the reader reads
      back what the writer wrote, the second run is refused by the probe and
      changes nothing. */
  lemma {:induction false} RunAgainInPlace(args: seq<string>, defaultDir: string, files: map<string, Bytes>,
                                           read: Bytes -> Option<ModuleDef>, write: ModuleDef -> Option<Bytes>)
    requires ReadsValid(read)
    requires Prepare(args, defaultDir, files, read, write).Success?
    requires Parse(args).value.outputPath == ""
    requires read(Prepare(args, defaultDir, files, read, write).value.buffer)
             == Some(Prepare(args, defaultDir, files, read, write).value.patched)
    ensures var files' := RunSpec(args, defaultDir, files, read, write).files;
            RunSpec(args, defaultDir, files', read, write) == RunResult(Fail(Patch(AlreadyPatched)), files')
  {
    var st := Prepare(args, defaultDir, files, read, write).value;
    var paths := st.paths;
    var files' := Committed(files, paths.tmlPath, paths.outputPath, st.buffer).files;
    CommitEffect(files, paths.tmlPath, paths.outputPath, st.buffer);
    ResolveDistinct(Parse(args).value, defaultDir);
    assert paths.outputPath == paths.tmlPath && paths.tmlPath in files;
    assert files'[paths.tmlPath] == st.buffer;
    assert paths.log4netPath in files && files'[paths.log4netPath] == files[paths.log4netPath];
    assert ReadFile(files', paths.tmlPath, read) == Success(st.patched);
    assert ReadFile(files', paths.log4netPath, read) == Success(st.log4net);
    PatchedTwice(st.md, st.log4net, st.log4net, st.patched);
    RunStopsAtPatch(args, defaultDir, files', read, write, st.patched, st.log4net, AlreadyPatched);
  }

  /** Running again after writing elsewhere: the module was moved to the
      backup, so the second run stops at the existence check and changes nothing. */
  lemma {:induction false} RunAgainElsewhere(args: seq<string>, defaultDir: string, files: map<string, Bytes>,
                                             read: Bytes -> Option<ModuleDef>, write: ModuleDef -> Option<Bytes>)
    requires Prepare(args, defaultDir, files, read, write).Success?
    requires Prepare(args, defaultDir, files, read, write).value.paths.outputPath
             != Prepare(args, defaultDir, files, read, write).value.paths.tmlPath
    ensures var files' := RunSpec(args, defaultDir, files, read, write).files;
            RunSpec(args, defaultDir, files', read, write)
              == RunResult(Fail(FileMissing(Prepare(args, defaultDir, files, read, write).value.paths.tmlPath)), files')
  {
    var st := Prepare(args, defaultDir, files, read, write).value;
    CommitEffect(files, st.paths.tmlPath, st.paths.outputPath, st.buffer);
  }
}
