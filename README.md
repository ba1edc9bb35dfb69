# tModLoader netcoredbg patcher, modelled in Dafny

The patcher is a command-line tool. It rewrites `tModLoader.dll` so that tModLoader's mod loader can be debugged with netcoredbg. A run does the following:

- It parses `-p/--path <dir>` and `-o/--output <file>`.
- It finds `tModLoader.dll` in the given directory, or in the platform's default install directory.
- It reads that module and `Libraries/log4net/2.0.8.0/log4net.dll`.
- It applies two IL patch scripts:
  - `PatchModLoadContext` changes `ModLoadContext.LoadAssemblies` in three places. It makes a `tML` logger, guards the "does the pdb exist" branch with a debug message, and replaces the in-memory load of the mod's bytes with `AssemblyLoadContext.LoadFromAssemblyPath` on the extracted file.
  - `PatchMain` inserts a marker string into the version text that `Main.DrawVersionNumber` draws.
- Each script refuses a module it has already patched.
- Finally the run serialises the module to memory. Only then does it touch the disk: it deletes the old `.bak`, moves the module to `.bak`, and writes the buffer to the output path.

The model has these modules:

- `Metadata`: the module as the scripts see it.
  - Types with fields and methods, and method bodies as instruction sequences.
  - Branches go through label ids, with a label table mapping each id to an instruction index.
  - `FindField` and `FindMethod`.
- `Matching`: the pattern matcher behind `GotoNext`.
- `Cursor`: MonoMod's `ILCursor` as a class over the body's instructions, locals and labels.
  - Operations: `GotoNext`/`TryGotoNext`, `Emit`, `Remove`/`RemoveRange`, `DefineLabel`/`MarkLabel`.
  - Labels that pointed at a removed or displaced instruction move by a stated rule. The rule is this model's reading of MonoMod's behaviour; it is listed under "## Left out".
- `PatchSupport`: the errors the scripts throw, and the reflection-resolved members they emit calls to.
- `ModLoadContextScript` and `ModLoadContextFacts`: `PatchModLoadContext` and its `ManipCtx` script.
  - The methods drive the cursor step by step. They are proved equal to a specification (`PatchedModLoadContext`) whose shape and properties are proved separately.
- `PatchMainScript`: `PatchMain`, done the same way.
- `Cli`: the argument loop and the path choices.
- `Files`: the file system as a map from path to bytes, and the three-step commit.
- `Patcher`: `Main` as one run. Its properties cover the whole pipeline: when files change, the backup, and what a second run does.

## Model

| member | source | states |
|---|---|---|
| Metadata.FindField | Program.cs:203-210 | On success the field belongs to the type and has the requested name; on failure the error names the field, the type, and every field name of the type in order |
| Metadata.FindFieldFirst | Program.cs:203-210 | The lookup succeeds exactly when some field has the name, and it returns the first such field |
| Metadata.FindMethod | Program.cs:212-219 | On success the method belongs to the type and has the requested name; on failure the error lists every method name of the type |
| Metadata.FindMethodFirst | Program.cs:212-219 | The lookup succeeds exactly when some method has the name, and it returns the first such method |
| Metadata.GetType | Program.cs:72-76 | `md.GetType(fullName)` returns a type of the module with that full name, or none |
| Metadata.FullNamedAbsent | Program.cs:72-73 | `GetType` returns none exactly when no type of the module has the full name |
| Metadata.TypeNamed | Program.cs:103-159 | `Types.FirstOrDefault(t => t.Name == ...)` returns a top-level type (no '/' in its full name) of the module with that simple name |
| Metadata.TypeNamedAbsent | Program.cs:103-159 | The lookup returns none exactly when no top-level type has that simple name |
| Metadata.TypeNamedFirst | Program.cs:103-159 | The lookup returns the first top-level type with the name: a nested type of the same name, or a later type, is never chosen |
| Matching.FirstMatch | Program.cs:86-95 | A found index is a position where the whole pattern matches, at or after the start, with no match between the start and it; none means no position from the start matches |
| Matching.Search | Program.cs:89-95 | The nested search loop returns exactly the first match from the start position |
| Matching.FirstMatchAfterPrefix | Program.cs:106-108 | Searching after an inserted prefix finds the match of the original sequence, shifted by the prefix length |
| Matching.FirstMatchInSuffix | Program.cs:138-147 | A search that starts past a point finds the same match as a search in the suffix from that point, shifted back |
| Matching.FirstMatchOne | Program.cs:184-185 | A one-instruction pattern is found exactly when some instruction at or after the start satisfies it |
| Cursor.InsertBeforeAt | Program.cs:195-198 | Inserting code before an index keeps every instruction before it, puts the code there, and shifts the rest by the code's length |
| Cursor.InsertBeforeKeepsTargets | Program.cs:195-198 | After the insertion every label still designates the same instruction it did before |
| Cursor.ILCursor.constructor | Program.cs:83 | The cursor opens on the body at index 0, with no labels pending |
| Cursor.ILCursor.TryGotoNext | Program.cs:86 | Returns true exactly when the pattern occurs at or after the cursor; then the cursor sits before (or after) the first occurrence; the body never changes |
| Cursor.ILCursor.GotoNext | Program.cs:89-95 | Like TryGotoNext, but a missing pattern is the NoMatch error and leaves the cursor where it was |
| Cursor.ILCursor.Emit | Program.cs:102 | The instruction is inserted at the cursor, the cursor moves past it, labels after it shift by one, and labels waiting at the cursor now designate it |
| Cursor.ILCursor.RemoveRange | Program.cs:148 | Fails when fewer than n instructions follow the cursor; otherwise exactly those n are cut out, labels on them move to the cursor, and later labels shift back by n |
| Cursor.ILCursor.Remove | Program.cs:112 | RemoveRange of one instruction |
| Cursor.ILCursor.DefineLabel | Program.cs:111 | A fresh, unbound label id is added and returned |
| Cursor.ILCursor.MarkLabel | Program.cs:136 | The label is bound to the instruction at the cursor, and nothing else changes |
| Cursor.ILCursor.AddVariable | Program.cs:97-99 | A local of the type is appended, and its index is returned |
| Cursor.EmitAll | Program.cs:102-104 | Emitting a code sequence splices it in at the cursor, with the cursor after it and the labels shifted as by one emit per instruction |
| Cursor.Replace | Program.cs:111-113 | Removes one instruction and emits a sequence in its place; labels on the removed instruction designate the first emitted instruction |
| Cursor.ReplaceOneKeepsLabels | Program.cs:111-113 | After such a replacement, every label bound elsewhere still designates the same instruction as before |
| Cursor.SeekInSuffix | Program.cs:106-108 | A GotoNext that starts after edited code finds the first match in the unedited rest |
| Cursor.EmitAndMark | Program.cs:117-136 | Emits the code, then binds the label to the instruction that follows it |
| Cursor.ReplaceRange | Program.cs:148-171 | Fails exactly when the range runs past the end; otherwise the range is replaced by the code, the cursor ends after it, the marked label and the labels on the range designate the code's first instruction |
| PatchSupport.FieldOf | Program.cs:75-76 | A missing declaring type is a null reference; otherwise the lookup succeeds exactly when FindField does, with FindField's (first) field or its error wrapped as a lookup failure |
| PatchSupport.MethodOf | Program.cs:74 | A missing declaring type is a null reference; otherwise the lookup succeeds exactly when FindMethod does, with FindMethod's (first) method or its error wrapped as a lookup failure |
| PatchMainScript.PatchMain | Program.cs:177-201 | The cursor-driven script computes exactly PatchedMain: the marker probe, the anchor search, and the four-instruction insertion |
| PatchMainScript.PatchMainProbesFirst | Program.cs:184-185 | If DrawVersionNumber already loads the marker string anywhere, the patch fails with AlreadyPatched before any edit |
| PatchMainScript.PatchMainEdit | Program.cs:187-198 | On success, only the DrawVersionNumber body changes: the marker code is inserted right before the first anchor, and the types, the other bodies and well-formedness are kept |
| PatchMainScript.PatchMainIdempotent | Program.cs:184-198 | Patching the result a second time fails with AlreadyPatched |
| PatchMainScript.PatchMainKeeps | Program.cs:195-198 | Every instruction of every body survives the patch, at its old index or four places later |
| ModLoadContextScript.PlanFor | Program.cs:86-148 | The probe and the three anchors found before editing; on success the anchors are in order and leave room for the edits |
| ModLoadContextScript.LoggerPlan | Program.cs:86-101 | The `blt` anchor and LogManager.GetLogger; on success the plan fits the body |
| ModLoadContextScript.ExistsPlan | Program.cs:103-134 | The `call File.Exists` anchor after the logger site, and ILog.Debug; on success the plan keeps the logger site and fits |
| ModLoadContextScript.BytesPlan | Program.cs:138-148 | The eight-instruction anchor with its two field lookups; on success the plan is the given plan extended by the anchor's position |
| ModLoadContextScript.RetargetExistsBranch | Program.cs:106-113 | Fails exactly when no instruction follows the cursor; otherwise it removes the branch after `File.Exists` and emits `brtrue.s foundPdb` in its place, with foundPdb a fresh label |
| ModLoadContextScript.EmitDebugGuard | Program.cs:112-136 | Fails exactly when ILog.Debug is missing; otherwise emits the fifteen-instruction debug guard and binds skipDebug to the instruction after it |
| ModLoadContextScript.EmitLoggerInit | Program.cs:86-104 | Fails with the error LoggerPlan gives; otherwise adds the logger local and emits `ldstr "tML"; call GetLogger; stloc` right after the `blt` anchor |
| ModLoadContextScript.GuardExistsBranch | Program.cs:111-136 | Leaves the body equal to the specified guarded prefix, with its labels as GuardedLabels says |
| ModLoadContextScript.ReplaceExistsBranch | Program.cs:103-136 | Fails with the error ExistsPlan gives; otherwise leaves the guarded prefix, with the cursor after skipDebug |
| ModLoadContextScript.SeekBytesLoad | Program.cs:138-147 | Fails with the error BytesPlan gives; otherwise the cursor stands before the anchor, and the body is unchanged |
| ModLoadContextScript.BytesLoadOutcome | Program.cs:148 | Removing the nine instructions at the anchor fails exactly when they run past the end; otherwise the result is the manipulated body |
| ModLoadContextScript.ReplaceBytesLoad | Program.cs:148-171 | The anchor and the instruction after it are replaced by the pdb-aware load, with foundPdb bound to its `ldloc tml` |
| ModLoadContextScript.GuardLabels | Program.cs:111-136 | Label table after the guard: old labels relocated, foundPdb unbound, skipDebug after the guard |
| ModLoadContextScript.FinalLabels | Program.cs:148-151 | Final label table: foundPdb bound to the start of the new load code, and every other label as RangeReplaced moves it |
| ModLoadContextScript.GuardStage | Program.cs:102-134 | The instructions after the guard stage equal the GuardedPrefix layout followed by the untouched rest |
| ModLoadContextScript.ManipCtx | Program.cs:82-172 | The cursor-driven script computes exactly ManipCtxSpec: AlreadyPatched if the body calls LoadFromAssemblyPath, the error of the first anchor or lookup that fails, or else the manipulated body |
| ModLoadContextScript.PatchModLoadContext | Program.cs:70-175 | The method computes exactly PatchedModLoadContext: the type, method and field lookups in source order, then ManipCtx on LoadAssemblies |
| ModLoadContextFacts.ManipulatedLayout | Program.cs:97-171 | The patched body is 24 instructions longer, and every index holds what RewrittenAt says: the original code, the logger init, the guard, the new load, each at its own offset |
| ModLoadContextFacts.GuardedPrefixAt | Program.cs:97-134 | The guarded prefix agrees index by index with that layout |
| ModLoadContextFacts.PlanAnchors | Program.cs:86-148 | A successful plan's anchors are the first matches in order: the `blt` pattern, then `call File.Exists`, then the bytes-load pattern; and the body does not call LoadFromAssemblyPath |
| ModLoadContextFacts.LoggerAnchorFound | Program.cs:86-101 | The logger site follows the first `blt` anchor, and the probe found no LoadFromAssemblyPath call |
| ModLoadContextFacts.ExistsAnchorFound | Program.cs:103-110 | The exists site is the first `call File.Exists` after the logger site |
| ModLoadContextFacts.BytesAnchorFound | Program.cs:138-147 | The bytes-load anchor is the first match after the removed branch, and both lookups inside its pattern succeeded |
| ModLoadContextFacts.ManipulatedKeeps | Program.cs:112-148 | Every original instruction other than the branch and the nine removed ones is still in the patched body |
| ModLoadContextFacts.SurvivorsInOrder | Program.cs:112-148 | The surviving instructions keep their relative order |
| ModLoadContextFacts.LoggerLocal | Program.cs:97-152 | One local is added, the logger is stored in it right after GetLogger, and both the debug guard and the new load read it back later in the body |
| ModLoadContextFacts.BranchAt | Program.cs:113-124 | Every branch in the patched body targets an existing label, and the two new labels are targeted only by the three inserted branches |
| ModLoadContextFacts.NewLabels | Program.cs:111-151 | foundPdb is bound to the new load code and skipDebug to the instruction after the guard, and only the inserted branches jump to them |
| ModLoadContextFacts.OldLabel | Program.cs:112-148 | An old label stays bound or unbound; a label on the removed branch moves to `brtrue.s foundPdb`, a label on the removed nine moves to the new load, and every other label still designates its own instruction |
| ModLoadContextFacts.ManipulatedWellFormed | Program.cs:79-80 | The patched body is well formed, and if every branch of the old body resolved, every branch of the new one does |
| ModLoadContextFacts.ModLoadContextProbesFirst | Program.cs:86-87 | A LoadAssemblies body that already calls LoadFromAssemblyPath is refused with AlreadyPatched, whatever else it holds |
| ModLoadContextFacts.ModLoadContextEdit | Program.cs:70-80 | On success only LoadAssemblies changes, into the manipulated body of its plan; the types and the other bodies are kept, and the module stays valid |
| ModLoadContextFacts.ModLoadContextIdempotent | Program.cs:86-171 | Patching the result a second time fails with AlreadyPatched |
| ModLoadContextFacts.ModLoadContextLoads | Program.cs:171 | The patched LoadAssemblies is found through the same lookups and contains a LoadFromAssemblyPath call |
| Cli.Apply | Program.cs:18-31 | A flag and its value are accepted exactly when the flag is `-p`, `--path`, `-o` or `--output`; anything else is the unknown-argument error naming it |
| Cli.ParseFrom | Program.cs:15-32 | An unknown-argument error names an argument that is present and is not a flag; a missing-value error names a flag that is the last argument |
| Cli.ParseArgs | Program.cs:15-32 | The argument loop returns exactly Parse |
| Cli.ParseMeaning | Program.cs:15-32 | Parsing succeeds exactly when the arguments are flag/value pairs; then each option holds the value of its last flag, or "" if the flag is absent |
| Cli.ParseAppend | Program.cs:18-28 | Appending a pair overrides that option (the last one wins) and keeps the other; appending an unknown argument fails |
| Cli.ParseFlagLast | Program.cs:21-27 | A flag in last position with no value is the missing-value error |
| Cli.Combine | Program.cs:37 | Path.Combine: the result starts with the directory and ends with the name; a non-empty directory is separated from the name by exactly one '/', which is added only when the directory does not already end with one |
| Cli.Resolve | Program.cs:34-63 | The directory is the default when the option is empty; the module path combines it with tModLoader.dll; the backup is the module path plus ".bak", never the module path itself; the output is the module path when the option is empty |
| Cli.ResolveModulePath | Program.cs:37 | The module path starts with the directory and ends with tModLoader.dll |
| Cli.ResolveDistinct | Program.cs:49-60 | The log4net path differs from both the module path and the backup path, so the commit never touches log4net |
| Cli.DistinctNames | Program.cs:49-60 | A name combined onto a non-empty directory as `log4net.dll` is neither `<dir>/tModLoader.dll` nor its `.bak` |
| Files.BackupOf | Program.cs:59-60 | The backup name is the module path extended by four characters, and so is never the module path itself |
| Files.Moved | Program.cs:60 | File.Move: fails without change when the source is missing or the destination exists; otherwise the source's bytes move to the destination name, and every other file keeps its bytes |
| Files.FileSystem.Delete | Program.cs:59 | File.Delete removes the path if present; a missing file is not an error |
| Files.FileSystem.Move | Program.cs:60 | Returns and leaves exactly what Moved says |
| Files.FileSystem.Write | Program.cs:63-65 | FileMode.Create: the output holds exactly the buffer, created or truncated |
| Files.Commit | Program.cs:59-65 | Delete, move, then write, with the outcome and the files Committed gives |
| Files.CommitEffect | Program.cs:59-65 | The commit fails exactly when the module file is missing. Otherwise the backup holds the module's old bytes (unless the output is the backup path), the output holds the buffer, the module path is gone unless it is the output, and no other file changes |
| Patcher.ReadFile | Program.cs:41-49 | Reading succeeds exactly when the file exists and the reader accepts it; otherwise the error is FileMissing or Unreadable for that path |
| Patcher.Finish | Program.cs:51-57 | The two patches and the serialisation: success carries the patched module and its buffer; a failure is the first patch error, or Unserialisable when only the serialisation failed |
| Patcher.Stage | Program.cs:41-57 | The existence check and both reads, then Finish: success carries the two modules exactly as read; a failure is never a commit failure |
| Patcher.Prepare | Program.cs:12-57 | Everything before the first file operation: success carries the resolved paths, the two modules read, the patched module and its serialisation, each the result of its step; a failure here is never a commit failure |
| Patcher.Run | Program.cs:11-66 | Main computes exactly RunSpec's outcome and final files: parse, resolve, the existence check, the two reads, both patches, the serialisation, then the commit |
| Patcher.SameTypesSameTarget | Program.cs:72-76 | LoadAssemblies and the two fields are found through the types alone |
| Patcher.PatchedLoads | Program.cs:51-53 | After both patches the module is still valid, and its LoadAssemblies still calls LoadFromAssemblyPath |
| Patcher.PatchedTwice | Program.cs:51-53 | Both patches applied to their own output fail with AlreadyPatched |
| Patcher.RunFailureLeavesFiles | Program.cs:51-65 | A failed run never fails in the commit and leaves every file byte-identical |
| Patcher.RunEffect | Program.cs:55-65 | A run succeeds exactly when Prepare does; then the output holds the serialised patched module, the backup holds the old module (unless it is the output), the module path is gone unless it is the output, and other files are untouched |
| Patcher.RunAgainInPlace | Program.cs:59-65 | After a run in place, a second run (given a reader that reads back what the writer wrote) fails with AlreadyPatched and changes no file |
| Patcher.RunAgainElsewhere | Program.cs:41-60 | After a run with a separate output, a second run stops at the existence check (the module was moved to the backup) and changes no file |

## Left out

- Reading a module with Mono.Cecil (lines 46-49) and writing it to the memory stream (lines 55-57) are done by the module library. They are the `read` and `write` parameters of `Patcher.Run`. Either may fail (`None`): a failed read is `Unreadable`, and a failed serialisation is `Unserialisable`, which stops the run before any file operation. The reader is required (`ReadsValid`) to return only well-formed bodies: its label tables are bound in range, and every branch has a label.
- Patcher.Run: the assembly resolver and its `Directory.GetFiles` walk (line 47) only let Cecil resolve references, so they are not modelled. `ImportReference` of the emitted members is modelled as using the member directly.
- The reflection lookups (`typeof(...).GetMethod/GetField`, and the `AssemblyLoadContext`, `File.Exists` and `Path.ChangeExtension` members) are fixed symbols in `PatchSupport`. They always resolve.
- `TmlDirectory()` (lines 221-236) picks a per-platform default install directory from the environment. It is the `defaultDir` parameter.
- Console output (lines 39, 44, 61, 67) is not modelled.
- Exceptions are modelled as `Result`/`Outcome` values carrying the cause. Exception messages are not built.
- Cli.Combine: only '/' counts as a separator. A rooted second argument is not handled specially; every constant name the patcher combines is relative.
- Files.FileSystem: files only. Directories, permissions and sharing, a destination directory that does not exist (`FileMode.Create` would throw), and write failures part-way are not modelled. This is why `Files.FileSystem.Write` cannot fail.
- The `.bak` file is not crash-safe between the move and the write. The model has no crashes.
- `ILContext.Invoke`'s conversion of label ids to instruction operands is not modelled, nor is the choice between short and long branch encodings. Labels are an explicit table in the body.
- Instructions keep only the opcode families and operands the anchors and the emitted code use. Every other instruction is `Other(opcode)`.
- Short and macro encodings are merged: `ldloc.3`, `ldloc.s 3` and `ldloc 3` are all `Ldloc(3)`, and likewise for `stloc` and `ldarg`. The match predicates `MatchLdloc3`, `MatchStloc(4)` and `MatchLdarg0` are assumed to accept every encoding of their index, and `Emit(OpCodes.Stloc, idx)` is assumed to be equivalent to the short form.
- Cursor.ILCursor.RemoveRange: which labels move when instructions are removed is an assumed reading of MonoMod, which is not part of this model. The assumption: labels bound to a removed instruction are rebound to the instruction that then sits at the cursor, and the next `Emit` takes them over. `Cursor.ILCursor.Emit` likewise assumes that labels marked at the cursor are taken over by the emitted instruction, while the other labels at or after it move on. `ModLoadContextFacts.NewLabels` and `ModLoadContextFacts.OldLabel` hold under these assumptions.
- ModLoadContextScript.BytesPlan: the `modFile` field and `GetModAssembly` method are looked up in the anchor's match predicates (lines 139-147). The model looks them up once before the search. So when they are missing *and* the anchor's first instructions never occur, the model reports the missing member instead of a missing anchor. Either way the run fails without touching any file.
- PatchMainScript.PatchMain: the same applies to the `FontAssets.MouseText` field in the anchor predicate (lines 187-191).
- ModLoadContextScript.EmitDebugGuard: `ILog.Debug` is looked up before the guard is emitted rather than at line 134. A failed lookup discards the module either way, so the result is the same.
- The commit renames the module path, not the output path. With `-o`, the original file therefore moves to `tModLoader.dll.bak` and the patched module goes to the output. This is what lines 59-63 do, and the model follows it. `Patcher.RunAgainElsewhere` states the consequence.
- When the output path is the backup path itself, the patched bytes overwrite the backup and the old module is gone. `Files.CommitEffect` and `Patcher.RunEffect` state this case as it is, rather than exclude it.
