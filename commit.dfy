/** The end of a run: the patched module, already serialised to memory, is
    committed with three file operations in a fixed order: drop the old
    backup, move the module to the backup, write the buffer to the output. */
module Files {
  import opened Wrappers

  type Bytes = seq<bv8>

  /** What File.Move throws: the source is missing, or the destination exists. */
  datatype IoError = SourceMissing(path: string) | DestinationExists(path: string)

  /** Final state of a sequence of file operations, and whether it failed. */
  datatype FsResult = FsResult(outcome: Outcome<IoError>, files: map<string, Bytes>)

  /** The backup name of a module path. */
  function BackupOf(path: string): (r: string)
    ensures |r| == |path| + 4 && r[..|path|] == path && r != path
  {
    path + ".bak"
  }

  /** File.Move on the file map. */
  function Moved(files: map<string, Bytes>, src: string, dst: string): (r: FsResult)
    ensures r.outcome.Fail? ==> r.files == files
    ensures r.outcome.Pass? <==> src in files && dst !in files
    ensures r.outcome.Pass? ==> r.files.Keys == files.Keys - {src} + {dst} && r.files[dst] == files[src]
    ensures r.outcome.Pass? ==> forall q :: q in files && q != src && q != dst ==> r.files[q] == files[q]
  {
    if src !in files then FsResult(Fail(SourceMissing(src)), files)
    else if dst in files then FsResult(Fail(DestinationExists(dst)), files)
    else FsResult(Pass, (files - {src})[dst := files[src]])
  }

  /** Lines 59-65 as a function of the files before: the final files and
      whether the move failed (the delete has happened by then). */
  function Committed(files: map<string, Bytes>, tmlPath: string, outputPath: string, buffer: Bytes): FsResult {
    var moved := Moved(files - {BackupOf(tmlPath)}, tmlPath, BackupOf(tmlPath));
    if moved.outcome.Fail? then moved
    else FsResult(Pass, moved.files[outputPath := buffer])
  }

  /** The commit's effect. It fails exactly when the module file is missing,
      and then only the old backup is gone. Otherwise the backup holds the
      module's bytes from before (unless the output is the backup path
      itself), the output holds the buffer, the module path is gone unless it
      is the output, and no other file is touched. */
  lemma CommitEffect(files: map<string, Bytes>, tmlPath: string, outputPath: string, buffer: Bytes)
    ensures var r := Committed(files, tmlPath, outputPath, buffer);
            && (r.outcome.Pass? <==> tmlPath in files)
            && (r.outcome.Fail? ==> r.outcome.error == SourceMissing(tmlPath) && r.files == files - {BackupOf(tmlPath)})
    ensures var r := Committed(files, tmlPath, outputPath, buffer);
            r.outcome.Pass? ==>
              && r.files.Keys == files.Keys - {tmlPath} + {BackupOf(tmlPath), outputPath}
              && r.files[outputPath] == buffer
              && (outputPath != BackupOf(tmlPath) ==> r.files[BackupOf(tmlPath)] == files[tmlPath])
              && (outputPath != tmlPath ==> tmlPath !in r.files)
              && (forall q :: q in files && q != tmlPath && q != BackupOf(tmlPath) && q != outputPath ==>
                    r.files[q] == files[q])
  {
    var bak := BackupOf(tmlPath);
    assert tmlPath in files - {bak} <==> tmlPath in files;
  }

  /** The file system as the run sees it: a map from path to contents. */
  class FileSystem {
    var files: map<string, Bytes>

    constructor (files: map<string, Bytes>)
      ensures this.files == files
    {
      this.files := files;
    }

    /** File.Delete: a missing file is not an error. */
    method Delete(path: string)
      modifies this
      ensures files == old(files) - {path}
    {
      files := files - {path};
    }

    /** File.Move: the source takes the destination's name; it throws when the
        source is missing or the destination exists, changing nothing. */
    method Move(src: string, dst: string) returns (r: Outcome<IoError>)
      modifies this
      ensures r == Moved(old(files), src, dst).outcome && files == Moved(old(files), src, dst).files
    {
      if src !in files {
        return Fail(SourceMissing(src));
      }
      if dst in files {
        return Fail(DestinationExists(dst));
      }
      files := (files - {src})[dst := files[src]];
      r := Pass;
    }

    /** A FileStream opened with FileMode.Create and filled from the buffer:
        the file is created or truncated, then holds exactly the buffer. */
    method Write(path: string, buffer: Bytes)
      modifies this
      ensures files == old(files)[path := buffer]
    {
      files := files[path := buffer];
    }
  }

  /** Lines 59-65: delete the backup, move the module to the backup, write the
      buffer to the output path. */
  method Commit(fs: FileSystem, tmlPath: string, outputPath: string, buffer: Bytes) returns (r: Outcome<IoError>)
    modifies fs
    ensures r == Committed(old(fs.files), tmlPath, outputPath, buffer).outcome
    ensures fs.files == Committed(old(fs.files), tmlPath, outputPath, buffer).files
  {
    var bak := BackupOf(tmlPath);
    fs.Delete(bak);
    r := fs.Move(tmlPath, bak);
    if r.Fail? {
      return;
    }
    fs.Write(outputPath, buffer);
  }
}
