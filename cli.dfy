/** The command line of the patcher: `-p`/`--path <tModLoader directory>` and
    `-o`/`--output <file>`, each flag consuming the argument after it, and the
    paths the run derives from them. */
module Cli {
  import opened Wrappers

  datatype ArgError =
    | UnknownArgument(arg: string)   // any argument that is not one of the four flags
    | MissingValue(flag: string)     // a flag in last position: reading its value is out of range

  /** The two values the loop collects; "" is what they start as. */
  datatype Options = Options(tmlDirectory: string, outputPath: string)

  predicate IsPathFlag(a: string) {
    a == "-p" || a == "--path"
  }

  predicate IsOutputFlag(a: string) {
    a == "-o" || a == "--output"
  }

  predicate IsFlag(a: string) {
    IsPathFlag(a) || IsOutputFlag(a)
  }

  /** One flag with its value applied to the options collected so far. */
  function Apply(o: Options, flag: string, value: string): (r: Result<Options, ArgError>)
    ensures r.Success? <==> IsFlag(flag)
    ensures r.Failure? ==> r.error == UnknownArgument(flag)
  {
    if IsPathFlag(flag) then Success(o.(tmlDirectory := value))
    else if IsOutputFlag(flag) then Success(o.(outputPath := value))
    else Failure(UnknownArgument(flag))
  }

  /** The argument loop from position i on, with the options collected so far. */
  function ParseFrom(args: seq<string>, i: nat, o: Options): (r: Result<Options, ArgError>)
    requires i <= |args|
    ensures r.Failure? && r.error.UnknownArgument? ==> r.error.arg in args[i..] && !IsFlag(r.error.arg)
    ensures r.Failure? && r.error.MissingValue? ==>
              i < |args| && r.error.flag == args[|args| - 1] && IsFlag(r.error.flag)
    decreases |args| - i
  {
    if i == |args| then Success(o)
    else if !IsFlag(args[i]) then Failure(UnknownArgument(args[i]))
    else if i + 1 == |args| then Failure(MissingValue(args[i]))
    else
      var r := ParseFrom(args, i + 2, Apply(o, args[i], args[i + 1]).value);
      assert args[i + 2..] == args[i..][2..];
      r
  }

  /** Lines 12-32: the options the loop leaves, or the exception it throws. */
  function Parse(args: seq<string>): Result<Options, ArgError> {
    ParseFrom(args, 0, Options("", ""))
  }

  /** Lines 15-32: the `for` loop, walking the arguments and consuming the
      value after each flag. */
  method ParseArgs(args: seq<string>) returns (r: Result<Options, ArgError>)
    ensures r == Parse(args)
  {
    var tmlDirectory := "";
    var outputPath := "";
    var i := 0;
    while i < |args|
      invariant i <= |args|
      invariant ParseFrom(args, i, Options(tmlDirectory, outputPath)) == Parse(args)
      decreases |args| - i
    {
      var arg := args[i];
      if arg == "-p" || arg == "--path" {
        i := i + 1;
        if i == |args| {
          return Failure(MissingValue(arg));
        }
        tmlDirectory := args[i];
      } else if arg == "-o" || arg == "--output" {
        i := i + 1;
        if i == |args| {
          return Failure(MissingValue(arg));
        }
        outputPath := args[i];
      } else {
        return Failure(UnknownArgument(arg));
      }
      i := i + 1;
    }
    r := Success(Options(tmlDirectory, outputPath));
  }

  /** A command line the loop accepts: flag, value, flag, value, ... */
  predicate WellPaired(args: seq<string>)
    decreases |args|
  {
    |args| == 0 || (2 <= |args| && IsFlag(args[0]) && WellPaired(args[2..]))
  }

  /** The value after the last flag of the given kind, read from the end of a
      command line of pairs; "" when the flag does not occur. */
  function LastValue(args: seq<string>, path: bool): string
    requires |args| % 2 == 0
    decreases |args|
  {
    if |args| == 0 then ""
    else if (if path then IsPathFlag(args[|args| - 2]) else IsOutputFlag(args[|args| - 2])) then args[|args| - 1]
    else LastValue(args[..|args| - 2], path)
  }

  lemma {:induction false} WellPairedEven(args: seq<string>)
    requires WellPaired(args)
    ensures |args| % 2 == 0
    decreases |args|
  {
    if |args| > 0 {
      WellPairedEven(args[2..]);
    }
  }

  /** A pair appended to a command line of pairs keeps it one exactly when its first element is a flag. */
  lemma {:induction false} WellPairedSnoc(args: seq<string>, f: string, v: string)
    ensures WellPaired(args + [f, v]) <==> WellPaired(args) && IsFlag(f)
    decreases |args|
  {
    var s := args + [f, v];
    if |args| == 0 {
      assert s[2..] == [];
    } else if |args| == 1 {
      assert !WellPaired(args);
      assert s[2..] == [v];
      assert !WellPaired([v]);
    } else {
      assert s[2..] == args[2..] + [f, v];
      WellPairedSnoc(args[2..], f, v);
    }
  }

  /** The loop succeeds from position i exactly when the rest of the command line is made of pairs. */
  lemma {:induction false} ParseFromAccepts(args: seq<string>, i: nat, o: Options)
    requires i <= |args|
    ensures ParseFrom(args, i, o).Success? <==> WellPaired(args[i..])
    decreases |args| - i
  {
    if i < |args| && IsFlag(args[i]) && i + 1 < |args| {
      ParseFromAccepts(args, i + 2, Apply(o, args[i], args[i + 1]).value);
      assert args[i..][2..] == args[i + 2..];
    } else if i + 1 == |args| {
      assert args[i..] == [args[i]];
      assert !WellPaired(args[i..]);
    }
  }

  /** A pair appended after a command line the loop accepts is applied last. */
  lemma {:induction false} ParseFromSnoc(args: seq<string>, i: nat, o: Options, f: string, v: string)
    requires i <= |args| && ParseFrom(args, i, o).Success?
    ensures ParseFrom(args + [f, v], i, o) == Apply(ParseFrom(args, i, o).value, f, v)
    decreases |args| - i
  {
    var s := args + [f, v];
    if i < |args| {
      assert s[i] == args[i] && s[i + 1] == args[i + 1];
      ParseFromSnoc(args, i + 2, Apply(o, args[i], args[i + 1]).value, f, v);
    } else {
      assert s[i] == f && s[i + 1] == v;
      if IsFlag(f) {
        assert ParseFrom(s, i + 2, Apply(o, f, v).value) == Success(Apply(o, f, v).value);
      }
    }
  }

  /** Argument parsing, both directions: the loop accepts exactly the command
      lines made of flag/value pairs, and then each option holds the value
      after the last flag that sets it ("" if none), whatever that value looks
      like: a value is never read as a flag. */
  lemma {:induction false} ParseMeaning(args: seq<string>)
    ensures Parse(args).Success? <==> WellPaired(args)
    ensures WellPaired(args) ==>
              |args| % 2 == 0 && Parse(args) == Success(Options(LastValue(args, true), LastValue(args, false)))
    decreases |args|
  {
    ParseFromAccepts(args, 0, Options("", ""));
    assert args[0..] == args;
    if WellPaired(args) {
      WellPairedEven(args);
      if |args| > 0 {
        var a, f, v := args[..|args| - 2], args[|args| - 2], args[|args| - 1];
        assert args == a + [f, v];
        WellPairedSnoc(a, f, v);
        ParseMeaning(a);
        ParseFromSnoc(a, 0, Options("", ""), f, v);
      }
    }
  }

  /** A later occurrence of a flag overrides an earlier one; an unknown
      argument after an accepted command line fails naming it. */
  lemma {:induction false} ParseAppend(args: seq<string>, f: string, v: string)
    requires Parse(args).Success?
    ensures IsPathFlag(f) ==> Parse(args + [f, v]) == Success(Parse(args).value.(tmlDirectory := v))
    ensures IsOutputFlag(f) ==> Parse(args + [f, v]) == Success(Parse(args).value.(outputPath := v))
    ensures !IsFlag(f) ==> Parse(args + [f, v]) == Failure(UnknownArgument(f))
  {
    ParseFromSnoc(args, 0, Options("", ""), f, v);
  }

  /** A flag in last position has no value: the loop fails there. */
  lemma {:induction false} ParseFlagLast(args: seq<string>, f: string)
    requires Parse(args).Success? && IsFlag(f)
    ensures Parse(args + [f]) == Failure(MissingValue(f))
  {
    ParseFromLast(args, 0, Options("", ""), f);
  }

  lemma {:induction false} ParseFromLast(args: seq<string>, i: nat, o: Options, f: string)
    requires i <= |args| && ParseFrom(args, i, o).Success? && IsFlag(f)
    ensures ParseFrom(args + [f], i, o) == Failure(MissingValue(f))
    decreases |args| - i
  {
    var s := args + [f];
    if i < |args| {
      assert s[i] == args[i] && s[i + 1] == args[i + 1];
      ParseFromLast(args, i + 2, Apply(o, args[i], args[i + 1]).value, f);
    } else {
      assert s[i] == f;
    }
  }

  /** Path.Combine with the Unix separator, for a second part that is not rooted:
      the directory, then the name, and between them exactly one separator when
      the directory is not empty, added only when the directory lacks one. */
  function Combine(dir: string, name: string): (r: string)
    ensures |dir| + |name| <= |r| <= |dir| + |name| + 1
    ensures dir <= r && r[|r| - |name|..] == name
    ensures 0 < |dir| ==> r[|r| - |name| - 1] == '/'
    ensures |r| == |dir| + |name| + 1 ==> 0 < |dir| && dir[|dir| - 1] != '/' && r[|dir|] == '/'
  {
    if |dir| == 0 then name
    else if dir[|dir| - 1] == '/' then dir + name
    else dir + "/" + name
  }

  /** The paths a run works on. */
  datatype Paths = Paths(tmlDirectory: string, tmlPath: string, backupPath: string, outputPath: string,
                         log4netPath: string)

  /** Lines 34-37, 49, 59 and 63: an empty directory falls back to the default
      one, the module is `<dir>/tModLoader.dll`, the backup is that path with
      ".bak" added, an empty output path means the module path itself, and
      log4net is `<dir>/Libraries/log4net/2.0.8.0/log4net.dll`. */
  function Resolve(o: Options, defaultDir: string): (r: Paths)
    ensures r.tmlDirectory == if o.tmlDirectory == "" then defaultDir else o.tmlDirectory
    ensures r.tmlPath == Combine(r.tmlDirectory, "tModLoader.dll")
    ensures r.backupPath == r.tmlPath + ".bak" && r.backupPath != r.tmlPath
    ensures r.outputPath == if o.outputPath == "" then r.tmlPath else o.outputPath
  {
    var dir := if o.tmlDirectory == "" then defaultDir else o.tmlDirectory;
    var tmlPath := Combine(dir, "tModLoader.dll");
    Paths(dir, tmlPath, tmlPath + ".bak", if o.outputPath == "" then tmlPath else o.outputPath,
          Combine(Combine(Combine(Combine(dir, "Libraries"), "log4net"), "2.0.8.0"), "log4net.dll"))
  }

  /** The module path always names tModLoader.dll inside the chosen directory,
      and the backup sits next to it. */
  lemma ResolveModulePath(o: Options, defaultDir: string)
    ensures var r := Resolve(o, defaultDir);
            |r.tmlPath| >= 14 && r.tmlPath[|r.tmlPath| - 14..] == "tModLoader.dll"
            && r.tmlDirectory <= r.tmlPath
            && |r.tmlPath| - 14 <= |r.tmlDirectory| + 1
  {
    var r := Resolve(o, defaultDir);
    var dir := r.tmlDirectory;
    if |dir| == 0 {
    } else if dir[|dir| - 1] == '/' {
      assert r.tmlPath == dir + "tModLoader.dll";
    } else {
      assert r.tmlPath == dir + "/" + "tModLoader.dll";
    }
  }

  /** The name ends the combined path: its j-th character sits |name| - j from the end. */
  lemma CombineAt(dir: string, name: string, j: nat)
    requires j < |name|
    ensures |Combine(dir, name)| >= |name|
    ensures Combine(dir, name)[|Combine(dir, name)| - |name| + j] == name[j]
  {
    var r := Combine(dir, name);
    var pre := r[..|r| - |name|];
    assert r == pre + name;
  }

  /** `<a>/log4net.dll` has a separator where `<dir>/tModLoader.dll` has its
      'o', and ends in 'l' where the backup name ends in 'k'. */
  lemma DistinctNames(a: string, dir: string)
    requires 0 < |a|
    ensures Combine(a, "log4net.dll") != Combine(dir, "tModLoader.dll")
    ensures Combine(a, "log4net.dll") != Combine(dir, "tModLoader.dll") + ".bak"
  {
    var l := Combine(a, "log4net.dll");
    var t := Combine(dir, "tModLoader.dll");
    CombineAt(a, "log4net.dll", 10);
    CombineAt(dir, "tModLoader.dll", 2);
    assert "tModLoader.dll"[2] == 'o' && "log4net.dll"[10] == 'l';
    assert l[|l| - 12] == '/' && t[|t| - 12] == 'o';
    var bak := t + ".bak";
    assert l[|l| - 1] == 'l' && bak[|bak| - 1] == 'k';
  }

  /** log4net is read from `<dir>/.../2.0.8.0/log4net.dll`, a file other than
      the module and its backup, so the commit never touches it. */
  lemma ResolveDistinct(o: Options, defaultDir: string)
    ensures var r := Resolve(o, defaultDir);
            r.log4netPath != r.tmlPath && r.log4netPath != r.backupPath
  {
    var r := Resolve(o, defaultDir);
    var a := Combine(Combine(Combine(r.tmlDirectory, "Libraries"), "log4net"), "2.0.8.0");
    assert r.log4netPath == Combine(a, "log4net.dll") && 0 < |a|;
    DistinctNames(a, r.tmlDirectory);
  }



}
