/**
 * The command line of tmpl.ts: the `run` command, which picks the HTML files
 * among the positional arguments and bundles each of them, and the status
 * logic of `main`.
 *
 * The parsed flags, the positional arguments, the set of paths that exist
 * and the directory of the program (`currentDir`) are inputs; so are the
 * collaborators of the bundler (see the Bundler module).
 */
module Tmpl {
  import opened Wrappers
  import opened JsString
  import opened StatusCodes
  import opened Bundler
  import opened Seqs

  /** A positional argument as `std/flags` gives it: a string, or a number for a numeric-looking one. */
  datatype Arg = Str(s: string) | Num(n: int)

  /** `arg.toString()`. */
  function ArgToString(a: Arg): string
  {
    match a
    case Str(s) => s
    case Num(n) => IntToString(n)
  }

  /** The flags the program reads: `--help`, `-?`, `--version`, `--outF`, `--outDir`, `--outS`. */
  datatype Options = Options(
    help: bool,
    question: bool,
    version: bool,
    outF: Option<string>,
    outDir: Option<string>,
    outS: Option<string>)

  /** `argHelp`. */
  predicate ArgHelp(opts: Options)
  {
    opts.help || opts.question
  }

  // ---------------------------------------------------------------------------
  // command and mapCommand

  /** The predicate `command` hands to `find`: a string equal to `cmd` ignoring case. */
  predicate MatchesCommand(a: Arg, cmd: string)
  {
    a.Str? && ToLower(a.s) == ToLower(cmd)
  }

  /** `positional.find(c => MatchesCommand(c, cmd))`: the first match, if any. */
  function Find(positional: seq<Arg>, cmd: string): (r: Option<Arg>)
    ensures r.Some? ==> r.value in positional && MatchesCommand(r.value, cmd)
    ensures r.None? ==> forall i :: 0 <= i < |positional| ==> !MatchesCommand(positional[i], cmd)
  {
    if positional == [] then None
    else if MatchesCommand(positional[0], cmd) then Some(positional[0])
    else Find(positional[1..], cmd)
  }

  /** `command(cmd)`. */
  predicate Command(positional: seq<Arg>, cmd: string)
  {
    Find(positional, cmd).Some?
  }

  /** `command(cmd)` holds exactly when some string argument equals `cmd` ignoring case; numbers never match. */
  lemma CommandSpec(positional: seq<Arg>, cmd: string)
    ensures Command(positional, cmd) <==>
              exists i :: 0 <= i < |positional| && positional[i].Str? && ToLower(positional[i].s) == ToLower(cmd)
  {
    var r := Find(positional, cmd);
    if r.Some? {
      var i :| 0 <= i < |positional| && positional[i] == r.value;
    }
  }

  /** Whether `mapCommand(cmd, func, status)` calls `func`. */
  predicate Dispatches(cmd: string, status: StatusCode, positional: seq<Arg>)
  {
    status == Pending && Command(positional, cmd)
  }

  /** `mapCommand`: runs the command only while the status is still pending and the command was given. */
  function MapCommand(cmd: string, func: () -> StatusCode, status: StatusCode, positional: seq<Arg>): (r: StatusCode)
    ensures status != Pending ==> r == status
    ensures status == Pending && !Command(positional, cmd) ==> r == Pending
    ensures status == Pending && Command(positional, cmd) ==> r == func()
  {
    if Dispatches(cmd, status, positional) then func() else status
  }

  /** Once a command has produced a final status, a later `mapCommand` leaves it alone. */
  lemma MapCommandFirstWins(c1: string, f: () -> StatusCode, c2: string, g: () -> StatusCode, positional: seq<Arg>)
    requires Command(positional, c1) && f() != Pending
    ensures MapCommand(c2, g, MapCommand(c1, f, Pending, positional), positional) == f()
  {
  }

  // ---------------------------------------------------------------------------
  // argFiles

  /** The test `argFiles(type)` applies to one argument. */
  predicate Keep(a: Arg, fileType: string, existing: set<string>)
  {
    ArgToString(a) in existing && EndsWith(ToLower(ArgToString(a)), ToLower(fileType))
  }

  /** `argFiles(type)`: the existing arguments whose lower-cased text ends with the lower-cased type. */
  function ArgFiles(positional: seq<Arg>, fileType: string, existing: set<string>): (r: seq<Arg>)
    ensures forall k :: 0 <= k < |r| ==> r[k] in positional && Keep(r[k], fileType, existing)
    ensures forall i :: 0 <= i < |positional| && Keep(positional[i], fileType, existing) ==> positional[i] in r
  {
    if positional == [] then []
    else (if Keep(positional[0], fileType, existing) then [positional[0]] else [])
         + ArgFiles(positional[1..], fileType, existing)
  }

  /** Filtering distributes over concatenation, so the kept arguments stay in their order. */
  lemma {:induction false} ArgFilesAppend(a: seq<Arg>, b: seq<Arg>, fileType: string, existing: set<string>)
    ensures ArgFiles(a + b, fileType, existing) == ArgFiles(a, fileType, existing) + ArgFiles(b, fileType, existing)
  {
    if a == [] {
      assert a + b == b;
    } else {
      assert (a + b)[1..] == a[1..] + b;
      ArgFilesAppend(a[1..], b, fileType, existing);
    }
  }

  /** One argument is kept exactly when it passes the test. */
  lemma ArgFilesSingle(a: Arg, fileType: string, existing: set<string>)
    ensures ArgFiles([a], fileType, existing) == if Keep(a, fileType, existing) then [a] else []
  {
  }

  /** A number never passes the `html` test: its text ends with a digit. */
  lemma NumberNotHtml(n: int, existing: set<string>)
    ensures !Keep(Num(n), "html", existing)
  {
    var t := ToLower(IntToString(n));
    assert '0' <= t[|t| - 1] <= '9';
    assert ToLower("html")[3] == 'l';
  }

  /** Every argument `argFiles('html')` keeps is a string. */
  lemma {:induction false} HtmlArgFilesAreStrings(positional: seq<Arg>, existing: set<string>)
    ensures forall k :: 0 <= k < |ArgFiles(positional, "html", existing)| ==> ArgFiles(positional, "html", existing)[k].Str?
  {
    var r := ArgFiles(positional, "html", existing);
    forall k | 0 <= k < |r|
      ensures r[k].Str?
    {
      if r[k].Num? {
        NumberNotHtml(r[k].n, existing);
      }
    }
  }

  /** `filesHTML`, as strings. */
  function HtmlFiles(positional: seq<Arg>, existing: set<string>): (files: seq<string>)
    ensures |files| == |ArgFiles(positional, "html", existing)|
    ensures forall k :: 0 <= k < |files| ==> ArgFiles(positional, "html", existing)[k] == Str(files[k])
  {
    var kept := ArgFiles(positional, "html", existing);
    HtmlArgFilesAreStrings(positional, existing);
    seq(|kept|, k requires 0 <= k < |kept| => kept[k].s)
  }

  // ---------------------------------------------------------------------------
  // Paths derived in `run`

  /** `currentDir + file.slice(0, file.lastIndexOf('/')) + '/'`, as the program computes the source directory. */
  function FileDirectory(currentDir: string, file: string): string
  {
    currentDir + Slice(file, 0, LastIndexOf(file, '/')) + "/"
  }

  /** `file.slice(file.lastIndexOf('/') + 1)`: the file name. */
  function FileName(file: string): string
  {
    SliceFrom(file, LastIndexOf(file, '/') + 1)
  }

  /** The source directory meant by the program: everything up to and including the last `/`. */
  function SourceDirectory(currentDir: string, file: string): string
  {
    currentDir + Slice(file, 0, LastIndexOf(file, '/') + 1)
  }

  /** `fileName.slice(0, fileName.lastIndexOf('.')) + suffix`: the output file name. */
  function OutputName(fileName: string, suffix: string): string
  {
    Slice(fileName, 0, LastIndexOf(fileName, '.')) + suffix
  }

  /**
   * For a file containing `/`, the directory is the current directory, the
   * text before the last `/` and a `/`; the name is the text after it and
   * holds no `/`; the two around a `/` give back the file; and the intended
   * directory agrees with the computed one.
   */
  lemma SplitAtLastSlash(currentDir: string, file: string)
    requires LastIndexOf(file, '/') >= 0
    ensures var k := LastIndexOf(file, '/');
      && FileDirectory(currentDir, file) == currentDir + file[..k] + "/"
      && FileName(file) == file[k + 1..]
      && (forall i :: 0 <= i < |FileName(file)| ==> FileName(file)[i] != '/')
      && file[..k] + "/" + FileName(file) == file
      && SourceDirectory(currentDir, file) == FileDirectory(currentDir, file)
  {
    var k := LastIndexOf(file, '/');
    assert file[k] == '/' by { LastIndexOfSpec(file, '/'); }
    assert FileDirectory(currentDir, file) == currentDir + file[..k] + "/" by { SlicePrefix(file, k); }
    assert FileName(file) == file[k + 1..] by { SliceFromSuffix(file, k + 1); }
    assert SourceDirectory(currentDir, file) == currentDir + file[..k + 1] by { SlicePrefix(file, k + 1); }
    assert file[..k] + "/" == file[..k + 1] by { PrefixSnoc(file, k); }
    assert file[..k + 1] + file[k + 1..] == file;
    assert currentDir + file[..k] + "/" == currentDir + (file[..k] + "/");
    SourceDirectoryReconstructs(currentDir, file);
  }


  /**
   * For a non-empty file name without `/`, the computed directory is the
   * current directory, the name without its last character, and a `/`.
   */
  lemma SplitWithoutSlash(currentDir: string, file: string)
    requires |file| > 0 && LastIndexOf(file, '/') == -1
    ensures FileDirectory(currentDir, file) == currentDir + file[..|file| - 1] + "/"
    ensures FileName(file) == file
  {
    SlicePrefix(file, -1);
    SliceFromSuffix(file, 0);
  }

  /**
   * For a file name without `/`, such as `index.html`, the computed directory
   * and name read the current directory, the name without its last character,
   * a `/` and the name again (`index.htm/index.html`), never the current
   * directory followed by the name.
   */
  lemma BareFileNameMisread(currentDir: string, file: string)
    requires |file| > 0
    requires forall i :: 0 <= i < |file| ==> file[i] != '/'
    ensures FileDirectory(currentDir, file) + FileName(file) == currentDir + file[..|file| - 1] + "/" + file
    ensures FileDirectory(currentDir, file) + FileName(file) != currentDir + file
  {
    LastIndexOfSpec(file, '/');
    SplitWithoutSlash(currentDir, file);
    assert |currentDir + file[..|file| - 1] + "/" + file| == |currentDir| + 2 * |file|;
  }

  /** The intended directory and the name always give back the current directory followed by the file. */
  lemma SourceDirectoryReconstructs(currentDir: string, file: string)
    ensures SourceDirectory(currentDir, file) + FileName(file) == currentDir + file
    ensures forall i :: 0 <= i < |FileName(file)| ==> FileName(file)[i] != '/'
  {
    var k := LastIndexOf(file, '/');
    SlicePrefix(file, k + 1);
    SliceFromSuffix(file, k + 1);
    PrefixSuffix(currentDir, file, k + 1);
    FileNameHasNoSlash(file);
  }

  /** The file name, the text after the last `/`, holds no `/`. */
  lemma FileNameHasNoSlash(file: string)
    ensures forall i :: 0 <= i < |FileName(file)| ==> FileName(file)[i] != '/'
  {
    var k := LastIndexOf(file, '/');
    var name := file[k + 1..];
    assert FileName(file) == name by { SliceFromSuffix(file, k + 1); }
    forall i | 0 <= i < |name|
      ensures name[i] != '/'
    {
      assert name[i] == file[k + 1 + i];
      LastIndexOfSpec(file, '/');
    }
  }

  /**
   * The output name is the file name up to (not including) its last `.`,
   * then the suffix; without a `.`, `slice(0, -1)` drops the last character.
   */
  lemma OutputNameSpec(fileName: string, suffix: string)
    ensures var k := LastIndexOf(fileName, '.');
      && (k >= 0 ==> OutputName(fileName, suffix) == fileName[..k] + suffix
                     && forall i :: k < i < |fileName| ==> fileName[i] != '.')
      && (k == -1 && |fileName| > 0 ==> OutputName(fileName, suffix) == fileName[..|fileName| - 1] + suffix)
      && (fileName == "" ==> OutputName(fileName, suffix) == suffix)
  {
    LastIndexOfSpec(fileName, '.');
    SlicePrefix(fileName, LastIndexOf(fileName, '.'));
  }

  // ---------------------------------------------------------------------------
  // run

  /** The batch settings: `outDir` defaults to the empty string and `outS` to `.tmpl.html`. */
  datatype Settings = Settings(outDir: string, outSuffix: string)

  function SettingsOf(opts: Options): (s: Settings)
    ensures opts.outDir.None? ==> s.outDir == ""
    ensures opts.outDir.Some? ==> s.outDir == opts.outDir.value
    ensures opts.outS.None? ==> s.outSuffix == ".tmpl.html"
    ensures opts.outS.Some? ==> s.outSuffix == opts.outS.value
  {
    Settings(opts.outDir.GetOr(""), opts.outS.GetOr(".tmpl.html"))
  }

  /** The arguments of one `Bundle` call. */
  datatype BundleCall = BundleCall(sourceFile: string, targetFile: string, sourceFileDir: string, targetFileDir: string)

  /**
   * The call for the single file given with `--outF` (the file with separators
   * already normalized). Its source directory is the corrected `SourceDirectory`,
   * not the `FileDirectory` tmpl.ts computes.
   */
  function SingleCall(file: string, outF: string, currentDir: string): BundleCall
  {
    BundleCall(FileName(file), NormalizeSeparators(outF), SourceDirectory(currentDir, file), currentDir)
  }

  /**
   * The call for one file of a batch (the file with separators already
   * normalized). Its source directory is the corrected `SourceDirectory`, not
   * the `FileDirectory` tmpl.ts computes.
   */
  function BatchCall(file: string, settings: Settings, currentDir: string): BundleCall
  {
    BundleCall(FileName(file), OutputName(FileName(file), settings.outSuffix),
               SourceDirectory(currentDir, file), currentDir + settings.outDir)
  }

  predicate CallFails(call: BundleCall, env: Env)
  {
    BundleFails(call.sourceFile, call.sourceFileDir, env)
  }

  function CallTarget(call: BundleCall): string
  {
    CleanupPath(call.targetFileDir + call.targetFile)
  }

  /** The paths written by calls with these targets and failure flags: the targets of the calls that did not fail, in order. */
  function Written(targets: seq<string>, failed: seq<bool>): (r: seq<string>)
    requires |targets| == |failed|
    ensures |r| <= |targets|
  {
    if targets == [] then []
    else
      var n := |targets| - 1;
      Written(targets[..n], failed[..n]) + (if failed[n] then [] else [targets[n]])
  }

  /** A target is written exactly when some call with that target did not fail. */
  lemma {:induction false} WrittenSpec(targets: seq<string>, failed: seq<bool>)
    requires |targets| == |failed|
    ensures forall i :: 0 <= i < |targets| && !failed[i] ==> targets[i] in Written(targets, failed)
    ensures forall p :: p in Written(targets, failed) ==> exists i :: 0 <= i < |targets| && !failed[i] && targets[i] == p
  {
    if targets != [] {
      var n := |targets| - 1;
      var ts, fs := targets[..n], failed[..n];
      WrittenSpec(ts, fs);
      var r := Written(targets, failed);
      var rest := if failed[n] then [] else [targets[n]];
      assert r == Written(ts, fs) + rest;
      forall i | 0 <= i < |targets| && !failed[i]
        ensures targets[i] in r
      {
        if i < n {
          assert targets[i] == ts[i] && failed[i] == fs[i];
        }
      }
      forall p | p in r
        ensures exists i :: 0 <= i < |targets| && !failed[i] && targets[i] == p
      {
        if p in Written(ts, fs) {
          var i :| 0 <= i < |ts| && !fs[i] && ts[i] == p;
          assert targets[i] == ts[i] && failed[i] == fs[i];
        } else {
          assert p in rest;
        }
      }
    }
  }

  /** One more call adds its target at the end, unless it failed. */
  lemma WrittenSnoc(targets: seq<string>, failed: seq<bool>, t: string, f: bool)
    requires |targets| == |failed|
    ensures Written(targets + [t], failed + [f]) == Written(targets, failed) + (if f then [] else [t])
  {
    assert (targets + [t])[..|targets|] == targets;
    assert (failed + [f])[..|failed|] == failed;
  }

  /** The target each call writes to when it succeeds. */
  function Targets(calls: seq<BundleCall>): seq<string>
  {
    seq(|calls|, i requires 0 <= i < |calls| => CallTarget(calls[i]))
  }

  /** Whether each call fails. */
  function Failures(calls: seq<BundleCall>, env: Env): seq<bool>
  {
    seq(|calls|, i requires 0 <= i < |calls| => CallFails(calls[i], env))
  }

  /** The paths written by a sequence of calls. */
  function WrittenTargets(calls: seq<BundleCall>, env: Env): seq<string>
  {
    Written(Targets(calls), Failures(calls, env))
  }

  /** Exactly the targets of the calls that did not fail are written. */
  lemma WrittenTargetsSpec(calls: seq<BundleCall>, env: Env)
    ensures forall i :: 0 <= i < |calls| && !CallFails(calls[i], env) ==> CallTarget(calls[i]) in WrittenTargets(calls, env)
    ensures forall p :: p in WrittenTargets(calls, env) ==>
              exists i :: 0 <= i < |calls| && !CallFails(calls[i], env) && CallTarget(calls[i]) == p
  {
    var targets, failed := Targets(calls), Failures(calls, env);
    WrittenSpec(targets, failed);
    forall i | 0 <= i < |calls| && !CallFails(calls[i], env)
      ensures CallTarget(calls[i]) in WrittenTargets(calls, env)
    {
      assert !failed[i];
      assert targets[i] in Written(targets, failed);
    }
    forall p | p in WrittenTargets(calls, env)
      ensures exists i :: 0 <= i < |calls| && !CallFails(calls[i], env) && CallTarget(calls[i]) == p
    {
      var i :| 0 <= i < |targets| && !failed[i] && targets[i] == p;
      assert !CallFails(calls[i], env) && CallTarget(calls[i]) == p;
    }
  }

  /** A single call writes its target exactly when it does not fail. */
  lemma WrittenTargetsSingle(call: BundleCall, env: Env)
    ensures WrittenTargets([call], env) == if CallFails(call, env) then [] else [CallTarget(call)]
  {
    WrittenSnoc([], [], CallTarget(call), CallFails(call, env));
    assert Targets([call]) == [] + [CallTarget(call)];
    assert Failures([call], env) == [] + [CallFails(call, env)];
  }

  /** Every batch call reads the file it was made for, relative to the current directory. */
  lemma BatchCallReadsFile(file: string, settings: Settings, currentDir: string)
    ensures var c := BatchCall(file, settings, currentDir);
      SourcePath(c.sourceFile, c.sourceFileDir) == CleanupPath(currentDir + file)
  {
    SourceDirectoryReconstructs(currentDir, file);
  }

  /**
   * The status `run` returns: Success for help; Failure for no HTML file or
   * for more than one with `--outF`; otherwise Failure exactly when one of
   * its `Bundle` calls fails.
   */
  function RunStatus(opts: Options, positional: seq<Arg>, existing: set<string>, currentDir: string, env: Env): (r: StatusCode)
    ensures r != Pending
  {
    if ArgHelp(opts) then Success
    else
      var files := HtmlFiles(positional, existing);
      if |files| == 0 then Failure
      else if opts.outF.Some? then
        if |files| > 1 then Failure
        else if CallFails(SingleCall(NormalizeSeparators(files[0]), opts.outF.value, currentDir), env) then Failure
        else Success
      else
        var calls := BatchCalls(files, SettingsOf(opts), currentDir);
        if exists i :: 0 <= i < |calls| && CallFails(calls[i], env) then Failure else Success
  }

  /**
   * `run`: help succeeds at once; no HTML file, or more than one with
   * `--outF`, fails without bundling; a single `--outF` run has the status of
   * its one `Bundle` call; a batch attempts every file and fails exactly when
   * some call failed, while the calls that succeeded still write their targets.
   */
  method Run(opts: Options, positional: seq<Arg>, existing: set<string>, currentDir: string, env: Env)
    returns (status: StatusCode, calls: seq<BundleCall>, written: seq<string>)
    ensures status == RunStatus(opts, positional, existing, currentDir, env)
    ensures written == WrittenTargets(calls, env)
    ensures ArgHelp(opts) ==> status == Success && calls == []
    ensures var files := HtmlFiles(positional, existing);
      !ArgHelp(opts) && (|files| == 0 || (opts.outF.Some? && |files| > 1)) ==>
        status == Failure && calls == []
    ensures var files := HtmlFiles(positional, existing);
      !ArgHelp(opts) && opts.outF.Some? && |files| == 1 ==>
        && calls == [SingleCall(NormalizeSeparators(files[0]), opts.outF.value, currentDir)]
        && (status == Failure <==> CallFails(calls[0], env))
    ensures var files := HtmlFiles(positional, existing);
      !ArgHelp(opts) && opts.outF.None? && |files| > 0 ==>
        && |calls| == |files|
        && (forall i :: 0 <= i < |files| ==>
              calls[i] == BatchCall(NormalizeSeparators(files[i]), SettingsOf(opts), currentDir))
        && (status == Failure <==> exists i :: 0 <= i < |calls| && CallFails(calls[i], env))
  {
    calls, written := [], [];
    if ArgHelp(opts) {
      return Success, calls, written;
    }
    var filesHTML := HtmlFiles(positional, existing);
    if |filesHTML| == 0 {
      return Failure, calls, written;
    } else if opts.outF.Some? {
      if |filesHTML| > 1 {
        return Failure, calls, written;
      }
      var file := NormalizeSeparators(filesHTML[0]);
      var call := SingleCall(file, opts.outF.value, currentDir);
      status, written := BundleOne(call, env);
      calls := [call];
      WrittenTargetsSingle(call, env);
    } else {
      status, calls, written := RunBatch(filesHTML, SettingsOf(opts), currentDir, env);
    }
  }

  /** One `Bundle` call of `run`, with what `run` observes of it: its status and the path it wrote, if any. */
  method BundleOne(call: BundleCall, env: Env) returns (status: StatusCode, target: seq<string>)
    ensures status != Pending
    ensures status == Failure <==> CallFails(call, env)
    ensures target == if CallFails(call, env) then [] else [CallTarget(call)]
  {
    var tree, errors, output;
    status, tree, errors, output := Bundle(call.sourceFile, call.targetFile, call.sourceFileDir, call.targetFileDir, env);
    target := if output.Some? then [output.value.path] else [];
  }

  /** The calls a batch makes, one per file, in order. */
  function BatchCalls(filesHTML: seq<string>, settings: Settings, currentDir: string): (calls: seq<BundleCall>)
  {
    seq(|filesHTML|, i requires 0 <= i < |filesHTML| => BatchCall(NormalizeSeparators(filesHTML[i]), settings, currentDir))
  }

  /** The batch of `run`: one call per file, in order; it fails exactly when some call failed. */
  method RunBatch(filesHTML: seq<string>, settings: Settings, currentDir: string, env: Env)
    returns (status: StatusCode, calls: seq<BundleCall>, written: seq<string>)
    ensures status != Pending
    ensures calls == BatchCalls(filesHTML, settings, currentDir)
    ensures status == Failure <==> exists i :: 0 <= i < |calls| && CallFails(calls[i], env)
    ensures written == WrittenTargets(calls, env)
  {
    calls := BatchCalls(filesHTML, settings, currentDir);
    status, written := BundleEach(calls, env);
  }

  /**
   * The loop of the batch: every call is made, whatever the earlier ones
   * returned; the status is a failure exactly when some call failed.
   */
  method BundleEach(calls: seq<BundleCall>, env: Env) returns (status: StatusCode, written: seq<string>)
    ensures status != Pending
    ensures status == Failure <==> exists i :: 0 <= i < |calls| && CallFails(calls[i], env)
    ensures written == WrittenTargets(calls, env)
  {
    written := [];
    var failed := false;
    ghost var targets, failures := Targets(calls), Failures(calls, env);
    for i := 0 to |calls|
      invariant failed <==> true in failures[..i]
      invariant written == Written(targets[..i], failures[..i])
    {
      var s, target := BundleOne(calls[i], env);
      assert s == Failure <==> failures[i];
      assert target == if failures[i] then [] else [targets[i]];
      assert (failed || failures[i]) <==> true in failures[..i + 1] by { PrefixSnoc(failures, i); }
      assert written + target == Written(targets[..i + 1], failures[..i + 1]) by {
        WrittenSnoc(targets[..i], failures[..i], targets[i], failures[i]);
        PrefixSnoc(targets, i);
        PrefixSnoc(failures, i);
      }
      failed := failed || s == Failure;
      written := written + target;
    }
    assert written == WrittenTargets(calls, env) by {
      PrefixAll(targets);
      PrefixAll(failures);
    }
    assert failed <==> exists i :: 0 <= i < |calls| && CallFails(calls[i], env) by {
      PrefixAll(failures);
      FailuresSpec(calls, env);
    }
    status := if failed then Failure else Success;
  }

  /** Some call fails exactly when `true` is among the failures. */
  lemma FailuresSpec(calls: seq<BundleCall>, env: Env)
    ensures true in Failures(calls, env) <==> exists i :: 0 <= i < |calls| && CallFails(calls[i], env)
  {
    var failures := Failures(calls, env);
    if true in failures {
      var j :| 0 <= j < |failures| && failures[j];
      assert CallFails(calls[j], env);
    } else {
      forall j | 0 <= j < |calls|
        ensures !CallFails(calls[j], env)
      {
        assert failures[j] in failures;
      }
    }
  }

  // ---------------------------------------------------------------------------
  // main

  /**
   * The body of `main`: `run` is dispatched exactly when the `run` command was
   * given; otherwise help or version end in success; the status stays
   * `Pending` exactly when none of the three happened.
   */
  method Invoke(opts: Options, positional: seq<Arg>, existing: set<string>, currentDir: string, env: Env)
    returns (exitCode: StatusCode, ran: bool, runStatus: StatusCode)
    ensures ran <==> Command(positional, "run")
    ensures ran ==> exitCode == runStatus && runStatus == RunStatus(opts, positional, existing, currentDir, env)
    ensures exitCode == Pending <==> !ran && !ArgHelp(opts) && !opts.version
    ensures !ran ==> exitCode == if ArgHelp(opts) || opts.version then Success else Pending
  {
    exitCode := Pending;
    ran := Dispatches("run", exitCode, positional);
    runStatus := Pending;
    if ran {
      var calls, written;
      runStatus, calls, written := Run(opts, positional, existing, currentDir, env);
    }
    exitCode := MapCommand("run", () => runStatus, exitCode, positional);
    if exitCode == Pending {
      if ArgHelp(opts) {
        exitCode := Success;
      } else if opts.version {
        exitCode := Success;
      }
    }
  }
}
