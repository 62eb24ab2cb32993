/**
 The multi-file command line of src/index.ts: it normalises the two positional
 arguments, then prints the usage text, or reports that no files were found, or
 converts every FileSet the resolver returns, in order, stopping at the first
 error, which the top-level handler prints.

 The resolver (`getFiles`), the per-set type generation (`getFilesTypes`) and the
 writer (`writeFileToTarget`) are not part of this model; they are parameters,
 each of which may throw,
 and the run is described by the trace of calls made to them and lines printed.
 */
module Index {
  import opened Runtime
  import Text
  import Ymlts

  /** The alternatives of `/\.yaml|\.yml/g`, in the order written. */
  const YAML_ALTERNATIVES := [".yaml", ".yml"]

  const USAGE := "  usage : ymlts source [target] [flags]\n    \n"
    + "      source: source file or folder to .yaml or .yml\n"
    + "      target: target file or folder to .d.ts or .ts file\n"
    + "      flags : -t  generate .ts instead of .d.ts\n"
    + "              -o  make all properties optional\n"
    + "              -m  merge all files into one\n"
    + "              -s  silent mode\n"
    + "              -h  show help message"

  const NO_FILES := "error: no files found"

  /** The parsed command line: the two positional arguments and the flags. */
  datatype Args = Args(
    argv0: Option<string>, argv1: Option<string>,
    typescript: bool, help: bool, silent: bool, optional: bool, merge: bool)

  /** One unit of conversion work: the YAML documents and the file their types go to. */
  datatype FileSet = FileSet(source: seq<string>, target: string)

  /** The three collaborators the command line calls. */
  datatype Services = Services(
    getFiles: (string, string, string, bool, bool) -> Result<Option<seq<FileSet>>>,
    getFilesTypes: (FileSet, bool, bool) -> Result<string>,
    writeFileToTarget: (string, string, bool) -> Option<Error>)

  /** One observable step of a run. */
  datatype Event =
    | GetFiles(source: string, target: string, cwd: string, typescript: bool, merge: bool)
    | GetFilesTypes(file: FileSet, optional: bool, silent: bool)
    | WriteFileToTarget(target: string, types: string, silent: bool)
    | Print(line: string)

  /**
   The first argument without the `.yaml` and `.yml` occurrences one left-to-right
   pass removes, or "" when it is falsy.
   */
  function NormalizeSource(argv0: Option<string>): (source: string)
    ensures |source| <= (if argv0.Some? then |argv0.value| else 0)
  {
    if Truthy(argv0) then Text.ReplaceAll(argv0.value, YAML_ALTERNATIVES) else ""
  }

  /**
   The second argument without the `.d.ts` and `.ts` occurrences one left-to-right
   pass removes, or the normalised source when it is falsy.
   */
  function NormalizeTarget(argv1: Option<string>, source: string): (target: string)
    ensures !Truthy(argv1) ==> target == source
  {
    if Truthy(argv1) then Text.ReplaceAll(argv1.value, Ymlts.TS_ALTERNATIVES) else source
  }

  /** The top-level handler: `console.log('error: ', error.message)`. */
  function ErrorLine(e: Error): (line: string)
    ensures line == "error:  " + e.message
  {
    ConsoleLineTwo("error: ", e.message);
    ConsoleLine(["error: ", e.message])
  }

  /** The calls made so far, and the error that stopped them if one did. */
  datatype Progress = Progress(events: seq<Event>, error: Option<Error>)

  /** `events` happened before `p`. */
  function After(events: seq<Event>, p: Progress): Progress {
    Progress(events + p.events, p.error)
  }

  /** One FileSet: its types are computed, then written to its own target. */
  function Step(f: FileSet, optional: bool, silent: bool, svc: Services): Progress {
    var compute := [GetFilesTypes(f, optional, silent)];
    match svc.getFilesTypes(f, optional, silent)
    case Fail(e) => Progress(compute, Some(e))
    case Ok(types) =>
      Progress(compute + [WriteFileToTarget(f.target, types, silent)],
               svc.writeFileToTarget(f.target, types, silent))
  }

  /** The loop over the FileSets: each in turn, in the order given; the first error ends it. */
  function Build(files: seq<FileSet>, optional: bool, silent: bool, svc: Services): Progress
    decreases |files|
  {
    if files == [] then Progress([], None)
    else
      var s := Step(files[0], optional, silent, svc);
      if s.error.Some? then s else After(s.events, Build(files[1..], optional, silent, svc))
  }

  lemma AfterAssociates(a: seq<Event>, b: seq<Event>, p: Progress)
    ensures After(a, After(b, p)) == After(a + b, p)
  {
    assert a + (b + p.events) == (a + b) + p.events;
  }

  /** One more turn of the loop: the step of the next set, then the rest or its error. */
  lemma BuildUnfold(files: seq<FileSet>, i: nat, before: seq<Event>, optional: bool, silent: bool, svc: Services)
    requires i < |files|
    ensures var s := Step(files[i], optional, silent, svc);
      var p := After(before, Build(files[i..], optional, silent, svc));
      (s.error.None? ==> p == After(before + s.events, Build(files[i + 1..], optional, silent, svc))) &&
      (s.error.Some? ==> p == Progress(before + s.events, s.error))
  {
    assert files[i..][0] == files[i] && files[i..][1..] == files[i + 1..];
    AfterAssociates(before, Step(files[i], optional, silent, svc).events, Build(files[i + 1..], optional, silent, svc));
  }

  /** The whole run, with the top-level handler printing the error that ended it. */
  function CliTrace(args: Args, cwd: string, svc: Services): seq<Event> {
    if args.help then [Print(USAGE)]
    else
      var source := NormalizeSource(args.argv0);
      var target := NormalizeTarget(args.argv1, source);
      var call := [GetFiles(source, target, cwd, args.typescript, args.merge)];
      match svc.getFiles(source, target, cwd, args.typescript, args.merge)
      case Fail(e) => call + [Print(ErrorLine(e))]
      case Ok(None) => call + [Print(NO_FILES)]
      case Ok(Some(files)) =>
        var p := Build(files, args.optional, args.silent, svc);
        call + p.events + (if p.error.Some? then [Print(ErrorLine(p.error.value))] else [])
  }

  /**
   The `for (const file of files)` loop of `cli`: the calls it makes, in order, and
   the error that stopped it if one did, as Build describes them.
   */
  method BuildFiles(files: seq<FileSet>, optional: bool, silent: bool, svc: Services)
    returns (events: seq<Event>, failure: Option<Error>)
    ensures Progress(events, failure) == Build(files, optional, silent, svc)
  {
    events := [];
    failure := None;
    var i := 0;
    while i < |files| && failure.None?
      invariant 0 <= i <= |files|
      invariant failure.None? ==> After(events, Build(files[i..], optional, silent, svc)) == Build(files, optional, silent, svc)
      invariant failure.Some? ==> Progress(events, failure) == Build(files, optional, silent, svc)
    {
      var f := files[i];
      ghost var before := events;
      ghost var step := Step(f, optional, silent, svc);
      BuildUnfold(files, i, before, optional, silent, svc);
      var compute := [GetFilesTypes(f, optional, silent)];
      var types := svc.getFilesTypes(f, optional, silent);
      if types.Fail? {
        assert step.events == compute && step.error == Some(types.error);
        events := events + compute;
        failure := Some(types.error);
      } else {
        var write := [WriteFileToTarget(f.target, types.value, silent)];
        assert step.events == compute + write;
        events := events + (compute + write);
        failure := svc.writeFileToTarget(f.target, types.value, silent);
      }
      i := i + 1;
    }
    if failure.None? {
      assert files[i..] == [];
      assert events + [] == events;
    }
  }

  /** `main().catch(error)` around `cli`. */
  method Cli(args: Args, cwd: string, svc: Services) returns (trace: seq<Event>)
    ensures trace == CliTrace(args, cwd, svc)
  {
    if args.help {
      trace := [Print(USAGE)];
      return;
    }
    var source := NormalizeSource(args.argv0);
    var target := NormalizeTarget(args.argv1, source);
    trace := [GetFiles(source, target, cwd, args.typescript, args.merge)];
    var found := svc.getFiles(source, target, cwd, args.typescript, args.merge);
    if found.Fail? {
      trace := trace + [Print(ErrorLine(found.error))];
      return;
    }
    if found.value.None? {
      trace := trace + [Print(NO_FILES)];
      return;
    }
    var events, failure := BuildFiles(found.value.value, args.optional, args.silent, svc);
    trace := trace + events;
    if failure.Some? {
      trace := trace + [Print(ErrorLine(failure.value))];
    }
  }

  /** The writes in a sequence of events. */
  function Writes(events: seq<Event>): (w: seq<Event>)
    ensures |w| <= |events|
    ensures forall i :: 0 <= i < |w| ==> w[i].WriteFileToTarget?
  {
    if events == [] then []
    else (if events[0].WriteFileToTarget? then [events[0]] else []) + Writes(events[1..])
  }

  lemma WritesAppend(a: seq<Event>, b: seq<Event>)
    ensures Writes(a + b) == Writes(a) + Writes(b)
  {
    if a != [] {
      assert (a + b)[1..] == a[1..] + b;
      WritesAppend(a[1..], b);
    } else {
      assert a + b == b;
    }
  }

  /** `w` is the write of FileSet `f`: its types were computed and went to its target. */
  predicate WriteFor(w: Event, f: FileSet, optional: bool, silent: bool, svc: Services) {
    var t := svc.getFilesTypes(f, optional, silent);
    t.Ok? && w == WriteFileToTarget(f.target, t.value, silent)
  }

  /** Each write is the one of the FileSet at the same position. */
  predicate WritesMatch(w: seq<Event>, files: seq<FileSet>, optional: bool, silent: bool, svc: Services) {
    |w| <= |files| && forall i :: 0 <= i < |w| ==> WriteFor(w[i], files[i], optional, silent, svc)
  }

  /** The writes of one step: one, to the set's target, exactly when its types were computed. */
  lemma StepWrites(f: FileSet, optional: bool, silent: bool, svc: Services)
    ensures var s := Step(f, optional, silent, svc);
      var w := Writes(s.events);
      |w| <= 1 && (|w| == 1 <==> svc.getFilesTypes(f, optional, silent).Ok?) &&
      (|w| == 1 ==> WriteFor(w[0], f, optional, silent, svc)) &&
      (s.error.None? ==> |w| == 1)
  {
    var t := svc.getFilesTypes(f, optional, silent);
    var compute := [GetFilesTypes(f, optional, silent)];
    if t.Ok? {
      WritesAppend(compute, [WriteFileToTarget(f.target, t.value, silent)]);
    }
  }

  lemma WritesMatchCons(x: Event, wr: seq<Event>, files: seq<FileSet>, optional: bool, silent: bool, svc: Services)
    requires files != [] && WriteFor(x, files[0], optional, silent, svc)
    requires WritesMatch(wr, files[1..], optional, silent, svc)
    ensures WritesMatch([x] + wr, files, optional, silent, svc)
  {
    var w := [x] + wr;
    forall i | 1 <= i < |w| ensures WriteFor(w[i], files[i], optional, silent, svc) {
      assert files[i] == files[1..][i - 1] && w[i] == wr[i - 1];
    }
  }

  /**
   The sets are handled in the order given, one write per set, each to that set's
   own target and with the types computed for it: the writes are those of a prefix
   of the sets, and of all of them when no error occurred.
   */
  lemma {:induction false} BuildWritesInOrder(files: seq<FileSet>, optional: bool, silent: bool, svc: Services)
    ensures var p := Build(files, optional, silent, svc);
      WritesMatch(Writes(p.events), files, optional, silent, svc) &&
      (p.error.None? ==> |Writes(p.events)| == |files|)
    decreases |files|
  {
    if files != [] {
      var f := files[0];
      var s := Step(f, optional, silent, svc);
      StepWrites(f, optional, silent, svc);
      if s.error.None? {
        var rest := Build(files[1..], optional, silent, svc);
        BuildWritesInOrder(files[1..], optional, silent, svc);
        WritesAppend(s.events, rest.events);
        var ws := Writes(s.events);
        assert ws == [ws[0]];
        WritesMatchCons(ws[0], Writes(rest.events), files, optional, silent, svc);
      } else if |Writes(s.events)| == 1 {
        assert WritesMatch(Writes(s.events), files, optional, silent, svc);
      }
    }
  }

  /** In the events of a step, a write comes right after the computation for the same set. */
  predicate ComputedBeforeWritten(e: seq<Event>) {
    forall i :: 0 <= i < |e| && e[i].WriteFileToTarget? ==>
      i > 0 && e[i - 1].GetFilesTypes? && e[i - 1].file.target == e[i].target
  }

  /** Every write comes right after the computation of that set's types. */
  lemma {:induction false} BuildComputesBeforeWrite(files: seq<FileSet>, optional: bool, silent: bool, svc: Services)
    ensures ComputedBeforeWritten(Build(files, optional, silent, svc).events)
    decreases |files|
  {
    if files != [] {
      var s := Step(files[0], optional, silent, svc);
      assert ComputedBeforeWritten(s.events);
      if s.error.None? {
        var rest := Build(files[1..], optional, silent, svc).events;
        BuildComputesBeforeWrite(files[1..], optional, silent, svc);
        var e := s.events + rest;
        forall i | 0 <= i < |e| && e[i].WriteFileToTarget?
          ensures i > 0 && e[i - 1].GetFilesTypes? && e[i - 1].file.target == e[i].target
        {
          if i >= |s.events| {
            var j := i - |s.events|;
            assert e[i] == rest[j];
            assert j > 0;
            assert e[i - 1] == rest[j - 1];
          }
        }
        assert e == Build(files, optional, silent, svc).events;
      }
    }
  }

  /**
   The first error aborts the remaining sets: the run is an error-free run over
   the sets before some set `k`, followed by that set's step, whose error is the
   run's error; no set after `k` is touched.
   */
  lemma {:induction false} FirstErrorAborts(files: seq<FileSet>, optional: bool, silent: bool, svc: Services)
    returns (k: nat)
    requires Build(files, optional, silent, svc).error.Some?
    ensures k < |files|
    ensures Build(files[..k], optional, silent, svc).error.None?
    ensures Build(files, optional, silent, svc)
         == After(Build(files[..k], optional, silent, svc).events, Step(files[k], optional, silent, svc))
    decreases |files|
  {
    var s := Step(files[0], optional, silent, svc);
    if s.error.Some? {
      k := 0;
      assert files[..0] == [];
      assert [] + s.events == s.events;
    } else {
      var rest := files[1..];
      var j := FirstErrorAborts(rest, optional, silent, svc);
      k := j + 1;
      assert files[k] == rest[j];
      var t := Step(rest[j], optional, silent, svc);
      var b := Build(rest[..j], optional, silent, svc);
      PrefixBuild(files, k, optional, silent, svc);
      AfterAssociates(s.events, b.events, t);
    }
  }

  /** A prefix of the sets whose first step succeeds runs that step, then the rest of the prefix. */
  lemma PrefixBuild(files: seq<FileSet>, k: nat, optional: bool, silent: bool, svc: Services)
    requires 0 < k <= |files|
    requires Step(files[0], optional, silent, svc).error.None?
    ensures Build(files[..k], optional, silent, svc)
         == After(Step(files[0], optional, silent, svc).events, Build(files[1..][..k - 1], optional, silent, svc))
  {
    var front := files[..k];
    assert front[0] == files[0] && front[1..] == files[1..][..k - 1];
  }

  /** A resolver that throws is reported by the top-level handler; nothing else happens. */
  lemma ResolverErrorReported(args: Args, cwd: string, svc: Services, e: Error)
    requires !args.help
    requires var source := NormalizeSource(args.argv0);
      svc.getFiles(source, NormalizeTarget(args.argv1, source), cwd, args.typescript, args.merge) == Fail(e)
    ensures var source := NormalizeSource(args.argv0);
      CliTrace(args, cwd, svc)
        == [GetFiles(source, NormalizeTarget(args.argv1, source), cwd, args.typescript, args.merge), Print("error:  " + e.message)]
  {
  }

  /** With the help flag only the usage text is printed; the resolver is never called. */
  lemma HelpSkipsResolver(args: Args, cwd: string, svc: Services)
    requires args.help
    ensures CliTrace(args, cwd, svc) == [Print(USAGE)]
  {
  }

  /** When the resolver finds nothing, nothing is computed or written and the message says so. */
  lemma NoFilesReported(args: Args, cwd: string, svc: Services)
    requires !args.help
    requires var source := NormalizeSource(args.argv0);
      svc.getFiles(source, NormalizeTarget(args.argv1, source), cwd, args.typescript, args.merge) == Ok(None)
    ensures var source := NormalizeSource(args.argv0);
      CliTrace(args, cwd, svc)
        == [GetFiles(source, NormalizeTarget(args.argv1, source), cwd, args.typescript, args.merge), Print(NO_FILES)]
  {
  }

  /** An empty list of sets is truthy: nothing is done and nothing is printed. */
  lemma EmptyFileListSilent(args: Args, cwd: string, svc: Services)
    requires !args.help
    requires var source := NormalizeSource(args.argv0);
      svc.getFiles(source, NormalizeTarget(args.argv1, source), cwd, args.typescript, args.merge) == Ok(Some([]))
    ensures var source := NormalizeSource(args.argv0);
      CliTrace(args, cwd, svc) == [GetFiles(source, NormalizeTarget(args.argv1, source), cwd, args.typescript, args.merge)]
  {
  }

  /** `x`, `x.yaml` and `x.yml` normalise to `x` when `x` has no dot. */
  lemma SourceExtensionDropped(x: string, ext: string)
    requires x != "" && '.' !in x
    requires ext == Ymlts.YAML_EXT || ext == Ymlts.YML_EXT
    ensures NormalizeSource(Some(x + ext)) == NormalizeSource(Some(x)) == x
  {
    assert Text.DotLed(YAML_ALTERNATIVES);
    Text.ReplaceAllDotFreePrefix(x, ext, YAML_ALTERNATIVES);
    Text.ReplaceAllDotFree(x, YAML_ALTERNATIVES);
    if ext == Ymlts.YAML_EXT {
      Text.ReplaceAllOneAlternative(ext, YAML_ALTERNATIVES, 0);
    } else {
      assert !Text.StartsWith(ext, YAML_ALTERNATIVES[0]) by {
        assert ext[2] != YAML_ALTERNATIVES[0][2];
      }
      Text.ReplaceAllOneAlternative(ext, YAML_ALTERNATIVES, 1);
    }
    assert x + [] == x;
  }

  /** A truthy first argument without a dot is kept as it is. */
  lemma DotFreeSourceKept(x: string)
    requires x != "" && '.' !in x
    ensures NormalizeSource(Some(x)) == x
  {
    assert Text.DotLed(YAML_ALTERNATIVES);
    Text.ReplaceAllDotFree(x, YAML_ALTERNATIVES);
  }

  /** A truthy second argument without a dot is kept as it is, whatever the source. */
  lemma DotFreeTargetKept(n: string, source: string)
    requires n != "" && '.' !in n
    ensures NormalizeTarget(Some(n), source) == n
  {
    assert Text.DotLed(Ymlts.TS_ALTERNATIVES);
    Text.ReplaceAllDotFree(n, Ymlts.TS_ALTERNATIVES);
  }

  /** A truthy second argument is stripped, and what remains holds no character it did not have. */
  lemma TargetOnlyDeletes(n: string, source: string)
    requires n != ""
    ensures multiset(NormalizeTarget(Some(n), source)) <= multiset(n)
  {
    Text.ReplaceAllKeepsChars(n, Ymlts.TS_ALTERNATIVES);
  }

  /** `.yaml` and `.yml` never match at one position, so their order does not matter. */
  lemma YamlAlternativesCommute(s: string)
    ensures Text.ReplaceAll(s, YAML_ALTERNATIVES) == Text.ReplaceAll(s, [Ymlts.YML_EXT, Ymlts.YAML_EXT])
  {
    assert Ymlts.YAML_EXT[2] != Ymlts.YML_EXT[2];
    assert Text.Incomparable(Ymlts.YAML_EXT, Ymlts.YML_EXT);
    Text.AlternativesCommute(s, Ymlts.YAML_EXT, Ymlts.YML_EXT);
  }

  /**
   The target defaults to the normalised source, extension already gone; a
   `.d.ts` or `.ts` target is reduced to its base.
   */
  lemma TargetNormalisation(x: string, n: string, ext: string)
    requires x != "" && '.' !in x
    requires '.' !in n && n != ""
    requires ext == Ymlts.DTS_SUFFIX || ext == Ymlts.TS_SUFFIX
    ensures NormalizeTarget(None, NormalizeSource(Some(x + Ymlts.YAML_EXT))) == x
    ensures NormalizeTarget(Some(n + ext), x) == n
  {
    SourceExtensionDropped(x, Ymlts.YAML_EXT);
    Ymlts.StripTsTail(n, ext);
  }

  /** A run that stops on an error prints `error: ` and the message as its last line. */
  lemma ErrorIsLastLine(args: Args, cwd: string, svc: Services, files: seq<FileSet>)
    requires !args.help
    requires var source := NormalizeSource(args.argv0);
      svc.getFiles(source, NormalizeTarget(args.argv1, source), cwd, args.typescript, args.merge) == Ok(Some(files))
    requires Build(files, args.optional, args.silent, svc).error.Some?
    ensures var trace := CliTrace(args, cwd, svc);
      var e := Build(files, args.optional, args.silent, svc).error.value;
      trace[|trace| - 1] == Print("error:  " + e.message)
  {
  }
}
