/**
 The single-file converter of src/ymlts.ts: it probes for the YAML source, names
 the declaration file and its interface type, strips `export ` from generated
 lines for declarations-only output, and maps errors to messages.

 Reading the file, YAML loading and type inference are one opaque step, `infer`:
 given the chosen source file, the interface name and the optional flag, it gives
 the lines the generator library returns, or the error it throws. Creating the
 target directory and writing the file are another, `save`. The run is described
 by the trace of what it prints and of the calls it makes to these two steps.
 */
module Ymlts {
  import opened Runtime
  import Text
  import Paths

  const YAML_EXT := ".yaml"
  const YML_EXT := ".yml"
  /** The alternatives of `/\.d\.ts|\.ts/g`, in the order written. */
  const TS_ALTERNATIVES := [".d.ts", ".ts"]
  const TS_SUFFIX := ".ts"
  const DTS_SUFFIX := ".d.ts"
  const EXPORT := "export "
  /** How `error` opens every message. */
  const ERROR_PREFIX := "error:\t "

  const USAGE := "  usage : ymlts source [target] [flags]\n\n"
    + "  source: source file path to .yaml or .yml\n"
    + "  target: target file path to .d.ts or .ts file\n"
    + "  flags : -t  generate .ts instead of .d.ts\n"
    + "          -o  make all properties optional\n"
    + "          -s  silent mode\n"
    + "          -h  show help message\n"
    + "    "

  /** What `isAbsolute(undefined)` throws when no source argument is given. */
  const UNDEFINED_SOURCE := Error("TypeError", "The \"path\" argument must be of type string. Received undefined")
  const NOT_FOUND := Error("Error", "source file not found")

  /** The parsed command line: the two positional arguments and the flags. */
  datatype Args = Args(
    source: Option<string>, target: Option<string>,
    typescript: bool, help: bool, silent: bool, optional: bool)

  /**
   The environment of a run: the working directory, the paths that exist as
   regular files, and the two opaque steps.
   */
  datatype Env = Env(
    cwd: string,
    regularFiles: set<string>,
    infer: (string, string, bool) -> Result<seq<string>>,
    save: (string, string, string) -> Option<Error>)

  /** One observable step of a run. */
  datatype Event =
    | Print(line: string)
    | Infer(source: string, name: string, optional: bool)
    | Save(dir: string, file: string, data: string)

  /** The probe for the source file. */
  datatype SourceChoice = SourceChoice(path: string, yaml: string, yml: string, file: string, found: bool)

  /** The names derived from the target argument. */
  datatype TargetChoice = TargetChoice(arg: string, path: string, dir: string, name: string, file: string)

  /**
   The source probe: the argument is resolved, its last extension dropped, and
   `.yaml` then `.yml` appended. The first candidate that is a regular file is
   chosen, `.yaml` winning when both are; with neither, the resolved argument is
   kept and the run is marked as not found.
   */
  function ChooseSource(cwd: string, arg: string, regularFiles: set<string>): (c: SourceChoice)
    ensures c.path == Paths.Resolve(cwd, arg)
    ensures c.yaml == Paths.Base(c.path) + YAML_EXT && c.yml == Paths.Base(c.path) + YML_EXT
    ensures c.found <==> c.yaml in regularFiles || c.yml in regularFiles
    ensures c.yaml in regularFiles ==> c.file == c.yaml
    ensures c.yaml !in regularFiles && c.yml in regularFiles ==> c.file == c.yml
    ensures !c.found ==> c.file == c.path
    ensures c.found ==> c.file in regularFiles && Text.StartsWith(c.file, Paths.Base(c.path))
  {
    var path := Paths.Resolve(cwd, arg);
    var base := Paths.Base(path);
    var yaml := base + YAML_EXT;
    var yml := base + YML_EXT;
    var isYaml := yaml in regularFiles;
    var isYml := yml in regularFiles;
    var file := if isYaml then yaml else if isYml then yml else path;
    assert yaml[..|base|] == base && yml[..|base|] == base;
    SourceChoice(path, yaml, yml, file, isYaml || isYml)
  }

  /** The output suffix the typescript flag selects. */
  function Suffix(typescript: bool): string {
    if typescript then TS_SUFFIX else DTS_SUFFIX
  }

  /**
   Target naming: a truthy target argument loses the `.d.ts`/`.ts` occurrences one
   left-to-right pass removes, a falsy one
   is replaced by the source argument as given; the result is resolved like the
   source, and the file is its base with the suffix the typescript flag selects.
   The interface name is the base name, which holds no separator.
   */
  function ChooseTarget(cwd: string, source: string, target: Option<string>, typescript: bool): (t: TargetChoice)
    ensures t.arg == if Truthy(target) then Text.ReplaceAll(target.value, TS_ALTERNATIVES) else source
    ensures t.path == Paths.Resolve(cwd, t.arg)
    ensures t.dir == Paths.Dir(t.path) && t.name == Paths.Name(t.path)
    ensures '/' !in t.name
    ensures t.file == Paths.Base(t.path) + Suffix(typescript)
    ensures Text.EndsWith(t.file, Suffix(typescript))
  {
    var arg := if Truthy(target) then Text.ReplaceAll(target.value, TS_ALTERNATIVES) else source;
    var path := Paths.Resolve(cwd, arg);
    var base := Paths.Join(Paths.Dir(path), Paths.Name(path));
    var file := base + Suffix(typescript);
    assert file[|file| - |Suffix(typescript)|..] == Suffix(typescript);
    TargetChoice(arg, path, Paths.Dir(path), Paths.Name(path), file)
  }

  /** `lines.map((e) => e.replace('export ', ''))`: each line loses its first `export `. */
  function StripExports(lines: seq<string>): (r: seq<string>)
    ensures |r| == |lines|
    ensures forall i :: 0 <= i < |r| ==> r[i] == Text.RemoveFirst(lines[i], EXPORT)
  {
    seq(|lines|, i requires 0 <= i < |lines| => Text.RemoveFirst(lines[i], EXPORT))
  }

  /** The text `generator` returns for the lines the generator library produced. */
  function Render(lines: seq<string>, typescript: bool): string {
    Text.Join(if typescript then lines else StripExports(lines), '\n')
  }

  /**
   The rendered text splits back into exactly as many lines as were generated:
   the same lines for a module, and for declarations each line with its first
   `export ` removed (putting it back gives the generated line).
   */
  lemma RenderKeepsLines(lines: seq<string>, typescript: bool)
    requires |lines| >= 1
    requires forall i :: 0 <= i < |lines| ==> '\n' !in lines[i]
    ensures |Text.Split(Render(lines, typescript), '\n')| == |lines|
    ensures typescript ==> Text.Split(Render(lines, typescript), '\n') == lines
    ensures !typescript ==> forall i :: 0 <= i < |lines| ==>
      var out := Text.Split(Render(lines, typescript), '\n')[i];
      var k := Text.IndexOf(lines[i], EXPORT);
      (k < 0 ==> out == lines[i]) &&
      (k >= 0 ==> k <= |out| && out[..k] + EXPORT + out[k..] == lines[i])
  {
    if typescript {
      Text.SplitJoin(lines, '\n');
    } else {
      var stripped := StripExports(lines);
      forall i | 0 <= i < |stripped| ensures '\n' !in stripped[i] {
        Text.RemoveFirstKeepsOut(lines[i], EXPORT, '\n');
      }
      Text.SplitJoin(stripped, '\n');
    }
  }

  /** A line that opens with `export ` loses exactly that opening. */
  lemma ExportPrefixRemoved(rest: string)
    ensures Text.RemoveFirst(EXPORT + rest, EXPORT) == rest
  {
    var s := EXPORT + rest;
    assert s[..|EXPORT|] == EXPORT;
    assert s[|EXPORT|..] == rest;
  }

  /** Only the first `export ` of a line goes. */
  lemma OnlyFirstExportRemoved(rest: string)
    ensures Text.RemoveFirst(EXPORT + EXPORT + rest, EXPORT) == EXPORT + rest
  {
    ExportPrefixRemoved(EXPORT + rest);
    assert EXPORT + EXPORT + rest == EXPORT + (EXPORT + rest);
  }

  /**
   `error`: every `TypeError`, whatever threw it, is reported as `source file undefined`;
   anything else shows its message.
   */
  function ErrorMessage(e: Error): string {
    if e.name == "TypeError" then ERROR_PREFIX + "source file undefined" else ERROR_PREFIX + e.message
  }

  /**
   Every message starts with `error:\t `; a TypeError always gives the same
   message whatever it says, any other error's message follows the prefix intact.
   */
  lemma ErrorMessageShape(e: Error)
    ensures Text.StartsWith(ErrorMessage(e), ERROR_PREFIX)
    ensures e.name == "TypeError" ==> ErrorMessage(e) == ErrorMessage(UNDEFINED_SOURCE)
    ensures e.name != "TypeError" ==> ErrorMessage(e)[|ERROR_PREFIX|..] == e.message
  {
    var m := ErrorMessage(e);
    if e.name != "TypeError" {
      assert m == ERROR_PREFIX + e.message;
    }
  }

  /** The message alone does not tell a missing argument from an error that happens to say the same. */
  lemma ErrorMessageAmbiguous()
    ensures ErrorMessage(Error("Error", "source file undefined")) == ErrorMessage(UNDEFINED_SOURCE)
  {
  }

  /** The message for a failed probe. */
  lemma NotFoundMessage()
    ensures ErrorMessage(NOT_FOUND) == ERROR_PREFIX + "source file not found"
  {
  }

  /** The two status lines, unless silent. */
  function Banner(silent: bool, source: string, target: string): seq<Event> {
    if silent then []
    else [Print(ConsoleLine(["source:\t", source])), Print(ConsoleLine(["target:\t", target]))]
  }

  /**
   `main().catch(error)` around `cli`: help, or the conversion of one file with
   every error it throws printed by `error`.
   */
  function Cli(args: Args, env: Env): seq<Event> {
    if args.help then [Print(USAGE)]
    else if args.source.None? then [Print(ErrorMessage(UNDEFINED_SOURCE))]
    else
      var src := ChooseSource(env.cwd, args.source.value, env.regularFiles);
      var tgt := ChooseTarget(env.cwd, args.source.value, args.target, args.typescript);
      Banner(args.silent, src.file, tgt.file) + Convert(src, tgt, args.optional, args.typescript, env)
  }

  /**
   What follows the status lines: `source file not found` when the probe failed,
   otherwise the opaque inference and save steps, stopping at the first error.
   */
  function Convert(src: SourceChoice, tgt: TargetChoice, optional: bool, typescript: bool, env: Env): seq<Event> {
    if !src.found then [Print(ErrorMessage(NOT_FOUND))]
    else
      var call := [Infer(src.file, tgt.name, optional)];
      match env.infer(src.file, tgt.name, optional)
      case Fail(e) => call + [Print(ErrorMessage(e))]
      case Ok(lines) =>
        var data := Render(lines, typescript);
        var save := [Save(tgt.dir, tgt.file, data)];
        match env.save(tgt.dir, tgt.file, data)
        case Some(e) => call + save + [Print(ErrorMessage(e))]
        case None => call + save
  }

  /** The run saves nothing and reads nothing. */
  predicate NoCalls(trace: seq<Event>) {
    forall i :: 0 <= i < |trace| ==> trace[i].Print?
  }

  /** With the help flag only the usage text is printed. */
  lemma HelpOnly(args: Args, env: Env)
    requires args.help
    ensures Cli(args, env) == [Print(USAGE)]
  {
  }

  /** Without a source argument the run prints the TypeError message and does nothing else. */
  lemma UndefinedSourceReported(args: Args, env: Env)
    requires !args.help && args.source.None?
    ensures Cli(args, env) == [Print(ERROR_PREFIX + "source file undefined")]
  {
  }

  /**
   When neither candidate is a regular file the run fails with `source file not
   found` before reading anything: no call to either step is made, and the status
   line names the resolved raw argument.
   */
  lemma MissingSourceReported(args: Args, env: Env)
    requires !args.help && args.source.Some?
    requires var p := Paths.Base(Paths.Resolve(env.cwd, args.source.value));
      p + YAML_EXT !in env.regularFiles && p + YML_EXT !in env.regularFiles
    ensures var trace := Cli(args, env);
      NoCalls(trace) &&
      trace[|trace| - 1] == Print(ErrorMessage(NOT_FOUND)) &&
      (!args.silent ==> trace[0] == Print(ConsoleLine(["source:\t", Paths.Resolve(env.cwd, args.source.value)])))
  {
    var src := ChooseSource(env.cwd, args.source.value, env.regularFiles);
    var tgt := ChooseTarget(env.cwd, args.source.value, args.target, args.typescript);
    CliConverts(args, env);
    ProbeFailureStops(src, tgt, args.optional, args.typescript, env);
    BannerThenLine(args.silent, src.file, tgt.file, ErrorMessage(NOT_FOUND));
  }

  /** The status lines followed by one more line: only prints, the last being that line. */
  lemma BannerThenLine(silent: bool, source: string, target: string, line: string)
    ensures var trace := Banner(silent, source, target) + [Print(line)];
      NoCalls(trace) && trace[|trace| - 1] == Print(line) &&
      (!silent ==> trace[0] == Print(ConsoleLine(["source:\t", source])))
  {
    var banner := Banner(silent, source, target);
    var trace := banner + [Print(line)];
    assert NoCalls(trace) by {
      forall i | 0 <= i < |trace| ensures trace[i].Print? {
        if i < |banner| { assert trace[i] == banner[i]; }
      }
    }
  }

  /** A failed probe ends the run with `source file not found`, before any call. */
  lemma ProbeFailureStops(src: SourceChoice, tgt: TargetChoice, optional: bool, typescript: bool, env: Env)
    requires !src.found
    ensures Convert(src, tgt, optional, typescript, env) == [Print(ErrorMessage(NOT_FOUND))]
  {
  }

  /** With a source argument, the run prints the status lines and then converts. */
  lemma CliConverts(args: Args, env: Env)
    requires !args.help && args.source.Some?
    ensures var src := ChooseSource(env.cwd, args.source.value, env.regularFiles);
      var tgt := ChooseTarget(env.cwd, args.source.value, args.target, args.typescript);
      Cli(args, env) == Banner(args.silent, src.file, tgt.file) + Convert(src, tgt, args.optional, args.typescript, env)
  {
  }

  /** The silent flag drops the two status lines and changes nothing else. */
  lemma SilentDropsStatusLines(args: Args, env: Env)
    requires !args.help && args.source.Some?
    ensures Cli(args.(silent := true), env) == Cli(args.(silent := false), env)[2..]
  {
    var quiet, loud := args.(silent := true), args.(silent := false);
    var src := ChooseSource(env.cwd, args.source.value, env.regularFiles);
    var tgt := ChooseTarget(env.cwd, args.source.value, args.target, args.typescript);
    var rest := Convert(src, tgt, args.optional, args.typescript, env);
    CliConverts(quiet, env);
    CliConverts(loud, env);
    var banner := Banner(false, src.file, tgt.file);
    assert (banner + rest)[2..] == rest;
  }

  /**
   A successful conversion infers from the chosen source file under the target's
   base name, and then saves the rendered lines once, to the target file in its
   directory.
   */
  lemma ConversionWrites(src: SourceChoice, tgt: TargetChoice, args: Args, env: Env, lines: seq<string>)
    requires src.found && env.infer(src.file, tgt.name, args.optional) == Ok(lines)
    requires env.save(tgt.dir, tgt.file, Render(lines, args.typescript)).None?
    ensures Convert(src, tgt, args.optional, args.typescript, env)
         == [Infer(src.file, tgt.name, args.optional), Save(tgt.dir, tgt.file, Render(lines, args.typescript))]
  {
  }

  /**
   A failing step stops the run: its error message is the last line and nothing
   is saved after it.
   */
  lemma ConversionStops(src: SourceChoice, tgt: TargetChoice, args: Args, env: Env)
    requires src.found
    requires env.infer(src.file, tgt.name, args.optional).Fail?
    ensures Convert(src, tgt, args.optional, args.typescript, env)
         == [Infer(src.file, tgt.name, args.optional), Print(ErrorMessage(env.infer(src.file, tgt.name, args.optional).error))]
  {
  }

  /**
   `x`, `x.yaml` and `x.yml` lead to the same two candidates and so to the same
   choice, when the last segment of `x` is non-empty and has no dot.
   */
  lemma ProbeIgnoresExtension(cwd: string, x: string, ext: string, regularFiles: set<string>)
    requires Paths.Segment(x) != "" && '.' !in Paths.Segment(x)
    requires ext == YAML_EXT || ext == YML_EXT
    ensures var c := ChooseSource(cwd, x + ext, regularFiles);
      var d := ChooseSource(cwd, x, regularFiles);
      c.yaml == d.yaml && c.yml == d.yml && c.found == d.found &&
      (c.found ==> c.file == d.file)
  {
    assert ext[0] == '.' && '.' !in ext[1..] && '/' !in ext;
    ResolvedBaseIgnoresExtension(cwd, x, ext);
  }

  /** The probe base of `x + ext` is the probe base of `x`, for a one-dot extension. */
  lemma ResolvedBaseIgnoresExtension(cwd: string, x: string, ext: string)
    requires Paths.Segment(x) != "" && '.' !in Paths.Segment(x)
    requires |ext| >= 1 && ext[0] == '.' && '.' !in ext[1..] && '/' !in ext
    ensures Paths.Base(Paths.Resolve(cwd, x + ext)) == Paths.Base(Paths.Resolve(cwd, x))
  {
    var p := Paths.Resolve(cwd, x);
    ResolveAppend(cwd, x, ext);
    assert Paths.Segment(p) == Paths.Segment(x);
    Paths.BaseIgnoresExtension(p, ext);
  }

  /** Resolving `x + ext` is resolving `x` and then appending `ext`, when `x` is not empty. */
  lemma ResolveAppend(cwd: string, x: string, ext: string)
    requires x != ""
    ensures Paths.Resolve(cwd, x + ext) == Paths.Resolve(cwd, x) + ext
  {
    assert (x + ext)[0] == x[0];
    Paths.JoinAppend(cwd, x, ext);
  }

  /** A `.d.ts` or `.ts` target is stripped in full: the tail is removed. */
  lemma StripTsTail(n: string, ext: string)
    requires '.' !in n
    requires ext == DTS_SUFFIX || ext == TS_SUFFIX
    ensures Text.ReplaceAll(n + ext, TS_ALTERNATIVES) == n
  {
    assert Text.DotLed(TS_ALTERNATIVES);
    Text.ReplaceAllDotFreePrefix(n, ext, TS_ALTERNATIVES);
    if ext == DTS_SUFFIX {
      Text.ReplaceAllOneAlternative(ext, TS_ALTERNATIVES, 0);
    } else {
      assert !Text.StartsWith(ext, TS_ALTERNATIVES[0]);
      Text.ReplaceAllOneAlternative(ext, TS_ALTERNATIVES, 1);
    }
    assert n + [] == n;
  }

  /**
   A target written with `.d.ts`, with `.ts` or without an extension names the
   same files: the whole `.d.ts` goes, so `n.d.ts` does not become `n.d`.
   */
  lemma TargetExtensionIgnored(cwd: string, source: string, n: string, typescript: bool)
    requires n != "" && '.' !in n
    ensures ChooseTarget(cwd, source, Some(n + DTS_SUFFIX), typescript)
         == ChooseTarget(cwd, source, Some(n + TS_SUFFIX), typescript)
         == ChooseTarget(cwd, source, Some(n), typescript)
  {
    StripTsTail(n, DTS_SUFFIX);
    StripTsTail(n, TS_SUFFIX);
    assert Text.DotLed(TS_ALTERNATIVES);
    Text.ReplaceAllDotFree(n, TS_ALTERNATIVES);
    SameStrippedTarget(cwd, source, n + DTS_SUFFIX, n, typescript);
    SameStrippedTarget(cwd, source, n + TS_SUFFIX, n, typescript);
  }

  /** Two non-empty target arguments that strip to the same text name the same files. */
  lemma SameStrippedTarget(cwd: string, source: string, a: string, b: string, typescript: bool)
    requires a != "" && b != ""
    requires Text.ReplaceAll(a, TS_ALTERNATIVES) == Text.ReplaceAll(b, TS_ALTERNATIVES)
    ensures ChooseTarget(cwd, source, Some(a), typescript) == ChooseTarget(cwd, source, Some(b), typescript)
  {
  }

  /**
   The removal is one left-to-right pass: text that a removal brings together is
   not scanned again, so a truthy target can still hold `.ts` afterwards.
   */
  lemma StripIsOnePass()
    ensures Text.ReplaceAll("." + TS_SUFFIX + "ts", TS_ALTERNATIVES) == TS_SUFFIX
  {
    var s := "." + TS_SUFFIX + "ts";
    assert s == "..tsts";
    assert !Text.StartsWith(s, DTS_SUFFIX) by { assert s[..5][1] != DTS_SUFFIX[1]; }
    assert !Text.StartsWith(s, TS_SUFFIX) by { assert s[..3][1] != TS_SUFFIX[1]; }
    assert Text.FirstMatch(s, TS_ALTERNATIVES) == -1;
    assert s[1..] == ".tsts";
    assert !Text.StartsWith(s[1..], DTS_SUFFIX) by { assert s[1..][..5][1] != DTS_SUFFIX[1]; }
    assert Text.StartsWith(s[1..], TS_SUFFIX);
    assert Text.FirstMatch(s[1..], TS_ALTERNATIVES) == 1;
    assert s[1..][3..] == "ts";
    assert Text.DotLed(TS_ALTERNATIVES);
    Text.ReplaceAllDotFree("ts", TS_ALTERNATIVES);
    assert Text.ReplaceAll(s, TS_ALTERNATIVES) == [s[0]] + Text.ReplaceAll(s[1..], TS_ALTERNATIVES);
  }

  /**
   `.d.ts` and `.ts` can never both match at one position (they differ in their
   second character), so the order of the alternatives does not matter.
   */
  lemma TsAlternativesCommute(s: string)
    ensures Text.ReplaceAll(s, TS_ALTERNATIVES) == Text.ReplaceAll(s, [TS_SUFFIX, DTS_SUFFIX])
  {
    assert DTS_SUFFIX[1] != TS_SUFFIX[1];
    assert Text.Incomparable(DTS_SUFFIX, TS_SUFFIX);
    Text.AlternativesCommute(s, DTS_SUFFIX, TS_SUFFIX);
  }

  /**
   Without a target argument the target file sits beside the source: the probe
   base (the source without its last extension) followed by the output suffix.
   */
  lemma DefaultTargetBesideSource(cwd: string, source: string, target: Option<string>,
                                  regularFiles: set<string>, typescript: bool)
    requires !Truthy(target)
    ensures ChooseTarget(cwd, source, target, typescript).file
         == Paths.Base(ChooseSource(cwd, source, regularFiles).path) + Suffix(typescript)
  {
  }
}
