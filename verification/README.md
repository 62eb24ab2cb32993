# ymlts, modelled in Dafny

ymlts is a command line tool that turns YAML files into TypeScript types. This
project models its two entry points.

- **`src/ymlts.ts`, module `Ymlts`.** This converts a single file. The steps are:
  - Resolve the source argument against the working directory.
  - Drop its last extension.
  - Probe for `.yaml`, then for `.yml`.
  - Derive the target file and the interface name from the target argument, or
    from the source when no target is given.
  - Print two status lines unless the silent flag is set.
  - Hand the chosen file to the generator.
  - For declarations-only output, strip the first `export ` from every generated
    line. Then join the lines with newlines and save the text.

  Every error is mapped to one printed message; every `TypeError`, whatever
  threw it, is reported as `source file undefined`.
- **`src/index.ts`, module `Index`.** This is the multi-file command line. It
  normalises the two positional arguments with one left-to-right pass that
  removes `.yaml`/`.yml` from the first and `.d.ts`/`.ts` from the second. It asks a resolver for FileSets (a FileSet is some YAML
  documents plus the file their types go to). For each set in order it computes
  the types and writes them, stopping at the first error. The top-level handler
  prints that error, and any error the resolver throws.

Both runs are described as a trace of events: the lines printed and the calls
made to collaborators that are not part of this model. Each collaborator is a
function-valued parameter:

- In `Ymlts`: the file-reading, YAML-loading and type-inference step, and the
  directory-creating and writing step.
- In `Index`: `getFiles`, `getFilesTypes` and `writeFileToTarget`.

`Ymlts.Cli` and `Index.CliTrace` are these traces as functions. `Index.Cli` and
`Index.BuildFiles` are the source's loop as a method, proved equal to them.

Supporting modules:

- `Text`: the string operations the tool relies on.
  - `replace` with a string pattern, which removes only the first occurrence.
  - `replace` with a global alternation of literals.
  - `join` with a one-character separator.
  - `LastIndex` is the backward scan inside `path.parse`, for `/` and `.`.
  - `IndexOf` is the search inside string-pattern `replace`.
  - `Split` is not called by the tool: it is the inverse that states `join`'s round trip.
- `Paths`: the POSIX `path` functions used (`isAbsolute`, two-segment `join`,
  `parse().dir` and `parse().name`).
- `Runtime`: optional values, `Error` objects, truthiness, and how
  `console.log` joins its arguments with single spaces.

Notes on the code's behaviour:

- **Two spaces in errors.** `src/index.ts:63` calls
  `console.log('error: ', message)`, which prints `error:`, two spaces and the
  message.
- **Alternation order does not matter.** `.d.ts`/`.ts` cannot both match at one
  position, nor can `.yaml`/`.yml`, so their order in the regular expressions
  has no effect. `TsAlternativesCommute` and `YamlAlternativesCommute` state
  this.
- **One pass only.** The global replace does not rescan what a removal brings
  together: `..tsts` becomes `.ts` (`StripIsOnePass`).
- **Missing source in `src/ymlts.ts`.** `isAbsolute(undefined)` throws a
  `TypeError`, and the tool prints `source file undefined`.
- **Two revisions.** `src/index.ts` imports `getFiles`, `getFilesTypes` and
  `writeFileToTarget` from `./ymlts`, but the `src/ymlts.ts` beside it is an
  earlier, single-file revision that does not define them. They are therefore
  parameters.

Several lemmas (HelpOnly, UndefinedSourceReported, ProbeFailureStops,
ConversionWrites, ConversionStops, NotFoundMessage, HelpSkipsResolver,
NoFilesReported, EmptyFileListSilent, ResolverErrorReported, ErrorIsLastLine)
read one outcome of a run back from its definition: they name the outcomes the
code promises rather than carry proof. Rows saying "definition, no contract"
are the definitions themselves; their properties are in the rows they name.

## Model

| member | source | states |
|---|---|---|
| Text.LastIndex | src/ymlts.ts:42-43 | the result is -1 or a position holding the character, and no later position holds it |
| Text.LastIndexAppend | src/ymlts.ts:42-43 | the last occurrence in a concatenation is the shifted last one of the second part, or the first part's when the second has none |
| Text.IndexOf | src/ymlts.ts:109 | the result is the first position where the pattern occurs, or -1 exactly when it occurs nowhere |
| Text.RemoveFirst | src/ymlts.ts:109 | with no occurrence the line is unchanged; otherwise the result is one pattern shorter, and putting the pattern back at the first occurrence restores the line |
| Text.FirstMatch | src/ymlts.ts:51 | the result is the first alternative, in the order written, that matches at the start, or -1 when none does |
| Text.ReplaceAllKeepsChars | src/index.ts:13-14 | the global replace only deletes: the result is a sub-multiset of the input |
| Text.ReplaceAllDotFree | src/index.ts:13-14 | with dot-led alternatives, text without a dot is left unchanged |
| Text.ReplaceAllDotFreePrefix | src/index.ts:13-14 | a dot-free prefix passes through the replace untouched |
| Text.ReplaceAllOneAlternative | src/index.ts:13-14 | an input that is exactly one alternative, with no earlier alternative matching, is removed entirely |
| Text.ReplaceAllMiddle | src/index.ts:13-14 | an alternative after dot-free text is removed, the text before it kept in order, and the scan carries on after it |
| Text.AlternativesCommute | src/ymlts.ts:51 | when neither alternative is a prefix of the other, swapping them in the alternation gives the same result on every input |
| Text.ReplaceAll | src/index.ts:13-14 | `replace` with a global alternation of literals, also at src/ymlts.ts:51; definition, its contract only bounds the length; properties in ReplaceAllKeepsChars, ReplaceAllDotFree, ReplaceAllMiddle, ReplaceAllOneAlternative and AlternativesCommute |
| Text.Join | src/ymlts.ts:112 | definition, no contract; Split and SplitJoin state its round trip |
| Text.Split | src/ymlts.ts:112 | split is never empty, no part holds the separator, and joining the parts gives the text back |
| Text.SplitJoin | src/ymlts.ts:112 | splitting undoes joining when there is a part and no part holds the separator |
| Text.RemoveFirstKeepsOut | src/ymlts.ts:109 | removing the pattern never introduces a character, e.g. a newline |
| Runtime.Truthy | src/index.ts:13-14 | definition, no contract: `undefined` and `''` are falsy |
| Runtime.ConsoleLine | src/index.ts:63 | definition, no contract; ConsoleLineTwo states the two-argument line |
| Runtime.ConsoleLineTwo | src/index.ts:63 | `console.log(a, b)` writes `a`, one space, `b` |
| Paths.IsAbsolute | src/ymlts.ts:40 | definition, no contract: a path is absolute when it starts with the separator; used by Resolve |
| Paths.Dir | src/ymlts.ts:42 | definition, no contract; ResolveUnderCwd, ExtendSegment and NameDropsLastExtension state its properties |
| Paths.Base | src/ymlts.ts:44 | definition, no contract; BaseDropsLastExtension states that, for a path without doubled separators, it is the path without its last extension; BaseIgnoresExtension and ProbeIgnoresExtension that one added extension does not change it |
| Paths.Join | src/ymlts.ts:41 | joining never gives the empty path; a non-empty first segment starts the result and a non-empty second one ends it; with an empty segment the result is the other one, or `.` |
| Paths.Segment | src/ymlts.ts:43 | the last segment holds no separator |
| Paths.Name | src/ymlts.ts:43 | the name part holds no separator; NameDropsLastExtension states its value |
| Paths.WithoutExtension | src/ymlts.ts:43 | the result is a prefix of the segment; when it differs it is non-empty and cut at the last dot; when it is the segment, the segment is `..` or has no dot after its first character |
| Paths.Resolve | src/ymlts.ts:40-41 | an absolute argument is kept; a relative one is put after the working directory and ends the result; under an absolute working directory the result is absolute; a non-empty argument keeps its last segment |
| Paths.ResolveUnderCwd | src/ymlts.ts:40-42 | a relative one-segment argument resolves to a path whose directory is the working directory |
| Paths.DropLastExtension | src/ymlts.ts:43 | any non-empty segment, dots included, loses exactly one added last extension |
| Paths.NameDropsLastExtension | src/ymlts.ts:42-44 | with one extension added to a path with a non-empty last segment, the name is that segment, the dir is unchanged, and the base is the dir joined with that segment |
| Paths.JoinDirSegment | src/ymlts.ts:42-44 | a path with a non-empty last segment and no doubled separator is the join of its dir and its last segment |
| Paths.BaseDropsLastExtension | src/ymlts.ts:42-44 | with one extension added to a path with a non-empty last segment and no doubled separator, the base is that path: only the last extension goes |
| Paths.JoinKeepsSegment | src/ymlts.ts:41 | joining a non-empty segment onto a directory keeps that segment's last part |
| Paths.SegmentAfterSeparator | src/ymlts.ts:41-43 | behind a separator the last segment of a concatenation is that of its second part |
| Paths.ExtendSegment | src/ymlts.ts:42-43 | appending separator-free text extends the last segment and keeps the directory |
| Paths.DropAddedExtension | src/ymlts.ts:43 | a dot-free segment with one extension added loses exactly that extension |
| Paths.BaseIgnoresExtension | src/ymlts.ts:42-44 | adding one extension to a path with a dot-free last segment leaves its dir, name and base unchanged |
| Paths.JoinAppend | src/ymlts.ts:41 | text appended to a non-empty second segment ends up at the end of the joined path |
| Ymlts.ChooseSource | src/ymlts.ts:39-49 | candidates are base + `.yaml` and base + `.yml`; found exactly when one is a regular file; `.yaml` wins when both are; otherwise the resolved path is kept; a found file is a regular file starting with the base |
| Ymlts.ChooseTarget | src/ymlts.ts:51-57 | a truthy target loses the `.d.ts`/`.ts` occurrences a left-to-right scan removes, a falsy one is the source as given; it is resolved; dir and name come from the resolved path; the name has no separator; the file is base + the suffix the flag selects, and ends with it |
| Ymlts.Render | src/ymlts.ts:109-112 | definition, no contract; RenderKeepsLines states its round trip |
| Ymlts.StripExports | src/ymlts.ts:109 | as many lines as generated, each with its first `export ` removed |
| Ymlts.RenderKeepsLines | src/ymlts.ts:109-112 | the saved text splits back into exactly the generated number of lines: the same lines for `.ts`, and for `.d.ts` each line minus its first `export ` |
| Ymlts.ExportPrefixRemoved | src/ymlts.ts:109 | a line opening with `export ` loses exactly that opening |
| Ymlts.OnlyFirstExportRemoved | src/ymlts.ts:109 | a second `export ` on the same line stays |
| Ymlts.ErrorMessage | src/ymlts.ts:119-133 | definition, no contract; ErrorMessageShape and ErrorMessageAmbiguous state its properties |
| Ymlts.ErrorMessageShape | src/ymlts.ts:119-133 | every message starts with `error:\t `; every TypeError gives one and the same message; any other error's message follows the prefix intact |
| Ymlts.ErrorMessageAmbiguous | src/ymlts.ts:122-128 | an error saying `source file undefined` prints the same as a missing argument |
| Ymlts.NotFoundMessage | src/ymlts.ts:64 | a failed probe prints `error:\t source file not found` |
| Ymlts.Banner | src/ymlts.ts:60-61 | definition, no contract; BannerThenLine and SilentDropsStatusLines state its properties |
| Ymlts.Cli | src/ymlts.ts:12-76 | definition, no contract: the run as a trace, with the handler of line 143; HelpOnly, UndefinedSourceReported, MissingSourceReported and SilentDropsStatusLines state its properties |
| Ymlts.Convert | src/ymlts.ts:63-75 | definition, no contract; ProbeFailureStops, ConversionWrites and ConversionStops state its outcomes |
| Ymlts.HelpOnly | src/ymlts.ts:24-36 | with the help flag the run prints the usage text and nothing else |
| Ymlts.UndefinedSourceReported | src/ymlts.ts:39-41 | without a source argument the run prints only `error:\t source file undefined` |
| Ymlts.MissingSourceReported | src/ymlts.ts:59-64 | with neither candidate a regular file the run only prints; its last line is the not-found message; its first status line names the resolved argument |
| Ymlts.BannerThenLine | src/ymlts.ts:60-61 | the status lines then one more line are prints only, ending with that line, and the first names the source |
| Ymlts.ProbeFailureStops | src/ymlts.ts:64 | a failed probe ends the conversion with the not-found message before any call |
| Ymlts.SilentDropsStatusLines | src/ymlts.ts:60-61 | the silent run is the loud run minus its first two lines |
| Ymlts.ConversionWrites | src/ymlts.ts:66-75 | a successful run infers from the chosen file under the target's name and then saves the rendered lines once, to the target file in its directory |
| Ymlts.ConversionStops | src/ymlts.ts:66-71 | a failing inference prints its mapped message and saves nothing |
| Ymlts.ProbeIgnoresExtension | src/ymlts.ts:42-49 | `x`, `x.yaml` and `x.yml` give the same candidates, the same found flag and the same chosen file |
| Ymlts.ResolvedBaseIgnoresExtension | src/ymlts.ts:40-44 | resolving `x` with a one-dot extension added gives the same probe base as resolving `x` |
| Ymlts.ResolveAppend | src/ymlts.ts:41 | resolving `x + ext` is resolving `x` and appending `ext` |
| Ymlts.StripTsTail | src/ymlts.ts:51 | a dot-free name with `.d.ts` or `.ts` appended is stripped back to the name |
| Ymlts.TargetExtensionIgnored | src/ymlts.ts:51-57 | the targets `n.d.ts`, `n.ts` and `n` name the same files and interface |
| Ymlts.SameStrippedTarget | src/ymlts.ts:51-57 | two non-empty targets that strip to the same text give the same choice |
| Ymlts.TsAlternativesCommute | src/ymlts.ts:51 | removing `.d.ts` or `.ts` gives the same result whichever alternative is tried first |
| Ymlts.StripIsOnePass | src/ymlts.ts:51 | a removal is not rescanned: `..tsts` becomes `.ts` |
| Ymlts.DefaultTargetBesideSource | src/ymlts.ts:51-57 | without a target argument the target file is the probe base of the source plus the suffix |
| Index.NormalizeSource | src/index.ts:13 | the normalised source is never longer than the argument |
| Index.NormalizeTarget | src/index.ts:14 | a falsy target argument is replaced by the normalised source |
| Index.DotFreeSourceKept | src/index.ts:13 | a truthy first argument without a dot is returned unchanged |
| Index.DotFreeTargetKept | src/index.ts:14 | a truthy second argument without a dot is returned unchanged |
| Index.TargetOnlyDeletes | src/index.ts:14 | the normalised second argument holds only characters of the argument, no more often |
| Index.ErrorLine | src/index.ts:62-64 | the handler prints `error:`, two spaces, and the message |
| Index.Step | src/index.ts:30-33 | definition, no contract: one set's computation and write; StepWrites states its writes |
| Index.Build | src/index.ts:28-34 | definition, no contract: the loop as a recursion; BuildWritesInOrder, BuildComputesBeforeWrite and FirstErrorAborts state its properties |
| Index.CliTrace | src/index.ts:9-74 | definition, no contract: the run with the top-level handler; Index.Cli is proved equal to it |
| Index.BuildFiles | src/index.ts:28-34 | the loop makes exactly the calls and ends with exactly the error that the reference description of the loop gives |
| Index.Cli | src/index.ts:9-56 | the run makes exactly the calls and prints exactly the lines of the reference trace, with the handler's line for an error |
| Index.StepWrites | src/index.ts:30-33 | a set produces at most one write; it writes exactly when its types were computed, and a set that ends without error wrote |
| Index.WritesMatchCons | src/index.ts:28-34 | a set's write followed by the writes of the rest match the sets position by position |
| Index.BuildWritesInOrder | src/index.ts:28-34 | the writes are those of a prefix of the sets, in order, each to its own target with its own types, and all of them when no error occurred |
| Index.FirstErrorAborts | src/index.ts:28-34 | a failed run is an error-free run over the sets before some set, then that set's step, whose error is the run's; no later set is touched |
| Index.BuildComputesBeforeWrite | src/index.ts:28-34 | every write comes right after the type computation for the same target |
| Index.HelpSkipsResolver | src/index.ts:22-55 | with the help flag only the usage text is printed; the resolver is not called |
| Index.ResolverErrorReported | src/index.ts:24 | a resolver that throws is followed only by the handler's `error:` line for its message |
| Index.NoFilesReported | src/index.ts:24-40 | a resolver that finds nothing (a falsy result) is followed only by `error: no files found` |
| Index.EmptyFileListSilent | src/index.ts:26-35 | an empty list of sets is truthy: nothing is computed, written or printed |
| Index.SourceExtensionDropped | src/index.ts:13 | `x`, `x.yaml` and `x.yml` normalise to `x` |
| Index.YamlAlternativesCommute | src/index.ts:13 | removing `.yaml` or `.yml` gives the same result whichever alternative is tried first |
| Index.TargetNormalisation | src/index.ts:13-14 | the default target is the source with its extension gone; a `.d.ts` or `.ts` target is reduced to its base |
| Index.ErrorIsLastLine | src/index.ts:62-74 | a run that stops on an error ends with the handler's line for that error |

## Left out

- Reading the source file, YAML loading with the JSON schema, and quicktype type inference (src/ymlts.ts:67-106) form one opaque step: they are foreign libraries.
- Directory creation and file writing (src/ymlts.ts:74-75) form one opaque step.
- File existence and regular-file status (src/ymlts.ts:47-48) are a set of paths; the file system itself is not modelled.
- `path.join` normalisation of `.` and `..`, of repeated separators and of trailing separators is not modelled. Neither is `parse` of a path with a trailing separator. Paths are taken as already normal.
- Command line parsing by yargs is left out: positional arguments are optional strings, so numeric positionals are not modelled.
- Promises and `await` are left out: every step completes before the next begins.
- `writeFileToTarget` is called without `await` at src/index.ts:33. Its error is modelled as thrown synchronously and caught by the handler; an asynchronous rejection would escape the handler.
- `getFiles`, `getFilesTypes` and `writeFileToTarget` are not part of this model. Their bodies are not in the `src/ymlts.ts` revision beside `src/index.ts`, so directory discovery, merge mode and the naming of FileSets are not modelled.
- Index.NormalizeSource: its contract bounds only the length. What the normalisation does to `x.yaml`/`x.yml` is stated by SourceExtensionDropped, and which characters it keeps by Text.ReplaceAllKeepsChars.
- Index.NormalizeTarget: its contract states only the falsy case. For a truthy argument, DotFreeTargetKept, TargetNormalisation and TargetOnlyDeletes state what the removal does, and the definition is the `/g` scan of Text.ReplaceAll.
- Text.ReplaceAll: its own contract bounds only the length. The lemmas state what it keeps and removes for dot-led alternatives after dot-free text; that kept characters keep their order is stated only in that case (ReplaceAllDotFreePrefix, ReplaceAllMiddle).
- Paths.Name: its own contract says only that it holds no separator. Its value is stated by NameDropsLastExtension for a segment with one added extension, and by the WithoutExtension contract in general.
- Paths.Base: it has no contract of its own. BaseDropsLastExtension states that it is the path without one added last extension, for paths without a doubled separator; a path with `//` is not covered, since `join` there normalises and is not modelled.
- Process exit codes are left out: the tool sets none.
