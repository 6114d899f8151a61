# Pipeline assembler, modelled in Dafny

`pipeline/pipeline.py` writes a GitHub Actions workflow (`custom.yml`) for one project.
It reads a language, a project name and an optional comma-separated list of steps from
the command line. It fails when the project directory does not exist. It then fixes the
step list: with no steps given it uses `build,test`, and it puts `build` first exactly
once. It loads the header template `base.yml` and adds a `PROJECT_NAME` entry. Three
outcomes are possible:

- The entry goes right after the first line that strips to `env:`.
- `env:` occurs only inside longer lines, such as `my_env: x`. Then no entry is added
  and the header only loses a final line break.
- `env:` occurs nowhere. Then a new `env:` block holding the entry is put in front.

Last, it appends the template `<lang>/<step>.yml` of every step, in order,
and skips templates that are missing or empty.

The model has four modules:

- `Text` (`text.dfy`) holds the Python string operations the script relies on:
  `str.split` with one separator character, `str.join`, `str.splitlines`, `str.strip`
  and the `in` substring test. Each comes with the facts the other modules use, such as
  split/join round trips, how many pieces a split gives, and what `strip` removes.
- `Steps` (`steps.dfy`) holds step normalization. The function `Normalized` gives the
  resulting list. The class `StepList` stands for a Python list that is changed in
  place. The method `NormalizeSteps` follows the script's two branches: it inserts into
  the caller's list in place, or it builds a new list.
- `EnvBlock` (`envblock.dfy`) holds `insert_project_name_env_block`. The function
  `InjectedHeader` gives its result. The method `InsertProjectNameEnvBlock` has the scan
  loop, which stops at the first `env:` line. Lemmas cover each way the header can come
  out.
- `Pipeline` (`pipeline.dfy`) holds `generate_pipeline` and `main`. The template
  directory is a map from template file to its text. A file the map lacks does not
  exist. The project-directory test is a boolean parameter. The `FileNotFoundError` is
  the `Err` case of a `Result`. The output file is the returned document.

The code (`pipeline/pipeline.py:79-80`) appends each template directly after the text
before it, with no separator. `LoneEnvHeaderJoinsBody` shows the effect. When the header template
is just `env:` plus a line break, `splitlines`/`join` drops that line break. The first
step template then continues the `PROJECT_NAME` line itself.

## Model

| member | source | states |
|---|---|---|
| Text.Split | pipeline/pipeline.py:89 | `s.split(sep)` always has at least one piece, and no piece holds the separator |
| Text.SplitCount | pipeline/pipeline.py:89 | a split has exactly one piece more than the text has separators, so empty pieces are kept |
| Text.JoinSplit | pipeline/pipeline.py:89 | joining the pieces of a split with the separator gives the original text back |
| Text.SplitJoin | pipeline/pipeline.py:89 | splitting a join of separator-free pieces gives the pieces back |
| Text.SplitWithoutSep | pipeline/pipeline.py:89 | text without the separator splits into itself alone |
| Text.SplitAfterFirst | pipeline/pipeline.py:89 | a separator-free piece followed by the separator splits off as the first piece |
| Text.Join | pipeline/pipeline.py:48 | the joined text starts with the first piece; `JoinSplit`, `SplitJoin` and `JoinCount` describe the rest |
| Text.JoinCount | pipeline/pipeline.py:48 | joining separator-free pieces adds exactly one separator per neighbouring pair |
| Text.JoinLines | pipeline/pipeline.py:48 | `"\n".join(lines)` starts with the first line; `JoinSplitLines` and `JoinAfterTwo` describe the rest |
| Text.JoinExtendFirst | pipeline/pipeline.py:48 | extending the first piece extends the joined text at its front |
| Text.SplitLines | pipeline/pipeline.py:43 | no line returned by `splitlines` holds a line break |
| Text.JoinSplitLines | pipeline/pipeline.py:43-48 | re-joining the lines of a text with `\n` gives the text back, except that a final line break is lost |
| Text.SplitLinesAfterFirst | pipeline/pipeline.py:43 | text that starts with a line and a line break has that line first, then the lines of the rest |
| Text.SplitLinesAfterTwo | pipeline/pipeline.py:43 | the same for two leading lines |
| Text.JoinAfterTwo | pipeline/pipeline.py:48 | joining lines that start with two given lines puts a `\n` after each of them |
| Text.TrimStart | pipeline/pipeline.py:45 | `lstrip` never lengthens the text, and its result is empty or starts with a non-space; `TrimStartSpec` says what it removes |
| Text.TrimEnd | pipeline/pipeline.py:45 | `rstrip` never lengthens the text, and its result is empty or ends with a non-space; `TrimEndSpec` says what it removes |
| Text.Strip | pipeline/pipeline.py:45 | `strip` never lengthens the text, and its result is empty or starts and ends with a non-space |
| Text.TrimStartSpec | pipeline/pipeline.py:45 | the left part of `strip` removes a run of whitespace from the front and nothing else: the result is a suffix that is empty or starts with a non-space |
| Text.TrimEndSpec | pipeline/pipeline.py:45 | the right part of `strip` removes a run of whitespace from the back and nothing else: the result is a prefix that is empty or ends with a non-space |
| Text.Contains | pipeline/pipeline.py:42 | the substring test holds only when the text is at least as long as what it looks for; the lemmas below give the rest |
| Text.ContainsDropLast | pipeline/pipeline.py:42-48 | dropping a last character that the searched text does not hold keeps the match |
| Text.ContainsAppend | pipeline/pipeline.py:42 | a substring of a text is a substring of that text followed by anything |
| Text.ContainsPrepend | pipeline/pipeline.py:42 | a substring of a text is a substring of anything followed by that text |
| Text.ContainsJoin | pipeline/pipeline.py:42-48 | a substring of one piece is a substring of the joined pieces |
| Text.ContainsLine | pipeline/pipeline.py:42-43 | a substring of one line of a text is a substring of the text |
| Text.ContainsStripped | pipeline/pipeline.py:42-45 | a line that strips to `t` contains `t` |
| Steps.Defaulted | pipeline/pipeline.py:59-61 | an empty request becomes a non-empty default, and a non-empty request is kept as it is |
| Steps.WithoutBuild | pipeline/pipeline.py:67 | the filtered list has no `build` |
| Steps.WithoutBuildMultiset | pipeline/pipeline.py:67 | filtering keeps every other step exactly as often as it was requested |
| Steps.WithoutBuildAppend | pipeline/pipeline.py:67 | filtering distributes over concatenation, so the remaining steps keep their order |
| Steps.WithoutBuildAbsent | pipeline/pipeline.py:63-65 | a list without `build` passes the filter unchanged |
| Steps.Normalized | pipeline/pipeline.py:59-67 | the normalized list is non-empty, starts with `build` and has no other `build`; `NormalizedBuildFirst` and `NormalizedKeepsOtherSteps` pin the rest down |
| Steps.NormalizedBuildFirst | pipeline/pipeline.py:59-67 | after normalization `build` is the first step and occurs exactly once |
| Steps.NormalizedKeepsOtherSteps | pipeline/pipeline.py:59-67 | the steps other than `build` are exactly those requested (or defaulted), in order and with their duplicates; the length is the requested length minus the `build` entries plus one |
| Steps.NormalizedDefault | pipeline/pipeline.py:59-61 | with no steps requested the list is `build`, `test` |
| Steps.NormalizedPrepends | pipeline/pipeline.py:63-65 | a non-empty request without `build` only gains `build` in front |
| Steps.NormalizedIdempotent | pipeline/pipeline.py:59-67 | normalizing twice is the same as normalizing once |
| Steps.StepList.constructor | pipeline/pipeline.py:61 | a new list holds the given steps |
| Steps.StepList.InsertFront | pipeline/pipeline.py:65 | `insert(0, step)` puts the step in front of the old contents |
| Steps.NormalizeSteps | pipeline/pipeline.py:59-67 | the list returned is the normalized request. When the request is non-empty and lacks `build`, it is the caller's own list, updated in place. Otherwise it is a new list, and the caller's list is unchanged |
| EnvBlock.ProjectLine | pipeline/pipeline.py:46 | the entry `  PROJECT_NAME: <project>` of lines 46 and 50 holds a line break exactly when the project name does |
| EnvBlock.IsEnvLine | pipeline/pipeline.py:45 | the test `line.strip() == "env:"`; `MarkerIsEnvLine`, `MyEnvLine` and `EnvLineImpliesMarker` describe it |
| EnvBlock.InsertAfterFirstEnvLine | pipeline/pipeline.py:43-47 | the splice adds exactly one line when some line strips to `env:`, and none otherwise; `InsertAfterEnvLineAt` and `InsertWithoutEnvLine` give its place |
| EnvBlock.FirstEnvLine | pipeline/pipeline.py:44-45 | a header with an `env:` line has a first one, the line the loop stops at |
| EnvBlock.InjectedHeader | pipeline/pipeline.py:41-50 | in all three outcomes the returned header still holds `env:`; `InjectAfterEnvLine`, `InjectSubstringOnly` and `InjectPrepends` give each outcome exactly |
| EnvBlock.SplicedKeepsMarker | pipeline/pipeline.py:42-48 | when the guard passes, the re-joined lines still hold `env:`, with or without an `env:` line |
| EnvBlock.InsertAfterEnvLineAt | pipeline/pipeline.py:44-47 | with `k` the first line that strips to `env:`, the entry lands at position `k + 1` and every other line keeps its order |
| EnvBlock.InsertWithoutEnvLine | pipeline/pipeline.py:44-48 | when no line strips to `env:`, the lines are left as they are |
| EnvBlock.EnvLineImpliesMarker | pipeline/pipeline.py:42-45 | a header with an `env:` line always passes the substring guard |
| EnvBlock.InjectAfterEnvLine | pipeline/pipeline.py:41-48 | the project line is inserted right after the first `env:` line, and the result is the lines re-joined with `\n` |
| EnvBlock.InjectPrepends | pipeline/pipeline.py:49-50 | without `env:` anywhere, the original header is kept unchanged as the suffix of the result, for every project name. When the name holds no line break, the lines of the header follow exactly two new lines: `env:` and the project line |
| EnvBlock.InjectSubstringOnly | pipeline/pipeline.py:42-48 | when `env:` only occurs inside longer lines, nothing is inserted and the header comes back without its final line break |
| EnvBlock.InsertProjectNameEnvBlock | pipeline/pipeline.py:41-50 | the scan loop, which stops at the first `env:` line, computes the injected header |
| EnvBlock.MyEnvLine | pipeline/pipeline.py:42-45 | `my_env: x` passes the substring guard but is not an `env:` line |
| EnvBlock.SubstringOnlyExample | pipeline/pipeline.py:41-48 | the header `my_env: x` gets no project line |
| EnvBlock.MarkerIsEnvLine | pipeline/pipeline.py:45 | the line `env:` itself strips to `env:` |
| EnvBlock.InjectIntoLeadingEnvBlock | pipeline/pipeline.py:41-48 | a header that opens with `env:` gets the project line second. The entries already in the block follow unchanged, and only a final line break is lost |
| EnvBlock.InjectIntoLoneEnvLine | pipeline/pipeline.py:41-48 | a header that is only `env:` plus a line break comes back ending with the project name, with no line break |
| Pipeline.Path | pipeline/pipeline.py:73-77 | the paths `base.yml` and `<lang>/<step>.yml` all end in `.yml`; `PathInjective` shows distinct files get distinct paths |
| Pipeline.PathInjective | pipeline/pipeline.py:73-77 | distinct template files have distinct paths `base.yml` and `<lang>/<step>.yml`, so keying the directory by template file loses nothing |
| Pipeline.LoadTemplate | pipeline/pipeline.py:35-39 | an existing file reads as its text, a missing file reads as empty text, and non-empty text comes from an existing file |
| Pipeline.StepTemplates | pipeline/pipeline.py:76-82 | the step templates one after another; `StepTemplatesEmpty`, `StepTemplatesAppend`, `MissingTemplatesSkipped` and `AppendStepTemplates` describe it |
| Pipeline.StepTemplatesEmpty | pipeline/pipeline.py:76-82 | the text is empty exactly when every step's template is missing or empty |
| Pipeline.Header | pipeline/pipeline.py:73-74 | the header after injection always holds `env:` |
| Pipeline.Body | pipeline/pipeline.py:59-82 | the step text starts with the `build` template, whatever was requested |
| Pipeline.Document | pipeline/pipeline.py:73-82 | the document starts with the injected header and holds `env:` |
| Pipeline.StepTemplatesAppend | pipeline/pipeline.py:76-82 | the templates of two runs of steps are those of the first run followed by those of the second |
| Pipeline.MissingTemplatesSkipped | pipeline/pipeline.py:76-82 | missing or empty templates add nothing. The text equals that of the found steps alone, in requested order, and every found step was requested and has a non-empty template |
| Pipeline.StepTemplatesSingle | pipeline/pipeline.py:76-80 | a single step contributes exactly its template |
| Pipeline.BodyWithoutBuild | pipeline/pipeline.py:63-82 | for a non-empty request without `build`, the `build` template comes first, then the requested templates in order |
| Pipeline.BodyDefault | pipeline/pipeline.py:59-82 | with no steps requested, the `build` template is followed by the `test` template |
| Pipeline.LoneEnvHeaderJoinsBody | pipeline/pipeline.py:73-80 | with a header template of only `env:` and a line break, the step templates follow the project name directly |
| Pipeline.AppendStepTemplates | pipeline/pipeline.py:76-82 | the loop appends the text of every found template to the header, in step order |
| Pipeline.AssembleDocument | pipeline/pipeline.py:73-82 | the document is the injected header followed by the step templates |
| Pipeline.GeneratePipeline | pipeline/pipeline.py:52-84 | a missing project fails with `ProjectNotFound` before anything else, and the step list is untouched. Otherwise the result is the document of the normalized steps. The caller's list is changed in place exactly when it was non-empty and lacked `build` |
| Pipeline.ParseSteps | pipeline/pipeline.py:89 | an absent or empty `--steps` gives no steps. Otherwise there is one entry per comma-separated piece, one more than the number of commas, and each entry is that piece stripped |
| Pipeline.ParseStepsTokens | pipeline/pipeline.py:89 | the pieces `ParseSteps` strips hold no comma, and joined with commas they give back the `--steps` string |
| Pipeline.Run | pipeline/pipeline.py:87-90 | `main` fails exactly when the project is missing, and otherwise yields the document of the parsed steps |

## Left out

- Argument parsing (`pipeline/pipeline.py:17-33`) is not modelled. `Args` is what it produces: `--lang` is the `Language` datatype (its two `choices`), `--project` is any string, and `--steps` is optional. Usage errors are argparse's behaviour.
- Filesystem access is abstracted. `load_template` (`pipeline/pipeline.py:35-39`) is a lookup in the map `TemplateDir`. The project-directory test (`pipeline/pipeline.py:55-56`) is the `projectExists` parameter. Creating the workflow directory (line 71) and writing `custom.yml` (line 84) become returning the document.
- Path normalization is not modelled. A step name containing `/` or `..` could name, on a real filesystem, the same file as another step or the header. The model keys templates by `TemplateFile`, which `PathInjective` justifies only for paths compared as strings.
- The diagnostics printed on lines 37, 53, 60, 64, 69, 82 and 85 are console output only and are not modelled.
- `AVAILABLE_STEPS` (`pipeline/pipeline.py:12-15`) is never consulted by the code, so step names are not validated in the model either.
- Text.SplitLines: only `\n` is treated as a line boundary. Python's `splitlines` also breaks at `\r`, `\r\n`, `\v`, `\f`, `\x1c`-`\x1e`, `\x85`, `\u2028` and `\u2029`.
- Text.Strip: only ASCII whitespace is removed (space, tab, `\n`, `\r`, `\v`, `\f`). Python's `strip` also removes `\x1c`-`\x1f`, `\x85` and Unicode spaces.
- Decoding template bytes to text (`read_text`) is not modelled: templates are already strings of characters.
