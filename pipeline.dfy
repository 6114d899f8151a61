/** `generate_pipeline` and `main`: parse the requested steps, check that the project
    exists, normalize the steps, and build the workflow text from the header template
    and one template per step. The template directory is a map from template file (its
    path is `Path`) to the file's text; a file the map lacks does not exist. */
module Pipeline {
  import opened Text
  import opened Steps
  import opened EnvBlock

  /** The languages `--lang` accepts. */
  datatype Language = Python | Node

  /** Name of the template subdirectory of a language. */
  function LanguageDir(lang: Language): string {
    match lang
    case Python => "python"
    case Node => "node"
  }

  /** A template file: the header template, or the template of one step of one
      language. */
  datatype TemplateFile = BaseFile | StepFile(lang: Language, step: string)

  /** Path of a template file relative to the template directory: `base.yml`, or
      `<lang>/<step>.yml`. */
  function Path(file: TemplateFile): (r: string)
    ensures |r| > 4 && r[|r| - 4..] == ".yml"
  {
    match file
    case BaseFile => "base.yml"
    case StepFile(lang, step) => LanguageDir(lang) + "/" + step + ".yml"
  }

  /** Distinct template files have distinct paths, so a directory keyed by template
      file is a directory keyed by path. */
  lemma PathInjective(f: TemplateFile, g: TemplateFile)
    requires Path(f) == Path(g)
    ensures f == g
  {
    match (f, g)
    case (BaseFile, BaseFile) =>
    case (BaseFile, StepFile(_, _)) =>
    case (StepFile(_, _), BaseFile) =>
    case (StepFile(lang1, step1), StepFile(lang2, step2)) =>
      assert Path(f)[0] == LanguageDir(lang1)[0] && Path(g)[0] == LanguageDir(lang2)[0];
      var d := LanguageDir(lang1) + "/";
      assert Path(f) == d + step1 + ".yml" && Path(g) == d + step2 + ".yml";
      assert step1 == Path(f)[|d|..|d| + |step1|];
  }

  /** The contents of the template directory: the text of every file that exists. */
  type TemplateDir = map<TemplateFile, string>

  /** `load_template`: the text of the file, or the empty text when it does not exist. */
  function LoadTemplate(dir: TemplateDir, file: TemplateFile): (r: string)
    ensures file in dir ==> r == dir[file]
    ensures file !in dir ==> r == ""
    ensures r != "" ==> file in dir && r == dir[file]
  {
    if file in dir then dir[file] else ""
  }

  /** The templates of `steps` one after another, in order, with nothing between them. */
  function StepTemplates(dir: TemplateDir, lang: Language, steps: seq<string>): string {
    if steps == [] then ""
    else StepTemplates(dir, lang, steps[..|steps| - 1]) + LoadTemplate(dir, StepFile(lang, steps[|steps| - 1]))
  }

  /** The text is empty exactly when every step's template is missing or empty. */
  lemma {:induction false} StepTemplatesEmpty(dir: TemplateDir, lang: Language, steps: seq<string>)
    ensures StepTemplates(dir, lang, steps) == "" <==> forall i | 0 <= i < |steps| :: LoadTemplate(dir, StepFile(lang, steps[i])) == ""
  {
    if steps != [] {
      var init := steps[..|steps| - 1];
      var t := LoadTemplate(dir, StepFile(lang, steps[|steps| - 1]));
      StepTemplatesEmpty(dir, lang, init);
      assert StepTemplates(dir, lang, steps) == StepTemplates(dir, lang, init) + t;
      assert forall i | 0 <= i < |init| :: init[i] == steps[i];
    }
  }

  /** The header template with the project name injected; it always holds `env:`. */
  function Header(dir: TemplateDir, project: string): (r: string)
    ensures Contains(r, Marker)
  {
    InjectedHeader(LoadTemplate(dir, BaseFile), project)
  }

  /** The templates of the normalized steps, which start with the `build` template. */
  function Body(dir: TemplateDir, lang: Language, steps: seq<string>): (r: string)
    ensures LoadTemplate(dir, StepFile(lang, Build)) <= r
  {
    var normalized := Normalized(steps);
    StepTemplatesAppend(dir, lang, [Build], normalized[1..]);
    StepTemplatesSingle(dir, lang, Build);
    assert normalized == [Build] + normalized[1..];
    StepTemplates(dir, lang, normalized)
  }

  /** The workflow text written to `custom.yml` for a request, once the project is
      known to exist. */
  function Document(dir: TemplateDir, lang: Language, project: string, steps: seq<string>): (r: string)
    ensures Header(dir, project) <= r && Contains(r, Marker)
  {
    ContainsAppend(Header(dir, project), Marker, Body(dir, lang, steps));
    Header(dir, project) + Body(dir, lang, steps)
  }

  /** The fatal error of `generate_pipeline`. */
  datatype PipelineError = ProjectNotFound(project: string)

  datatype Result<T> = Ok(value: T) | Err(error: PipelineError)

  /** The steps whose template exists and is not empty. */
  function FoundSteps(dir: TemplateDir, lang: Language, steps: seq<string>): seq<string> {
    if steps == [] then []
    else
      var init := FoundSteps(dir, lang, steps[..|steps| - 1]);
      var last := steps[|steps| - 1];
      if LoadTemplate(dir, StepFile(lang, last)) == "" then init else init + [last]
  }

  /** The templates of two runs of steps are those of the first followed by those of
      the second. */
  lemma {:induction false} StepTemplatesAppend(dir: TemplateDir, lang: Language, a: seq<string>, b: seq<string>)
    ensures StepTemplates(dir, lang, a + b) == StepTemplates(dir, lang, a) + StepTemplates(dir, lang, b)
  {
    if b == [] {
      assert a + b == a;
    } else {
      var ab, init, last := a + b, b[..|b| - 1], b[|b| - 1];
      assert ab[..|ab| - 1] == a + init && ab[|ab| - 1] == last;
      StepTemplatesAppend(dir, lang, a, init);
      var t := LoadTemplate(dir, StepFile(lang, last));
      assert StepTemplates(dir, lang, ab) == StepTemplates(dir, lang, a + init) + t;
      assert StepTemplates(dir, lang, b) == StepTemplates(dir, lang, init) + t;
    }
  }

  /** A step whose template is missing or empty contributes nothing: the text is that
      of the found steps alone, still in the requested order. */
  lemma {:induction false} MissingTemplatesSkipped(dir: TemplateDir, lang: Language, steps: seq<string>)
    ensures StepTemplates(dir, lang, steps) == StepTemplates(dir, lang, FoundSteps(dir, lang, steps))
    ensures forall s | s in FoundSteps(dir, lang, steps) :: s in steps && LoadTemplate(dir, StepFile(lang, s)) != ""
  {
    if steps != [] {
      var init := steps[..|steps| - 1];
      MissingTemplatesSkipped(dir, lang, init);
      var found := FoundSteps(dir, lang, init);
      var last := steps[|steps| - 1];
      if LoadTemplate(dir, StepFile(lang, last)) != "" {
        assert (found + [last])[..|found|] == found;
      }
    }
  }

  /** The templates of a single step are that step's template. */
  lemma StepTemplatesSingle(dir: TemplateDir, lang: Language, step: string)
    ensures StepTemplates(dir, lang, [step]) == LoadTemplate(dir, StepFile(lang, step))
  {
    assert [step][..0] == [];
  }

  /** A non-empty request without `build` yields, after the header, the `build`
      template and then the requested templates in order. */
  lemma BodyWithoutBuild(dir: TemplateDir, lang: Language, steps: seq<string>)
    requires steps != [] && Build !in steps
    ensures Body(dir, lang, steps) == LoadTemplate(dir, StepFile(lang, Build)) + StepTemplates(dir, lang, steps)
  {
    NormalizedPrepends(steps);
    StepTemplatesAppend(dir, lang, [Build], steps);
    StepTemplatesSingle(dir, lang, Build);
  }

  /** With no steps requested the header is followed by the `build` template and the
      `test` template. */
  lemma BodyDefault(dir: TemplateDir, lang: Language)
    ensures Body(dir, lang, []) == LoadTemplate(dir, StepFile(lang, "build")) + LoadTemplate(dir, StepFile(lang, "test"))
  {
    NormalizedDefault();
    var b := StepTemplates(dir, lang, ["build"]);
    assert ["build"][..0] == [] && ["build", "test"][..1] == ["build"];
    assert b == StepTemplates(dir, lang, []) + LoadTemplate(dir, StepFile(lang, "build"));
  }

  /** Nothing separates the header from the first step template: when the header
      template is only the `env:` line, the first template line is appended to the
      `PROJECT_NAME` line itself. */
  lemma LoneEnvHeaderJoinsBody(dir: TemplateDir, lang: Language, project: string, steps: seq<string>)
    requires LoadTemplate(dir, BaseFile) == Marker + "\n"
    ensures Document(dir, lang, project, steps) == Marker + "\n" + ProjectLine(project) + Body(dir, lang, steps)
  {
    InjectIntoLoneEnvLine(project);
  }

  /** `pipeline/pipeline.py:73-82`: load the header and inject the project
      name, then append the step templates. */
  method AssembleDocument(dir: TemplateDir, lang: Language, project: string, steps: seq<string>) returns (content: string)
    ensures content == Header(dir, project) + StepTemplates(dir, lang, steps)
  {
    content := LoadTemplate(dir, BaseFile);
    content := InsertProjectNameEnvBlock(content, project);
    content := AppendStepTemplates(content, dir, lang, steps);
  }

  /** The loop of `generate_pipeline` that appends, in order, each step template that
      exists and is not empty. */
  method AppendStepTemplates(header: string, dir: TemplateDir, lang: Language, steps: seq<string>) returns (content: string)
    ensures content == header + StepTemplates(dir, lang, steps)
  {
    content := header;
    for i := 0 to |steps|
      invariant content == header + StepTemplates(dir, lang, steps[..i])
    {
      var stepContent := LoadTemplate(dir, StepFile(lang, steps[i]));
      assert steps[..i + 1][..i] == steps[..i];
      if stepContent != "" {
        content := content + stepContent;
      }
    }
    assert steps[..|steps|] == steps;
  }

  /** `generate_pipeline`: fail before anything else when the project directory does
      not exist; otherwise normalize the caller's step list (in place when it only
      lacks `build`) and assemble the document. */
  method GeneratePipeline(lang: Language, project: string, steps: StepList, projectExists: bool, dir: TemplateDir)
    returns (r: Result<string>)
    modifies steps
    ensures !projectExists ==> r == Err(ProjectNotFound(project)) && steps.items == old(steps.items)
    ensures projectExists ==> r == Ok(Document(dir, lang, project, old(steps.items)))
    ensures projectExists && old(steps.items) != [] && Build !in old(steps.items) ==> steps.items == Normalized(old(steps.items))
    ensures projectExists && (old(steps.items) == [] || Build in old(steps.items)) ==> steps.items == old(steps.items)
  {
    if !projectExists {
      return Err(ProjectNotFound(project));
    }
    var normalized := NormalizeSteps(steps);
    var content := AssembleDocument(dir, lang, project, normalized.items);
    r := Ok(content);
  }

  /** The command line after `argparse`: the language, the project and the optional
      `--steps` string. */
  datatype Args = Args(lang: Language, project: string, steps: Option<string>)

  datatype Option<T> = None | Some(value: T)

  /** The step list `main` builds from `--steps`: nothing for an absent or empty
      string, otherwise one stripped entry per comma-separated token. */
  function ParseSteps(arg: Option<string>): (r: seq<string>)
    ensures arg.None? || arg.value == "" ==> r == []
    ensures arg.Some? && arg.value != "" ==>
      |r| == |Split(arg.value, ',')| == multiset(arg.value)[','] + 1
      && forall i | 0 <= i < |r| :: r[i] == Strip(Split(arg.value, ',')[i])
  {
    if arg.None? || arg.value == "" then []
    else
      var tokens := Split(arg.value, ',');
      SplitCount(arg.value, ',');
      seq(|tokens|, i requires 0 <= i < |tokens| => Strip(tokens[i]))
  }

  /** The tokens `ParseSteps` strips are exactly the comma-separated pieces of the
      string: none holds a comma and joined with commas they give the string back. */
  lemma ParseStepsTokens(s: string)
    requires s != ""
    ensures var tokens := Split(s, ',');
      && |ParseSteps(Some(s))| == |tokens|
      && Join(tokens, ',') == s
      && forall i | 0 <= i < |tokens| :: ',' !in tokens[i] && ParseSteps(Some(s))[i] == Strip(tokens[i])
  {
    JoinSplit(s, ',');
    SplitCount(s, ',');
  }

  /** `main`: parse `--steps` and generate the pipeline. */
  method Run(args: Args, projectExists: bool, dir: TemplateDir) returns (r: Result<string>)
    ensures !projectExists ==> r == Err(ProjectNotFound(args.project))
    ensures projectExists ==> r == Ok(Document(dir, args.lang, args.project, ParseSteps(args.steps)))
  {
    var steps := new StepList(ParseSteps(args.steps));
    r := GeneratePipeline(args.lang, args.project, steps, projectExists, dir);
  }
}
