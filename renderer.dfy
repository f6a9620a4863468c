/**
 * The renderer page's loading of an exported pair of artifacts: recognising the form
 * description (`schema.json`) and the template (`template.html`) among the selected files,
 * even when the browser renamed a repeated download to `schema (2).json`, and the order in
 * which a missing file or an unreadable form description is reported.
 *
 * Reading a file is asynchronous in the source; here the text a read delivers and the result
 * of parsing it are parameters of the two completion handlers.
 */
module Renderer {
  import opened Wrappers
  import opened Chars
  import opened Types

  /** A selected file; only its name takes part in the choice. */
  datatype SelectedFile = SelectedFile(name: string)

  /** The two artifacts an export produces. */
  datatype Artifact = SchemaArtifact | TemplateArtifact {
    function Stem(): string {
      match this
      case SchemaArtifact => "schema"
      case TemplateArtifact => "template"
    }

    function Extension(): string {
      match this
      case SchemaArtifact => ".json"
      case TemplateArtifact => ".html"
    }

    /** The name the export gives the file. */
    function ExactName(): string {
      Stem() + Extension()
    }
  }

  // ---------------------------------------------------------------------------------------
  // The optional copy counter `(\s*\(\d+\))`
  // ---------------------------------------------------------------------------------------

  /** `s` is whitespace up to `w`, then `(`, one or more digits and `)`. */
  predicate CounterAt(s: string, w: int) {
    0 <= w && w + 2 < |s| && AllWhitespace(s[..w]) && s[w] == '(' && s[|s| - 1] == ')'
    && AllDigits(s[w + 1..|s| - 1])
  }

  /** The group `\s*\(\d+\)` matches all of `s`, for some length of the whitespace run. */
  ghost predicate MatchesCounter(s: string) {
    exists w :: CounterAt(s, w)
  }

  /** The length of the whitespace run at the start of `s`. */
  function SpaceRun(s: string): (n: nat)
    ensures n <= |s| && AllWhitespace(s[..n])
    ensures n < |s| ==> !IsWhitespace(s[n])
  {
    if s != [] && IsWhitespace(s[0]) then
      var n := 1 + SpaceRun(s[1..]);
      assert forall k :: 1 <= k < n ==> s[..n][k] == s[1..][..n - 1][k - 1];
      n
    else 0
  }

  /** The counter, matched by reading the whitespace run and then the rest. */
  predicate IsCounter(s: string) {
    CounterAt(s, SpaceRun(s))
  }

  /**
   * Reading the whole whitespace run first decides the group exactly: `(` and digits are not
   * whitespace, so the only run length that can work is the longest one.
   */
  lemma CounterMatches(s: string)
    ensures IsCounter(s) <==> MatchesCounter(s)
  {
    if MatchesCounter(s) {
      var w :| CounterAt(s, w);
      assert w == SpaceRun(s);
    }
  }

  // ---------------------------------------------------------------------------------------
  // File names
  // ---------------------------------------------------------------------------------------

  /** `name` is `stem`, then `middle`, then `ext`. */
  predicate SplitsAs(name: string, stem: string, middle: string, ext: string) {
    name == stem + middle + ext
  }

  /** `^stem(\s*\(\d+\))?ext$`, read as what the pattern means. */
  ghost predicate MatchesPattern(name: string, a: Artifact) {
    exists middle :: SplitsAs(name, a.Stem(), middle, a.Extension()) && (middle == [] || MatchesCounter(middle))
  }

  /** `^stem(\s*\(\d+\))?ext$`, decided by cutting off the stem and the extension. */
  predicate IsPatternName(name: string, a: Artifact) {
    var stem, ext := a.Stem(), a.Extension();
    |stem| + |ext| <= |name| && name[..|stem|] == stem && name[|name| - |ext|..] == ext
    && var middle := name[|stem|..|name| - |ext|];
    middle == [] || IsCounter(middle)
  }

  /** The predicate passed to `find`: the exact name, or a name the pattern matches. */
  predicate IsArtifactName(name: string, a: Artifact) {
    name == a.ExactName() || IsPatternName(name, a)
  }

  /** The decision agrees with the pattern, in both directions. */
  lemma PatternNameMatches(name: string, a: Artifact)
    ensures IsPatternName(name, a) <==> MatchesPattern(name, a)
  {
    if IsPatternName(name, a) {
      PatternNameSound(name, a);
    }
    if MatchesPattern(name, a) {
      var middle :| SplitsAs(name, a.Stem(), middle, a.Extension()) && (middle == [] || MatchesCounter(middle));
      PatternNameComplete(name, a, middle);
    }
  }

  /** A name the decision accepts splits into the stem, a matching middle and the extension. */
  lemma PatternNameSound(name: string, a: Artifact)
    requires IsPatternName(name, a)
    ensures MatchesPattern(name, a)
  {
    var stem, ext := a.Stem(), a.Extension();
    var middle := name[|stem|..|name| - |ext|];
    assert name == name[..|stem|] + middle + name[|name| - |ext|..];
    CounterMatches(middle);
    assert SplitsAs(name, stem, middle, ext);
  }

  /** A name made of the stem, a matching middle and the extension is accepted by the decision. */
  lemma PatternNameComplete(name: string, a: Artifact, middle: string)
    requires SplitsAs(name, a.Stem(), middle, a.Extension())
    requires middle == [] || MatchesCounter(middle)
    ensures IsPatternName(name, a)
  {
    var stem, ext := a.Stem(), a.Extension();
    assert name[..|stem|] == stem;
    assert name[|name| - |ext|..] == ext;
    assert name[|stem|..|name| - |ext|] == middle;
    CounterMatches(middle);
  }

  /** The exact-name test adds nothing: the pattern accepts the exact name too. */
  lemma ExactNameMatchesPattern(a: Artifact)
    ensures IsPatternName(a.ExactName(), a)
  {
    var name, stem := a.ExactName(), a.Stem();
    assert name[..|stem|] == stem;
    assert name[|stem|..|name| - |a.Extension()|] == [];
  }

  /** An accepted name starts with the stem and ends with the extension. */
  lemma AcceptedNameShape(name: string, a: Artifact)
    requires IsArtifactName(name, a)
    ensures |a.ExactName()| <= |name|
    ensures name[..|a.Stem()|] == a.Stem() && name[|name| - |a.Extension()|..] == a.Extension()
  {
    if name == a.ExactName() {
      ExactNameMatchesPattern(a);
    }
  }

  /** No name is accepted for both artifacts: the extensions differ. */
  lemma ArtifactNamesDisjoint(name: string)
    ensures !(IsArtifactName(name, SchemaArtifact) && IsArtifactName(name, TemplateArtifact))
  {
    if IsArtifactName(name, SchemaArtifact) && IsArtifactName(name, TemplateArtifact) {
      AcceptedNameShape(name, SchemaArtifact);
      AcceptedNameShape(name, TemplateArtifact);
    }
  }

  // ---------------------------------------------------------------------------------------
  // Choosing the files
  // ---------------------------------------------------------------------------------------

  /** `fileArray.find(...)`: the first selected file whose name is accepted for `a`. */
  function FindArtifact(files: seq<SelectedFile>, a: Artifact): (r: Option<SelectedFile>)
    ensures r.Some? ==> r.value in files && IsArtifactName(r.value.name, a)
  {
    if files == [] then None
    else if IsArtifactName(files[0].name, a) then Some(files[0])
    else FindArtifact(files[1..], a)
  }

  /** Position `i` holds the first file accepted for `a`. */
  predicate FirstAccepted(files: seq<SelectedFile>, a: Artifact, i: int) {
    0 <= i < |files| && IsArtifactName(files[i].name, a)
    && forall j :: 0 <= j < i ==> !IsArtifactName(files[j].name, a)
  }

  /**
   * The chosen file is the first accepted one in selection order, and nothing is chosen
   * exactly when no name is accepted.
   */
  lemma {:induction false} FindArtifactFirst(files: seq<SelectedFile>, a: Artifact)
    ensures FindArtifact(files, a).Some? ==>
      exists i :: FirstAccepted(files, a, i) && files[i] == FindArtifact(files, a).value
    ensures FindArtifact(files, a).None? <==> forall i :: 0 <= i < |files| ==> !IsArtifactName(files[i].name, a)
    decreases |files|
  {
    if files != [] && !IsArtifactName(files[0].name, a) {
      var rest := files[1..];
      FindArtifactFirst(rest, a);
      var r := FindArtifact(rest, a);
      if r.Some? {
        var i :| FirstAccepted(rest, a, i) && rest[i] == r.value;
        forall j | 0 <= j < i + 1
          ensures !IsArtifactName(files[j].name, a)
        {
          if j > 0 {
            assert files[j] == rest[j - 1];
          }
        }
        assert FirstAccepted(files, a, i + 1);
      } else {
        forall i | 0 <= i < |files|
          ensures !IsArtifactName(files[i].name, a)
        {
          if i > 0 {
            assert files[i] == rest[i - 1];
          }
        }
      }
    } else if files != [] {
      assert FirstAccepted(files, a, 0);
    }
  }

  // ---------------------------------------------------------------------------------------
  // Loading
  // ---------------------------------------------------------------------------------------

  const LoadingMessage := "Загрузка файлов..."
  const SchemaMissingMessage := "Ошибка: файл schema.json не найден. Пожалуйста, выберите оба файла."
  const TemplateMissingMessage := "Ошибка: файл template.html не найден. Пожалуйста, выберите оба файла."
  const SchemaParseErrorMessage := "Ошибка загрузки schema.json - некорректный формат JSON"
  const BothLoadedMessage := "Оба файла успешно загружены!"

  /**
   * The value `JSON.parse` made of the form description's text, as far as the page can tell
   * it apart: a falsy value (`null`, `false`, `0` or `""`; the page also starts from `null`),
   * some other value (`true`, a non-zero number, a non-empty string, an array, an object that
   * is not a form description), or a form description.
   */
  datatype SchemaValue =
    | Falsy
    | OtherValue
    | Schema(value: JsonSchema)

  /** What a change of the file input starts. */
  datatype LoadStart =
    | Ignored                                              // nothing was selected
    | Stopped                                              // a file is missing; nothing is read
    | Reading(schemaFile: SelectedFile, templateFile: SelectedFile)  // both reads are started

  /**
   * The renderer page's state. `schemaLoaded` and `templateLoaded`, local to one call of the
   * handler in the source and shared by its two read callbacks, are passed to the callbacks
   * and returned by them.
   */
  class RendererState {
    var schema: SchemaValue
    var template: string
    var loadingStatus: string

    constructor()
      ensures schema == Falsy && template == "" && loadingStatus == ""
      ensures UploadViewShown()
    {
      schema := Falsy;
      template := "";
      loadingStatus := "";
    }

    /** `!schema`: the page shows the upload view instead of the form and the preview. */
    predicate UploadViewShown()
      reads this
    {
      schema.Falsy?
    }

    /**
     * `handleLoadTemplate`. An absent or empty selection changes nothing. Otherwise a missing
     * form description is reported first, then a missing template, and in both cases nothing
     * is read; with both present, both reads start from the first accepted files.
     */
    method HandleLoadTemplate(files: Option<seq<SelectedFile>>) returns (start: LoadStart)
      modifies this
      ensures schema == old(schema) && template == old(template)
      ensures files.None? || files.value == [] ==> start == Ignored && loadingStatus == old(loadingStatus)
      ensures files.Some? && files.value != [] ==>
        var schemaFile, templateFile := FindArtifact(files.value, SchemaArtifact), FindArtifact(files.value, TemplateArtifact);
        if schemaFile.None? then start == Stopped && loadingStatus == SchemaMissingMessage
        else if templateFile.None? then start == Stopped && loadingStatus == TemplateMissingMessage
        else start == Reading(schemaFile.value, templateFile.value) && loadingStatus == LoadingMessage
    {
      if files.None? || |files.value| == 0 {
        return Ignored;
      }
      loadingStatus := LoadingMessage;
      var schemaFile := FindArtifact(files.value, SchemaArtifact);
      var templateFile := FindArtifact(files.value, TemplateArtifact);
      if schemaFile.None? {
        loadingStatus := SchemaMissingMessage;
        return Stopped;
      }
      if templateFile.None? {
        loadingStatus := TemplateMissingMessage;
        return Stopped;
      }
      start := Reading(schemaFile.value, templateFile.value);
    }

    /**
     * The form description's read completed and `parsed` is what `JSON.parse` made of its
     * text (`None` when it threw). A parse failure reports its own message and leaves the
     * form description as it was. Any value that parsed is stored, whatever it is, and, when
     * the template is already in, both are reported loaded: for a falsy value such as `null`
     * that report stands while the page still shows the upload view.
     */
    method OnSchemaRead(parsed: Option<SchemaValue>, templateLoaded: bool) returns (schemaLoaded: bool)
      modifies this
      ensures template == old(template)
      ensures schemaLoaded <==> parsed.Some?
      ensures parsed.None? ==> schema == old(schema) && loadingStatus == SchemaParseErrorMessage
      ensures parsed.Some? ==> schema == parsed.value
      ensures parsed.Some? ==> loadingStatus == (if templateLoaded then BothLoadedMessage else old(loadingStatus))
      ensures parsed == Some(Falsy) && templateLoaded ==> loadingStatus == BothLoadedMessage && UploadViewShown()
    {
      if parsed.None? {
        loadingStatus := SchemaParseErrorMessage;
        return false;
      }
      schema := parsed.value;
      schemaLoaded := true;
      if schemaLoaded && templateLoaded {
        loadingStatus := BothLoadedMessage;
      }
    }

    /** The template's read completed with `text`: it is stored as it is. */
    method OnTemplateRead(text: string, schemaLoaded: bool) returns (templateLoaded: bool)
      modifies this
      ensures schema == old(schema) && template == text && templateLoaded
      ensures loadingStatus == (if schemaLoaded then BothLoadedMessage else old(loadingStatus))
    {
      template := text;
      templateLoaded := true;
      if schemaLoaded && templateLoaded {
        loadingStatus := BothLoadedMessage;
      }
    }
  }
}
