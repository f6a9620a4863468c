/**
 * The update records the properties panel sends for the selected block: a content change, a
 * style change, the dynamic toggle, and an edit of one property of the block's field
 * descriptor (with the variable-name sanitiser and the comma-separated options parser).
 *
 * Each handler is a function from the block and the edited value to a `BlockUpdate`; the
 * builder page merges it into the blocks with the block's id.
 */
module PropertiesPanel {
  import opened Wrappers
  import opened Chars
  import opened Types

  // ---------------------------------------------------------------------------------------
  // Content and styles
  // ---------------------------------------------------------------------------------------

  /** `{content}`. */
  function ContentChange(content: string): (r: BlockUpdate)
    ensures r.content == Set(content)
    ensures r.(content := Keep) == NoUpdate
  {
    NoUpdate.(content := Set(content))
  }

  /** A content change replaces the content and nothing else. */
  lemma ContentChangeOnlyContent(b: Block, content: string)
    ensures Merge(b, ContentChange(content)) == b.(content := content)
  {
  }

  /** `{styles: {...block.styles, [key]: value}}`; spreading absent styles spreads nothing. */
  function StyleChange(b: Block, key: string, value: string): (r: BlockUpdate)
    ensures r.(styles := Keep) == NoUpdate
    ensures r.styles.Set? && r.styles.value.Some?
    ensures var s := r.styles.value.value;
      && s.Keys == b.styles.GetOr(map[]).Keys + {key}
      && s[key] == value
      && (forall k :: k in s && k != key ==> b.styles.Some? && s[k] == b.styles.value[k])
  {
    NoUpdate.(styles := Set(Some(b.styles.GetOr(map[])[key := value])))
  }

  /** A style change sets one style key, keeps every other key and value, and changes nothing else. */
  lemma StyleChangeOneKey(b: Block, key: string, value: string)
    ensures Merge(b, StyleChange(b, key, value)).styles.Some?
    ensures var s := Merge(b, StyleChange(b, key, value)).styles.value;
      && s.Keys == b.styles.GetOr(map[]).Keys + {key}
      && s[key] == value
      && (forall k :: k in s && k != key ==> b.styles.Some? && s[k] == b.styles.value[k])
    ensures Merge(b, StyleChange(b, key, value)) == b.(styles := Merge(b, StyleChange(b, key, value)).styles)
  {
  }

  // ---------------------------------------------------------------------------------------
  // The dynamic toggle
  // ---------------------------------------------------------------------------------------

  /** The descriptor a block gets when it is made dynamic. */
  const EmptyField: DynamicField := DynamicField("", "", TextField, Some(false), None, None, None)

  /** Turning the checkbox on attaches an empty descriptor; turning it off removes the descriptor. */
  function DynamicToggle(checked: bool): (r: BlockUpdate)
    ensures r.(isDynamic := Keep, dynamicField := Keep) == NoUpdate
    ensures r.isDynamic == Set(checked) && r.dynamicField.Set?
    ensures r.dynamicField.value.Some? <==> checked
    ensures checked ==> r.dynamicField.value == Some(EmptyField)
  {
    if checked then NoUpdate.(isDynamic := Set(true), dynamicField := Set(Some(EmptyField)))
    else NoUpdate.(isDynamic := Set(false), dynamicField := Set(None))
  }

  /** A block is dynamic exactly when it has a field descriptor. */
  predicate DynamicConsistent(b: Block) {
    b.isDynamic <==> b.dynamicField.Some?
  }

  /** After either toggle the block is dynamic as checked and has a descriptor exactly then. */
  lemma ToggleEstablishesConsistency(b: Block, checked: bool)
    ensures Merge(b, DynamicToggle(checked)).isDynamic == checked
    ensures DynamicConsistent(Merge(b, DynamicToggle(checked)))
    ensures checked ==> Merge(b, DynamicToggle(checked)).dynamicField == Some(EmptyField)
    ensures Merge(b, DynamicToggle(checked)).content == b.content
    ensures Merge(b, DynamicToggle(checked)).styles == b.styles
  {
  }

  // ---------------------------------------------------------------------------------------
  // Edits of the field descriptor
  // ---------------------------------------------------------------------------------------

  /** `value.replace(/[^a-zA-Z0-9_]/g, '_')`: every character outside the class becomes `_`. */
  function SanitizeVariableName(s: string): (r: string)
    ensures |r| == |s|
    ensures forall k :: 0 <= k < |s| && IsWordChar(s[k]) ==> r[k] == s[k]
    ensures forall k :: 0 <= k < |s| && !IsWordChar(s[k]) ==> r[k] == '_'
    ensures forall k :: 0 <= k < |r| ==> IsWordChar(r[k])
  {
    if s == [] then []
    else [if IsWordChar(s[0]) then s[0] else '_'] + SanitizeVariableName(s[1..])
  }

  /** Sanitising twice is sanitising once. */
  lemma SanitizeIdempotent(s: string)
    ensures SanitizeVariableName(SanitizeVariableName(s)) == SanitizeVariableName(s)
  {
    SanitizeKeepsValid(SanitizeVariableName(s));
  }

  /** The sanitiser leaves a name alone exactly when all its characters are in `[A-Za-z0-9_]`. */
  lemma SanitizeKeepsValid(s: string)
    ensures SanitizeVariableName(s) == s <==> forall k :: 0 <= k < |s| ==> IsWordChar(s[k])
  {
    var r := SanitizeVariableName(s);
    if forall k :: 0 <= k < |s| ==> IsWordChar(s[k]) {
      assert forall k :: 0 <= k < |s| ==> r[k] == s[k];
    }
  }

  /** One edit of the descriptor, as `handleDynamicFieldChange(key, value)` receives it. */
  datatype FieldEdit =
    | VariableNameEdit(name: string)
    | FieldLabelEdit(fieldLabel: string)
    | FieldTypeEdit(fieldType: FieldType)
    | RequiredEdit(required: bool)
    | OptionsEdit(options: seq<string>)
    | DefaultValueEdit(defaultValue: Option<Scalar>)
    | DependencyEdit(dependency: Option<FieldDependency>)

  /** `{...dynamicField, [key]: value}`, with the variable name sanitised. */
  function ApplyEdit(f: DynamicField, e: FieldEdit): DynamicField {
    match e
    case VariableNameEdit(name) => f.(variableName := SanitizeVariableName(name))
    case FieldLabelEdit(fieldLabel) => f.(fieldLabel := fieldLabel)
    case FieldTypeEdit(fieldType) => f.(fieldType := fieldType)
    case RequiredEdit(required) => f.(required := Some(required))
    case OptionsEdit(options) => f.(options := Some(options))
    case DefaultValueEdit(defaultValue) => f.(defaultValue := defaultValue)
    case DependencyEdit(dependency) => f.(dependency := dependency)
  }

  /** The update for one edit of the descriptor of a block that has one. */
  function DynamicFieldChange(b: Block, e: FieldEdit): (r: BlockUpdate)
    requires b.dynamicField.Some?
    ensures r.(dynamicField := Keep) == NoUpdate
    ensures r.dynamicField.Set? && r.dynamicField.value.Some?
  {
    NoUpdate.(dynamicField := Set(Some(ApplyEdit(b.dynamicField.value, e))))
  }

  /**
   * An edit changes only the edited property of the descriptor; a variable name is stored
   * sanitised, every other value verbatim, and the rest of the block is unchanged.
   */
  lemma FieldEditChangesOneProperty(b: Block, e: FieldEdit)
    requires b.dynamicField.Some?
    ensures var nb := Merge(b, DynamicFieldChange(b, e));
      && nb == b.(dynamicField := nb.dynamicField)
      && nb.dynamicField.Some?
    ensures var f, g := b.dynamicField.value, Merge(b, DynamicFieldChange(b, e)).dynamicField.value;
      && (g.variableName == if e.VariableNameEdit? then SanitizeVariableName(e.name) else f.variableName)
      && (g.fieldLabel == if e.FieldLabelEdit? then e.fieldLabel else f.fieldLabel)
      && (g.fieldType == if e.FieldTypeEdit? then e.fieldType else f.fieldType)
      && (g.required == if e.RequiredEdit? then Some(e.required) else f.required)
      && (g.options == if e.OptionsEdit? then Some(e.options) else f.options)
      && (g.defaultValue == if e.DefaultValueEdit? then e.defaultValue else f.defaultValue)
      && (g.dependency == if e.DependencyEdit? then e.dependency else f.dependency)
  {
  }

  /** A variable name entered in the panel consists of `[A-Za-z0-9_]` only. */
  lemma EnteredNameIsValid(b: Block, name: string)
    requires b.dynamicField.Some?
    ensures var g := Merge(b, DynamicFieldChange(b, VariableNameEdit(name))).dynamicField.value;
      |g.variableName| == |name| && forall k :: 0 <= k < |g.variableName| ==> IsWordChar(g.variableName[k])
  {
  }

  /** Content, style and descriptor edits keep a block dynamic exactly when it has a descriptor. */
  lemma EditsPreserveConsistency(b: Block, content: string, key: string, value: string, e: FieldEdit)
    requires DynamicConsistent(b)
    ensures DynamicConsistent(Merge(b, ContentChange(content)))
    ensures DynamicConsistent(Merge(b, StyleChange(b, key, value)))
    ensures b.dynamicField.Some? ==> DynamicConsistent(Merge(b, DynamicFieldChange(b, e)))
  {
  }

  // ---------------------------------------------------------------------------------------
  // The options text
  // ---------------------------------------------------------------------------------------

  /** `text.split(',')`: the pieces between commas, at least one. */
  function SplitOnComma(text: string): (pieces: seq<string>)
    ensures |pieces| > 0
    ensures forall i :: 0 <= i < |pieces| ==> ',' !in pieces[i]
  {
    if text == [] then [""]
    else
      var rest := SplitOnComma(text[1..]);
      if text[0] == ',' then [""] + rest else [[text[0]] + rest[0]] + rest[1..]
  }

  /** `parts.join(sep)`. */
  function Join(parts: seq<string>, sep: string): string {
    if parts == [] then ""
    else if |parts| == 1 then parts[0]
    else parts[0] + sep + Join(parts[1..], sep)
  }

  /** Splitting the comma-joined pieces gives the pieces back. */
  lemma {:induction false} SplitJoin(pieces: seq<string>)
    requires |pieces| > 0
    requires forall i :: 0 <= i < |pieces| ==> ',' !in pieces[i]
    ensures SplitOnComma(Join(pieces, ",")) == pieces
    decreases |pieces|, |pieces[0]|
  {
    var p := pieces[0];
    if p == [] {
      if |pieces| > 1 {
        var rest := pieces[1..];
        assert Join(pieces, ",") == [','] + Join(rest, ",");
        assert (p + "," + Join(rest, ","))[1..] == Join(rest, ",");
        SplitJoin(rest);
        assert pieces == [""] + rest;
      }
    } else {
      var shorter := [p[1..]] + pieces[1..];
      assert shorter[1..] == pieces[1..];
      assert Join(pieces, ",") == [p[0]] + Join(shorter, ",");
      assert ',' !in p[1..] by {
        forall k | 0 <= k < |p[1..]|
          ensures p[1..][k] != ','
        {
          assert p[1..][k] == p[k + 1];
        }
      }
      SplitJoin(shorter);
      assert ([p[0]] + Join(shorter, ","))[1..] == Join(shorter, ",");
      assert [p[0]] + p[1..] == p;
    }
  }

  /** Removes leading whitespace. */
  function TrimStart(s: string): (r: string)
    ensures |r| <= |s| && r == s[|s| - |r|..]
    ensures r != [] ==> !IsWhitespace(r[0])
  {
    if s != [] && IsWhitespace(s[0]) then TrimStart(s[1..]) else s
  }

  /** Removes trailing whitespace. */
  function TrimEnd(s: string): (r: string)
    ensures |r| <= |s| && r == s[..|r|]
    ensures r != [] ==> !IsWhitespace(r[|r| - 1])
  {
    if s != [] && IsWhitespace(s[|s| - 1]) then TrimEnd(s[..|s| - 1]) else s
  }

  /** `String.prototype.trim`. */
  function Trim(s: string): string {
    TrimEnd(TrimStart(s))
  }

  /** A trimmed text has no whitespace at either end and lies inside the original. */
  lemma TrimShape(s: string)
    ensures var t := Trim(s);
      (t != [] ==> !IsWhitespace(t[0]) && !IsWhitespace(t[|t| - 1]))
      && exists i, j :: 0 <= i <= j <= |s| && t == s[i..j]
  {
    var a := TrimStart(s);
    var t := TrimEnd(a);
    var i := |s| - |a|;
    assert t == s[i..i + |t|];
    if t != [] {
      assert t[0] == a[0];
    }
  }

  /** A text without whitespace at either end is its own trim. */
  lemma TrimNoop(s: string)
    requires s == [] || (!IsWhitespace(s[0]) && !IsWhitespace(s[|s| - 1]))
    ensures Trim(s) == s
  {
  }

  /** Whitespace in front does not change the trimmed text. */
  lemma TrimSpace(s: string)
    ensures Trim(" " + s) == Trim(s)
  {
    assert (" " + s)[1..] == s;
  }

  /** The `filter(opt => opt)` step: keeps the non-empty pieces, in order. */
  function NonEmpty(pieces: seq<string>): (r: seq<string>)
    ensures |r| <= |pieces|
    ensures forall i :: 0 <= i < |r| ==> r[i] != ""
  {
    if pieces == [] then []
    else if pieces[0] == "" then NonEmpty(pieces[1..])
    else [pieces[0]] + NonEmpty(pieces[1..])
  }

  /** The `map(opt => opt.trim())` step. */
  function TrimAll(pieces: seq<string>): (r: seq<string>)
    ensures |r| == |pieces|
    ensures forall i :: 0 <= i < |pieces| ==> r[i] == Trim(pieces[i])
  {
    seq(|pieces|, i requires 0 <= i < |pieces| => Trim(pieces[i]))
  }

  /** The filter keeps a non-empty piece on its own and drops an empty one. */
  lemma NonEmptySingle(p: string)
    ensures NonEmpty([p]) == (if p == "" then [] else [p])
  {
    assert [p][1..] == [];
  }

  /** The filter works piece by piece: that of a concatenation is the concatenation. */
  lemma {:induction false} NonEmptyConcat(a: seq<string>, b: seq<string>)
    ensures NonEmpty(a + b) == NonEmpty(a) + NonEmpty(b)
    decreases |a|
  {
    if a == [] {
      assert a + b == b;
    } else {
      assert (a + b)[0] == a[0] && (a + b)[1..] == a[1..] + b;
      NonEmptyConcat(a[1..], b);
    }
  }

  /** A text survives the filter exactly when it is one of the pieces and is not empty. */
  lemma {:induction false} NonEmptyMembership(pieces: seq<string>, x: string)
    ensures x in NonEmpty(pieces) <==> x in pieces && x != ""
    decreases |pieces|
  {
    if pieces != [] {
      NonEmptyMembership(pieces[1..], x);
      assert pieces == [pieces[0]] + pieces[1..];
    }
  }

  /**
   * `optionsText.split(',').map(opt => opt.trim()).filter(opt => opt)`: the options are the
   * trimmed comma-separated pieces that are not empty.
   */
  function ParseOptions(text: string): (r: seq<string>)
    ensures forall o :: o in r <==> o != "" && o in TrimAll(SplitOnComma(text))
  {
    var trimmed := TrimAll(SplitOnComma(text));
    forall o ensures o in NonEmpty(trimmed) <==> o != "" && o in trimmed {
      NonEmptyMembership(trimmed, o);
    }
    NonEmpty(trimmed)
  }

  /** What the panel may store as an option: non-empty, trimmed and without a comma. */
  predicate WellFormedOption(o: string) {
    o != [] && !IsWhitespace(o[0]) && !IsWhitespace(o[|o| - 1]) && ',' !in o
  }

  /** A comma-free piece trims to a well-formed option or to nothing. */
  lemma TrimmedPiece(p: string)
    requires ',' !in p
    ensures Trim(p) != "" ==> WellFormedOption(Trim(p))
  {
    TrimShape(p);
    var t := Trim(p);
    var a, c :| 0 <= a <= c <= |p| && t == p[a..c];
    forall k | 0 <= k < |t|
      ensures t[k] != ','
    {
      assert t[k] == p[a + k];
    }
  }

  /** Every parsed option is non-empty, trimmed and comma-free. */
  lemma ParsedOptionsWellFormed(text: string)
    ensures forall i :: 0 <= i < |ParseOptions(text)| ==> WellFormedOption(ParseOptions(text)[i])
  {
    var pieces := SplitOnComma(text);
    var trimmed := TrimAll(pieces);
    forall i | 0 <= i < |trimmed|
      ensures trimmed[i] != "" ==> WellFormedOption(trimmed[i])
    {
      TrimmedPiece(pieces[i]);
    }
    NonEmptyKeeps(trimmed);
  }

  /** Every kept piece is one of the non-empty pieces that satisfy what all of them satisfy. */
  lemma {:induction false} NonEmptyKeeps(pieces: seq<string>)
    requires forall i :: 0 <= i < |pieces| && pieces[i] != "" ==> WellFormedOption(pieces[i])
    ensures forall i :: 0 <= i < |NonEmpty(pieces)| ==> WellFormedOption(NonEmpty(pieces)[i])
    decreases |pieces|
  {
    if pieces != [] {
      var rest := pieces[1..];
      forall i | 0 <= i < |rest| && rest[i] != ""
        ensures WellFormedOption(rest[i])
      {
        assert rest[i] == pieces[i + 1];
      }
      NonEmptyKeeps(rest);
    }
  }

  /** The text the options input shows: `options?.join(', ') || ''`. */
  function DisplayOptions(f: DynamicField): string {
    if f.options.Some? then Join(f.options.value, ", ") else ""
  }

  /** Each option with a space in front. */
  function SpaceAll(options: seq<string>): (r: seq<string>)
    ensures |r| == |options|
  {
    if options == [] then [] else [" " + options[0]] + SpaceAll(options[1..])
  }

  /** The options with a space put in front of all but the first. */
  function Spaced(options: seq<string>): (r: seq<string>)
    requires options != []
  {
    [options[0]] + SpaceAll(options[1..])
  }

  lemma {:induction false} JoinSpaceAll(options: seq<string>)
    requires options != []
    ensures ", " + Join(options, ", ") == "," + Join(SpaceAll(options), ",")
    decreases |options|
  {
    var o := options[0];
    var sp := SpaceAll(options);
    assert sp[0] == " " + o;
    if |options| == 1 {
      assert Join(sp, ",") == " " + o;
      assert ", " + o == "," + (" " + o);
    } else {
      var rest := options[1..];
      JoinSpaceAll(rest);
      assert sp[1..] == SpaceAll(rest);
      var j, js := Join(rest, ", "), Join(SpaceAll(rest), ",");
      assert Join(options, ", ") == o + ", " + j;
      assert Join(sp, ",") == " " + o + "," + js;
      calc {
        ", " + Join(options, ", ");
        ", " + (o + (", " + j));
        ", " + o + ("," + js);
        "," + (" " + o + "," + js);
      }
    }
  }

  /** The options joined with `", "` are the spaced options joined with `","`. */
  lemma JoinDisplayed(options: seq<string>)
    requires options != []
    ensures Join(options, ", ") == Join(Spaced(options), ",")
  {
    if |options| > 1 {
      var o, rest := options[0], options[1..];
      var sp := Spaced(options);
      JoinSpaceAll(rest);
      assert sp[0] == o && sp[1..] == SpaceAll(rest);
      var j, js := Join(rest, ", "), Join(SpaceAll(rest), ",");
      assert Join(options, ", ") == o + ", " + j;
      assert Join(sp, ",") == o + "," + js;
      assert o + ", " + j == o + (", " + j);
      assert o + "," + js == o + ("," + js);
    }
  }

  /** No spaced option holds a comma. */
  lemma SpacedCommaFree(options: seq<string>)
    requires options != []
    requires forall i :: 0 <= i < |options| ==> WellFormedOption(options[i])
    ensures forall i :: 0 <= i < |Spaced(options)| ==> ',' !in Spaced(options)[i]
  {
    var sp := Spaced(options);
    forall i | 0 <= i < |sp|
      ensures ',' !in sp[i]
    {
      if i > 0 {
        SpaceAllAt(options[1..], i - 1);
        assert sp[i] == " " + options[i];
      }
    }
  }

  /** The displayed text, split at the commas, is the options with the spaces after the commas. */
  lemma SplitDisplayed(options: seq<string>)
    requires options != []
    requires forall i :: 0 <= i < |options| ==> WellFormedOption(options[i])
    ensures SplitOnComma(Join(options, ", ")) == Spaced(options)
  {
    JoinDisplayed(options);
    SpacedCommaFree(options);
    SplitJoin(Spaced(options));
  }

  lemma {:induction false} SpaceAllAt(options: seq<string>, i: nat)
    requires i < |options|
    ensures SpaceAll(options)[i] == " " + options[i]
    decreases i
  {
    if i > 0 {
      SpaceAllAt(options[1..], i - 1);
    }
  }

  /** A well-formed option with a space in front trims back to itself. */
  lemma TrimSpacedOption(o: string)
    requires WellFormedOption(o)
    ensures Trim(" " + o) == o
  {
    TrimSpace(o);
    TrimNoop(o);
  }

  /**
   * Parsing the displayed text of well-formed options gives the same options back, so the
   * options survive a round through the input field.
   */
  lemma OptionsRoundTrip(options: seq<string>)
    requires forall i :: 0 <= i < |options| ==> WellFormedOption(options[i])
    ensures ParseOptions(Join(options, ", ")) == options
  {
    if options == [] {
      assert ParseOptions("") == NonEmpty([Trim("")]);
    } else {
      SplitDisplayed(options);
      TrimSpaced(options);
      NonEmptyKeepsAll(options);
    }
  }

  /** Trimming the spaced options gives the options back. */
  lemma TrimSpaced(options: seq<string>)
    requires options != []
    requires forall i :: 0 <= i < |options| ==> WellFormedOption(options[i])
    ensures TrimAll(Spaced(options)) == options
  {
    var sp := Spaced(options);
    var t := TrimAll(sp);
    forall i | 0 <= i < |options|
      ensures t[i] == options[i]
    {
      if i == 0 {
        TrimNoop(options[0]);
      } else {
        SpaceAllAt(options[1..], i - 1);
        assert sp[i] == " " + options[i];
        TrimSpacedOption(options[i]);
      }
    }
  }

  lemma {:induction false} NonEmptyKeepsAll(pieces: seq<string>)
    requires forall i :: 0 <= i < |pieces| ==> pieces[i] != ""
    ensures NonEmpty(pieces) == pieces
    decreases |pieces|
  {
    if pieces != [] {
      NonEmptyKeepsAll(pieces[1..]);
    }
  }

  /** `handleOptionsChange(text)`: the parsed options are stored in the descriptor. */
  function OptionsChange(b: Block, text: string): BlockUpdate
    requires b.dynamicField.Some?
  {
    DynamicFieldChange(b, OptionsEdit(ParseOptions(text)))
  }

  /** Re-entering the displayed options text stores the options the block already has. */
  lemma DisplayedOptionsStable(b: Block)
    requires b.dynamicField.Some? && b.dynamicField.value.options.Some?
    requires forall i :: 0 <= i < |b.dynamicField.value.options.value| ==>
      WellFormedOption(b.dynamicField.value.options.value[i])
    ensures Merge(b, OptionsChange(b, DisplayOptions(b.dynamicField.value))) == b
  {
    var f := b.dynamicField.value;
    var opts := f.options.value;
    OptionsRoundTrip(opts);
    assert ParseOptions(DisplayOptions(f)) == opts;
    StoringSameOptions(f);
    StoringSameDescriptor(b, f);
  }

  /** Storing the options a descriptor already has leaves the descriptor as it is. */
  lemma StoringSameOptions(f: DynamicField)
    requires f.options.Some?
    ensures ApplyEdit(f, OptionsEdit(f.options.value)) == f
  {
  }

  /** Storing the descriptor a block already has leaves the block as it is. */
  lemma StoringSameDescriptor(b: Block, f: DynamicField)
    requires b.dynamicField == Some(f)
    ensures Merge(b, NoUpdate.(dynamicField := Set(Some(f)))) == b
  {
  }
}
