/**
 * Export of a block list: the form description (a JSON Schema object) derived from the
 * dynamic blocks, the HTML email template with `{{variable}}` placeholders, and the gate that
 * refuses to export a template without any dynamic field.
 *
 * Both generators walk the block list once, in order; they are methods with loops, each
 * proved equal to a specification function over the list, and the properties of the export
 * are lemmas about those functions.
 */
module Export {
  import opened Wrappers
  import opened Chars
  import opened Types

  // ---------------------------------------------------------------------------------------
  // The form description
  // ---------------------------------------------------------------------------------------

  /** A block yields a property when it is dynamic, has a field descriptor and a non-empty variable name. */
  predicate Contributes(b: Block) {
    b.isDynamic && b.dynamicField.Some? && b.dynamicField.value.variableName != ""
  }

  /** The variable name of a contributing block. */
  function NameOf(b: Block): string
    requires Contributes(b)
  {
    b.dynamicField.value.variableName
  }

  /** A contributing block whose field is marked required (`required: true`). */
  predicate RequiredContributor(b: Block) {
    Contributes(b) && b.dynamicField.value.required == Some(true)
  }

  /** The property a field descriptor yields: its JSON type, its title and its enumeration. */
  function PropertyFor(f: DynamicField): (p: SchemaProperty)
    ensures p.propertyType == "number" <==> f.fieldType == NumberField
    ensures p.propertyType == "boolean" <==> f.fieldType == CheckboxField
    ensures p.propertyType in {"string", "number", "boolean"}
    ensures f.fieldLabel != "" ==> p.title == f.fieldLabel
    ensures f.fieldLabel == "" ==> p.title == f.variableName
    ensures p.enumValues.Some? <==> f.fieldType == SelectField && f.options.Some? && |f.options.value| > 0
    ensures p.enumValues.Some? ==> p.enumValues == f.options
  {
    var schemaType :=
      match f.fieldType
      case NumberField => "number"
      case CheckboxField => "boolean"
      case _ => "string";
    var title := if f.fieldLabel != "" then f.fieldLabel else f.variableName;
    var enumValues :=
      if f.fieldType == SelectField && f.options.Some? && |f.options.value| > 0 then f.options else None;
    SchemaProperty(schemaType, title, enumValues)
  }

  /** The `properties` dictionary after the blocks have been visited in order. */
  function Properties(blocks: seq<Block>): (r: map<string, SchemaProperty>)
    ensures "" !in r
  {
    if blocks == [] then map[]
    else
      var rest := Properties(blocks[..|blocks| - 1]);
      var b := blocks[|blocks| - 1];
      if Contributes(b) then rest[NameOf(b) := PropertyFor(b.dynamicField.value)] else rest
  }

  /** The `required` array after the blocks have been visited in order. */
  function RequiredNames(blocks: seq<Block>): (r: seq<string>)
    ensures |r| <= |blocks|
    ensures "" !in r
  {
    if blocks == [] then []
    else
      var rest := RequiredNames(blocks[..|blocks| - 1]);
      var b := blocks[|blocks| - 1];
      if RequiredContributor(b) then rest + [NameOf(b)] else rest
  }

  /** The form description of a block list. */
  function SchemaOf(blocks: seq<Block>): (s: JsonSchema)
    ensures s.schemaType == "object"
    ensures blocks == [] ==> s.properties == map[] && s.required == []
  {
    JsonSchema("object", Properties(blocks), RequiredNames(blocks))
  }

  /** The walk over the blocks that fills `properties` and appends to `required`. */
  method GenerateSchema(blocks: seq<Block>) returns (schema: JsonSchema)
    ensures schema == SchemaOf(blocks)
  {
    var properties: map<string, SchemaProperty> := map[];
    var required: seq<string> := [];
    for i := 0 to |blocks|
      invariant properties == Properties(blocks[..i])
      invariant required == RequiredNames(blocks[..i])
    {
      var b := blocks[i];
      assert blocks[..i + 1][..i] == blocks[..i];
      if b.isDynamic && b.dynamicField.Some? {
        var f := b.dynamicField.value;
        if f.variableName != "" {
          var schemaType := "string";
          if f.fieldType == NumberField {
            schemaType := "number";
          }
          if f.fieldType == CheckboxField {
            schemaType := "boolean";
          }
          var title := if f.fieldLabel != "" then f.fieldLabel else f.variableName;
          var enumValues: Option<seq<string>> := None;
          if f.fieldType == SelectField && f.options.Some? && |f.options.value| > 0 {
            enumValues := f.options;
          }
          properties := properties[f.variableName := SchemaProperty(schemaType, title, enumValues)];
          if f.required == Some(true) {
            required := required + [f.variableName];
          }
        }
      }
    }
    assert blocks[..|blocks|] == blocks;
    schema := JsonSchema("object", properties, required);
  }

  /** The variable names of the contributing blocks. */
  ghost function ContributingNames(blocks: seq<Block>): set<string>
  {
    set i | 0 <= i < |blocks| && Contributes(blocks[i]) :: NameOf(blocks[i])
  }

  /** The keys of `properties` are exactly the variable names of the contributing blocks. */
  lemma {:induction false} PropertyKeys(blocks: seq<Block>)
    ensures Properties(blocks).Keys == ContributingNames(blocks)
  {
    if blocks != [] {
      var init := blocks[..|blocks| - 1];
      PropertyKeys(init);
      forall k | k in ContributingNames(blocks)
        ensures k in Properties(blocks)
      {
        var i :| 0 <= i < |blocks| && Contributes(blocks[i]) && NameOf(blocks[i]) == k;
        if i < |init| {
          assert init[i] == blocks[i];
        }
      }
      forall k | k in Properties(blocks)
        ensures k in ContributingNames(blocks)
      {
        if k !in Properties(init) {
          assert NameOf(blocks[|blocks| - 1]) == k;
        } else {
          var i :| 0 <= i < |init| && Contributes(init[i]) && NameOf(init[i]) == k;
          assert blocks[i] == init[i];
        }
      }
    }
  }

  /** Export goes ahead exactly when some block contributes a property. */
  lemma PropertiesNonEmpty(blocks: seq<Block>)
    ensures |Properties(blocks)| > 0 <==> exists i :: 0 <= i < |blocks| && Contributes(blocks[i])
  {
    PropertyKeys(blocks);
    if exists i :: 0 <= i < |blocks| && Contributes(blocks[i]) {
      var i :| 0 <= i < |blocks| && Contributes(blocks[i]);
      assert NameOf(blocks[i]) in Properties(blocks);
    } else {
      assert Properties(blocks).Keys == {};
    }
  }

  /**
   * When several blocks share a variable name, the property comes from the last of them:
   * a contributing block that no later block overrides determines the property of its name.
   */
  lemma {:induction false} LastContributorWins(blocks: seq<Block>, i: nat)
    requires i < |blocks| && Contributes(blocks[i])
    requires forall j :: i < j < |blocks| && Contributes(blocks[j]) ==> NameOf(blocks[j]) != NameOf(blocks[i])
    ensures NameOf(blocks[i]) in Properties(blocks)
    ensures Properties(blocks)[NameOf(blocks[i])] == PropertyFor(blocks[i].dynamicField.value)
  {
    var last := |blocks| - 1;
    var init := blocks[..last];
    if i < last {
      assert init[i] == blocks[i];
      forall j | i < j < |init| && Contributes(init[j])
        ensures NameOf(init[j]) != NameOf(init[i])
      {
        assert init[j] == blocks[j];
      }
      LastContributorWins(init, i);
    }
  }

  /** `required` is built block by block: the entries of a concatenation are those of its parts. */
  lemma {:induction false} RequiredConcat(a: seq<Block>, b: seq<Block>)
    ensures RequiredNames(a + b) == RequiredNames(a) + RequiredNames(b)
    decreases |b|
  {
    if b != [] {
      var ab := a + b;
      assert ab[..|ab| - 1] == a + b[..|b| - 1];
      assert ab[|ab| - 1] == b[|b| - 1];
      RequiredConcat(a, b[..|b| - 1]);
    } else {
      assert a + b == a;
    }
  }

  /** One block adds its name to `required` exactly when it is a required contributor. */
  lemma RequiredSingle(b: Block)
    ensures RequiredNames([b]) == if RequiredContributor(b) then [NameOf(b)] else []
  {
    assert [b][..0] == [];
  }

  /** Every entry of `required` is a key of `properties`. */
  lemma {:induction false} RequiredAreProperties(blocks: seq<Block>)
    ensures forall k :: k in RequiredNames(blocks) ==> k in Properties(blocks)
  {
    if blocks != [] {
      var init := blocks[..|blocks| - 1];
      RequiredAreProperties(init);
      PropertyKeys(init);
      PropertyKeys(blocks);
      forall k | k in RequiredNames(blocks)
        ensures k in Properties(blocks)
      {
        if k in RequiredNames(init) {
          assert k in ContributingNames(init);
          var i :| 0 <= i < |init| && Contributes(init[i]) && NameOf(init[i]) == k;
          assert blocks[i] == init[i];
          assert k in ContributingNames(blocks);
        }
      }
    }
  }

  /** A name is in `required` exactly when some required contributor has it. */
  lemma {:induction false} RequiredMembership(blocks: seq<Block>, k: string)
    ensures k in RequiredNames(blocks) <==>
      exists i :: 0 <= i < |blocks| && RequiredContributor(blocks[i]) && NameOf(blocks[i]) == k
  {
    if blocks != [] {
      var last := |blocks| - 1;
      var init := blocks[..last];
      RequiredMembership(init, k);
      if exists i :: 0 <= i < |blocks| && RequiredContributor(blocks[i]) && NameOf(blocks[i]) == k {
        var i :| 0 <= i < |blocks| && RequiredContributor(blocks[i]) && NameOf(blocks[i]) == k;
        if i < last {
          assert init[i] == blocks[i];
        }
      }
      if k in RequiredNames(init) {
        var i :| 0 <= i < |init| && RequiredContributor(init[i]) && NameOf(init[i]) == k;
        assert blocks[i] == init[i];
      }
    }
  }

  // ---------------------------------------------------------------------------------------
  // The template
  // ---------------------------------------------------------------------------------------

  /** The fixed head of the document, up to and including the opening of the email container. */
  const TemplatePrefix: string :=
    "<!DOCTYPE html>\n"
    + "<html lang=\"en\">\n"
    + "<head>\n"
    + "  <meta charset=\"UTF-8\">\n"
    + "  <meta name=\"viewport\" content=\"width=device-width, initial-scale=1.0\">\n"
    + "  <title>Email Template</title>\n"
    + "  <style>\n"
    + "    body {\n"
    + "      font-family: Arial, sans-serif;\n"
    + "      margin: 0;\n"
    + "      padding: 20px;\n"
    + "      background-color: #f4f4f4;\n"
    + "    }\n"
    + "    .email-container {\n"
    + "      max-width: 600px;\n"
    + "      margin: 0 auto;\n"
    + "      background-color: #ffffff;\n"
    + "      padding: 20px;\n"
    + "    }\n"
    + "  </style>\n"
    + "</head>\n"
    + "<body>\n"
    + "  <div class=\"email-container\">\n"

  /** The fixed tail of the document. */
  const TemplateSuffix: string := "  </div>\n</body>\n</html>"

  /** A placeholder `{{name}}` for the email renderer. */
  function Placeholder(name: string): (r: string)
    ensures |r| == |name| + 4
    ensures r[..2] == "{{" && r[|r| - 2..] == "}}"
    ensures r[2..|r| - 2] == name
  {
    "{{" + name + "}}"
  }

  /** `${block.styles?.key}`: the style value, or the text `undefined` when it is absent. */
  function StyleText(b: Block, key: string): (r: string)
    ensures b.styles.Some? && key in b.styles.value ==> r == b.styles.value[key]
    ensures !(b.styles.Some? && key in b.styles.value) ==> r == "undefined"
  {
    if b.styles.Some? && key in b.styles.value then b.styles.value[key] else "undefined"
  }

  /** `block.styles?.key || fallback`: the style value unless it is absent or empty. */
  function StyleOr(b: Block, key: string, fallback: string): (r: string)
    ensures b.styles.Some? && key in b.styles.value && b.styles.value[key] != "" ==> r == b.styles.value[key]
    ensures !(b.styles.Some? && key in b.styles.value && b.styles.value[key] != "") ==> r == fallback
    ensures r != "" || fallback == ""
  {
    if b.styles.Some? && key in b.styles.value && b.styles.value[key] != "" then b.styles.value[key] else fallback
  }

  /** `${block.dynamicField?.variableName}`: the variable name, or `undefined` without a descriptor. */
  function VariableText(b: Block): string {
    if b.dynamicField.Some? then b.dynamicField.value.variableName else "undefined"
  }

  /** What a text, image or button block shows: its placeholder when dynamic, otherwise its content. */
  function Shown(b: Block): (r: string)
    ensures b.isDynamic ==> r == Placeholder(VariableText(b))
    ensures !b.isDynamic ==> r == b.content
  {
    if b.isDynamic then Placeholder(VariableText(b)) else b.content
  }

  /** What a heading shows: its placeholder when it has a variable, otherwise its content. */
  function HeadingShown(b: Block): (r: string)
    ensures Contributes(b) ==> r == Placeholder(NameOf(b))
    ensures !Contributes(b) ==> r == b.content
  {
    if Contributes(b) then Placeholder(b.dynamicField.value.variableName) else b.content
  }

  /** The placeholder of the item at zero-based `index` of a dynamic list: `{{name_item_<index + 1>}}`. */
  function ItemPlaceholder(name: string, index: nat): string {
    Placeholder(name + "_item_" + NatToString(index + 1))
  }

  /** The text of the item at `index`: its placeholder in a list with a variable, otherwise the item itself. */
  function ItemShown(b: Block, item: string, index: nat): string {
    if Contributes(b) then ItemPlaceholder(b.dynamicField.value.variableName, index) else item
  }

  function ListItem(content: string): string {
    "<li>" + content + "</li>"
  }

  /** One `<li>` element per item, in order: `items.map(...)`. */
  function ItemElements(b: Block, items: seq<string>): (r: seq<string>)
    ensures |r| == |items|
    ensures forall k :: 0 <= k < |items| ==> r[k] == ListItem(ItemShown(b, items[k], k))
  {
    seq(|items|, k requires 0 <= k < |items| => ListItem(ItemShown(b, items[k], k)))
  }

  /** The `<li>` elements joined without separator: `.join('')`. */
  function ItemsHtml(b: Block, items: seq<string>): string {
    Concat(ItemElements(b, items))
  }

  // Each fragment is an opening text, the part that varies with the block's content or
  // variable (`Inner`), and a closing text.

  function TextOpen(b: Block): string {
    "    <div style=\"font-size: " + StyleText(b, "fontSize") + "; color: " + StyleText(b, "color")
    + "; text-align: " + StyleText(b, "textAlign") + "; padding: " + StyleText(b, "padding") + ";\">\n      "
  }

  const TextClose: string := "\n    </div>\n"

  const ImageOpen: string := "    <div style=\"text-align: center; padding: 10px;\">\n      <img src=\""

  const ImageClose: string := "\" alt=\"Email image\" style=\"max-width: 100%; height: auto;\" />\n    </div>\n"

  function ButtonOpen(b: Block): string {
    "    <div style=\"text-align: center; padding: 10px;\">\n"
    + "      <a href=\"#\" style=\"display: inline-block; font-size: " + StyleText(b, "fontSize")
    + "; color: " + StyleText(b, "color") + "; background-color: " + StyleText(b, "backgroundColor")
    + "; padding: " + StyleText(b, "padding") + "; text-decoration: none; border-radius: 4px;\">\n        "
  }

  const ButtonClose: string := "\n      </a>\n    </div>\n"

  const DividerHtml: string := "    <hr style=\"margin: 20px 0; border: none; border-top: 1px solid #ddd;\" />\n"

  const SpacerHtml: string := "    <div style=\"height: 30px;\"></div>\n"

  /** The heading element: `level` from the styles, `h2` when absent or empty. */
  function HeadingLevel(b: Block): string {
    StyleOr(b, "level", "h2")
  }

  function HeadingOpen(b: Block): string {
    "    <" + HeadingLevel(b) + " style=\"font-size: " + StyleOr(b, "fontSize", "24px")
    + "; color: " + StyleOr(b, "color", "#111827") + "; text-align: " + StyleOr(b, "textAlign", "left")
    + "; padding: " + StyleOr(b, "padding", "10px") + "; font-weight: " + StyleOr(b, "fontWeight", "700")
    + "; margin: 0;\">"
  }

  /** The list element: `listType` from the styles, `ul` when absent or empty. */
  function ListTag(b: Block): string {
    StyleOr(b, "listType", "ul")
  }

  function ListOpen(b: Block): string {
    "    <" + ListTag(b) + " style=\"font-size: " + StyleOr(b, "fontSize", "16px")
    + "; color: " + StyleOr(b, "color", "#333333") + "; padding: " + StyleOr(b, "padding", "10px")
    + "; list-style-type: " + StyleOr(b, "listStyle", "disc") + "; margin: 0; padding-left: 20px;\">"
  }

  function CloseTag(tag: string): string {
    "</" + tag + ">\n"
  }

  /** The text before the varying part of a block's fragment. */
  function Open(b: Block): string {
    match b.blockType
    case TextBlock => TextOpen(b)
    case ImageBlock => ImageOpen
    case ButtonBlock => ButtonOpen(b)
    case DividerBlock => DividerHtml
    case SpacerBlock => SpacerHtml
    case HeadingBlock => HeadingOpen(b)
    case ListBlock => ListOpen(b)
    case _ => ""
  }

  /** The varying part of a block's fragment: what it shows, or its list items. */
  function Inner(b: Block): string {
    match b.blockType
    case TextBlock => Shown(b)
    case ImageBlock => Shown(b)
    case ButtonBlock => Shown(b)
    case HeadingBlock => HeadingShown(b)
    case ListBlock => ItemsHtml(b, b.listItems.GetOr([]))
    case _ => ""
  }

  /** The text after the varying part of a block's fragment. */
  function Close(b: Block): string {
    match b.blockType
    case TextBlock => TextClose
    case ImageBlock => ImageClose
    case ButtonBlock => ButtonClose
    case HeadingBlock => CloseTag(HeadingLevel(b))
    case ListBlock => CloseTag(ListTag(b))
    case _ => ""
  }

  /** The HTML of one block. */
  function Fragment(b: Block): string {
    Open(b) + Inner(b) + Close(b)
  }

  /** Tables and choice groups produce no HTML. */
  predicate Silent(b: Block) {
    b.blockType == TableBlock || b.blockType == CheckboxGroupBlock || b.blockType == RadioGroupBlock
  }

  lemma SilentFragment(b: Block)
    ensures Silent(b) <==> Fragment(b) == ""
  {
    if !Silent(b) {
      assert |Open(b)| > 0;
    }
  }

  /** The concatenation of a list of texts, `parts.join('')`. */
  function Concat(parts: seq<string>): string
  {
    if parts == [] then "" else Concat(parts[..|parts| - 1]) + parts[|parts| - 1]
  }

  /** The fragment of each block, position by position. */
  function Fragments(blocks: seq<Block>): (r: seq<string>)
    ensures |r| == |blocks|
    ensures forall i :: 0 <= i < |blocks| ==> r[i] == Fragment(blocks[i])
  {
    seq(|blocks|, i requires 0 <= i < |blocks| => Fragment(blocks[i]))
  }

  /** The fragments of the blocks, in list order. */
  function Body(blocks: seq<Block>): string {
    Concat(Fragments(blocks))
  }

  /**
   * The exported HTML document. Whatever the blocks, it opens with the fixed head and the
   * container and closes them.
   */
  function Template(blocks: seq<Block>): (r: string)
    ensures FramedBy(r, TemplatePrefix, TemplateSuffix)
  {
    Framed(TemplatePrefix, Body(blocks), TemplateSuffix);
    TemplatePrefix + Body(blocks) + TemplateSuffix
  }

  /** `s` starts with `head` and ends with `tail`, and they do not overlap. */
  predicate FramedBy(s: string, head: string, tail: string) {
    |head| + |tail| <= |s| && s[..|head|] == head && s[|s| - |tail|..] == tail
  }

  lemma Framed(head: string, middle: string, tail: string)
    ensures FramedBy(head + middle + tail, head, tail)
  {
    var s := head + middle + tail;
    assert s[..|head|] == head;
    assert s[|s| - |tail|..] == tail;
  }

  lemma ConcatSnoc(parts: seq<string>, i: nat)
    requires i < |parts|
    ensures Concat(parts[..i]) + parts[i] == Concat(parts[..i + 1])
  {
    assert parts[..i + 1][..i] == parts[..i];
  }

  /** The walk over the blocks that appends one fragment per block to the document. */
  method GenerateTemplate(blocks: seq<Block>) returns (html: string)
    ensures html == Template(blocks)
  {
    ghost var parts := Fragments(blocks);
    html := TemplatePrefix;
    assert parts[..0] == [];
    for i := 0 to |blocks|
      invariant html == TemplatePrefix + Concat(parts[..i])
    {
      ConcatSnoc(parts, i);
      AppendAssoc(TemplatePrefix, Concat(parts[..i]), parts[i]);
      html := html + Fragment(blocks[i]);
    }
    assert parts[..|blocks|] == parts;
    html := html + TemplateSuffix;
  }

  /** `needle` appears in `hay` starting at position `k`. */
  ghost predicate OccursAt(needle: string, hay: string, k: int) {
    0 <= k <= |hay| - |needle| && hay[k..k + |needle|] == needle
  }

  /** `needle` appears somewhere in `hay`. */
  ghost predicate Occurs(needle: string, hay: string) {
    exists k :: OccursAt(needle, hay, k)
  }

  lemma OccursBetween(a: string, needle: string, c: string)
    ensures Occurs(needle, a + needle + c)
  {
    var hay := a + needle + c;
    assert hay[|a|..|a| + |needle|] == needle;
    assert OccursAt(needle, hay, |a|);
  }

  lemma OccursWithin(needle: string, x: string, a: string, c: string)
    requires Occurs(needle, x)
    ensures Occurs(needle, a + x + c)
  {
    var k :| OccursAt(needle, x, k);
    var hay := a + x + c;
    assert hay[|a| + k..|a| + k + |needle|] == x[k..k + |needle|];
    assert OccursAt(needle, hay, |a| + k);
  }

  /** The concatenation of joined lists is the concatenation of their concatenations. */
  lemma {:induction false} ConcatAppend(a: seq<string>, b: seq<string>)
    ensures Concat(a + b) == Concat(a) + Concat(b)
    decreases |b|
  {
    if b != [] {
      var ab := a + b;
      assert ab[..|ab| - 1] == a + b[..|b| - 1];
      assert ab[|ab| - 1] == b[|b| - 1];
      ConcatAppend(a, b[..|b| - 1]);
    } else {
      assert a + b == a;
    }
  }

  /** The body of a concatenation is the concatenation of the bodies: blocks keep their order. */
  lemma BodyConcat(a: seq<Block>, b: seq<Block>)
    ensures Body(a + b) == Body(a) + Body(b)
  {
    assert Fragments(a + b) == Fragments(a) + Fragments(b);
    ConcatAppend(Fragments(a), Fragments(b));
  }

  lemma ConcatSingle(x: string)
    ensures Concat([x]) == x
  {
    assert [x][..0] == [];
  }

  /** A part sits in the concatenation between the parts before and after it. */
  lemma ConcatAround(parts: seq<string>, i: nat)
    requires i < |parts|
    ensures Concat(parts) == Concat(parts[..i]) + parts[i] + Concat(parts[i + 1..])
  {
    var pre, p, post := parts[..i], parts[i], parts[i + 1..];
    var upto := parts[..i + 1];
    assert parts == upto + post;
    ConcatAppend(upto, post);
    ConcatSnoc(parts, i);
  }

  /** The varying part of every block appears in the exported document. */
  lemma InnerInTemplate(blocks: seq<Block>, i: nat)
    requires i < |blocks|
    ensures Occurs(Inner(blocks[i]), Template(blocks))
  {
    var b := blocks[i];
    var parts := Fragments(blocks);
    OccursBetween(Open(b), Inner(b), Close(b));
    ConcatAround(parts, i);
    OccursWithin(Inner(b), parts[i], Concat(parts[..i]), Concat(parts[i + 1..]));
    OccursWithin(Inner(b), Body(blocks), TemplatePrefix, TemplateSuffix);
  }

  function WithoutSilent(blocks: seq<Block>): (r: seq<Block>)
    ensures forall k :: 0 <= k < |r| ==> !Silent(r[k])
  {
    if blocks == [] then []
    else
      var rest := WithoutSilent(blocks[..|blocks| - 1]);
      if Silent(blocks[|blocks| - 1]) then rest else rest + [blocks[|blocks| - 1]]
  }

  /** The body grows by one fragment per block. */
  lemma BodySnoc(blocks: seq<Block>, b: Block)
    ensures Body(blocks + [b]) == Body(blocks) + Fragment(b)
  {
    BodyConcat(blocks, [b]);
    assert Fragments([b]) == [Fragment(b)];
    ConcatSingle(Fragment(b));
  }

  lemma {:induction false} BodyIgnoresSilent(blocks: seq<Block>)
    ensures Body(WithoutSilent(blocks)) == Body(blocks)
  {
    if blocks != [] {
      var init := blocks[..|blocks| - 1];
      var last := blocks[|blocks| - 1];
      assert blocks == init + [last];
      BodyIgnoresSilent(init);
      BodySnoc(init, last);
      SilentFragment(last);
      if !Silent(last) {
        BodySnoc(WithoutSilent(init), last);
      }
    }
  }

  /** Tables and choice groups can be dropped from the list without changing the template. */
  lemma SilentBlocksEmitNothing(blocks: seq<Block>)
    ensures Template(WithoutSilent(blocks)) == Template(blocks)
  {
    BodyIgnoresSilent(blocks);
  }

  /**
   * Every contributing text, image, button or heading block puts the placeholder of its
   * variable into the exported document, so the form's value reaches the email.
   */
  lemma PlaceholderInTemplate(blocks: seq<Block>, i: nat)
    requires i < |blocks| && Contributes(blocks[i])
    requires blocks[i].blockType in {TextBlock, ImageBlock, ButtonBlock, HeadingBlock}
    ensures Occurs(Placeholder(NameOf(blocks[i])), Template(blocks))
  {
    InnerInTemplate(blocks, i);
  }

  /** A static text, image, button or heading block puts its content into the document. */
  lemma ContentInTemplate(blocks: seq<Block>, i: nat)
    requires i < |blocks| && !blocks[i].isDynamic
    requires blocks[i].blockType in {TextBlock, ImageBlock, ButtonBlock, HeadingBlock}
    ensures Occurs(blocks[i].content, Template(blocks))
  {
    InnerInTemplate(blocks, i);
  }

  /** The item at position `k` of the list becomes a `<li>` element of the list's HTML. */
  lemma ItemInItemsHtml(b: Block, items: seq<string>, k: nat)
    requires k < |items|
    ensures Occurs(ListItem(ItemShown(b, items[k], k)), ItemsHtml(b, items))
  {
    var elements := ItemElements(b, items);
    ConcatAround(elements, k);
    OccursBetween(Concat(elements[..k]), elements[k], Concat(elements[k + 1..]));
  }

  lemma OccursTransitive(x: string, y: string, z: string)
    requires Occurs(x, y) && Occurs(y, z)
    ensures Occurs(x, z)
  {
    var j :| OccursAt(x, y, j);
    var k :| OccursAt(y, z, k);
    assert forall t :: 0 <= t < |x| ==> z[k + j + t] == y[j + t] == x[t];
    assert z[k + j..k + j + |x|] == x;
    assert OccursAt(x, z, k + j);
  }

  lemma ListInner(b: Block)
    requires b.blockType == ListBlock
    ensures Inner(b) == ItemsHtml(b, b.listItems.GetOr([]))
  {
  }

  /** In a list with a variable, the item at position `k` is written as its numbered placeholder. */
  lemma DynamicItemInItemsHtml(b: Block, items: seq<string>, k: nat)
    requires Contributes(b) && k < |items|
    ensures Occurs(ListItem(ItemPlaceholder(NameOf(b), k)), ItemsHtml(b, items))
  {
    ItemInItemsHtml(b, items, k);
  }

  /**
   * A dynamic list with a variable name emits, for its item at zero-based position `k`,
   * the element `<li>{{name_item_<k + 1>}}</li>` in the document.
   */
  lemma ListItemPlaceholderInTemplate(blocks: seq<Block>, i: nat, k: nat)
    requires i < |blocks| && blocks[i].blockType == ListBlock && Contributes(blocks[i])
    requires blocks[i].listItems.Some? && k < |blocks[i].listItems.value|
    ensures Occurs(ListItem(ItemPlaceholder(NameOf(blocks[i]), k)), Template(blocks))
  {
    var b := blocks[i];
    DynamicItemInItemsHtml(b, b.listItems.value, k);
    ListInner(b);
    InnerInTemplate(blocks, i);
    OccursTransitive(ListItem(ItemPlaceholder(NameOf(b), k)), Inner(b), Template(blocks));
  }

  /** In a list with a variable, the `<li>` elements depend only on how many items there are. */
  lemma DynamicItemsIgnoreText(b: Block, xs: seq<string>, ys: seq<string>)
    requires Contributes(b) && |xs| == |ys|
    ensures ItemsHtml(b, xs) == ItemsHtml(b, ys)
  {
    assert ItemElements(b, xs) == ItemElements(b, ys);
  }

  /** In a list without a variable, each item is written as it is. */
  lemma StaticItemInItemsHtml(b: Block, items: seq<string>, k: nat)
    requires !Contributes(b) && k < |items|
    ensures Occurs(ListItem(items[k]), ItemsHtml(b, items))
  {
    ItemInItemsHtml(b, items, k);
  }

  // ---------------------------------------------------------------------------------------
  // The export gate
  // ---------------------------------------------------------------------------------------

  const NoDynamicFieldsWarning: string :=
    "Предупреждение: Динамические поля не найдены! Пожалуйста, добавьте хотя бы одно динамическое поле с Именем переменной перед экспортом."

  /** The outcome of the export button: a warning, or the two artifacts to download. */
  datatype ExportOutcome =
    | Refused(warning: string)
    | Exported(template: string, schema: JsonSchema)

  /** Generates both artifacts and refuses to export when the form description has no property. */
  method HandleExport(blocks: seq<Block>) returns (r: ExportOutcome)
    ensures r.Refused? <==> forall i :: 0 <= i < |blocks| ==> !Contributes(blocks[i])
    ensures r.Refused? ==> r.warning == NoDynamicFieldsWarning
    ensures r.Exported? ==> r.template == Template(blocks) && r.schema == SchemaOf(blocks)
    ensures r.Exported? ==> |r.schema.properties| > 0
  {
    var template := GenerateTemplate(blocks);
    var schema := GenerateSchema(blocks);
    PropertiesNonEmpty(blocks);
    var hasProperties := |schema.properties| > 0;
    if !hasProperties {
      return Refused(NoDynamicFieldsWarning);
    }
    r := Exported(template, schema);
  }
}
