# A verified model of the email template builder's core

The email template builder lets a manager assemble an email out of blocks (text, image,
button, divider, spacer, heading, list, and table and choice-group blocks). Any text, image,
button, heading or list block can be made *dynamic*, which gives it a field descriptor with a
variable name. Export turns the blocks into two artifacts:

- `template.html`, an HTML document with `{{variable}}` placeholders;
- `schema.json`, a JSON Schema form description with one property per variable.

The renderer page loads the two files back. Its form fills the placeholders.

This Dafny project models five parts of that system and proves what they promise:

- **`transliterate.dfy`, `transliterate_examples.dfy`** (module `Transliterate`): the
  label-to-identifier normaliser `transliterateToSnakeCase`. It transliterates Cyrillic
  through a fixed table, then runs a five-step snake_case cleanup, and falls back to
  `variable`. The transliteration loop is a method proved against the function
  `Transliterated`.
- **`export.dfy`** (module `Export`): deriving the form description (`generateSchema`, a
  loop that fills a dictionary and a list), serialising the blocks to HTML
  (`generateTemplate`, a loop that appends one fragment per block), and the export button's
  refusal when no property was derived.
- **`builder.dfy`** (module `Builder`): the builder page's state, the block list and the
  selected id, as a class. Its methods add a block with defaults, merge an update into the
  blocks with an id, delete by id and select.
- **`properties_panel.dfy`** (module `PropertiesPanel`): the update records the properties
  panel builds. These are a content change, a style change, the dynamic toggle, and descriptor
  edits, including the variable-name sanitiser and the comma-separated options parser.
- **`renderer.dfy`, `renderer_examples.dfy`** (module `Renderer`): the file-name patterns
  `^schema(\s*\(\d+\))?\.json$` and `^template(\s*\(\d+\))?\.html$`, first-match selection,
  and the order in which a missing file or unparsable form description is reported. Each
  pattern is decided by a function and proved equivalent to a reading of the pattern as an
  existential.

Shared modules: `wrappers.dfy` (`Option`), `chars.dfy` (character classes: JavaScript `\s`,
`[A-Za-z0-9_]`, decimal digits, and decimal rendering of a number) and `types.dfy` (the records
of `src/types/index.ts`). A `Partial<Block>` update is a `BlockUpdate` record of `Patch` values
(`Keep` or `Set(v)`), and `Merge` is the spread `{...block, ...updates}`.

## Model

| member | source | states |
|---|---|---|
| Transliterate.TransliterateChars | src/utils/transliterate.ts:30-38 | the character loop produces exactly `Transliterated(text)`: each table key replaced by its Latin string, every other character kept |
| Transliterate.UnmappedPassThrough | src/utils/transliterate.ts:35-37 | characters that are not keys of the table pass through the transliteration unchanged |
| Transliterate.TransliteratedConcat | src/utils/transliterate.ts:32-38 | the transliteration of a concatenation is the concatenation of the transliterations |
| Transliterate.TableKeysAreCyrillic | src/utils/transliterate.ts:4-15 | every table key is a Cyrillic letter (U+0400 to U+04FF), so ASCII is never rewritten |
| Transliterate.TransliterateToSnakeCase | src/utils/transliterate.ts:29-54 | the result equals `Normalized(text)` and is an identifier: non-empty, only `[a-z0-9_]`, no `_` at either end, no `__` |
| Transliterate.Normalized | src/utils/transliterate.ts:29-54 | `transliterateToSnakeCase` as a value: every input, including one that cleans to nothing, normalises to an identifier |
| Transliterate.SnakeCaseShape | src/utils/transliterate.ts:46-51 | a non-empty result of the five cleanup steps is an identifier |
| Transliterate.CollapseNoDouble | src/utils/transliterate.ts:49 | after `replace(/_+/g, '_')` no two underscores are adjacent |
| Transliterate.StripInvalidChars | src/utils/transliterate.ts:48 | after removing invalid characters only `[A-Za-z0-9_]` is left |
| Transliterate.ReplaceRunsChars | src/utils/transliterate.ts:47 | a run replacement leaves only `_` and characters of the input outside the run class |
| Transliterate.TrimSlice | src/utils/transliterate.ts:51 | trimming underscores leaves a slice of the input that neither starts nor ends with `_` |
| Transliterate.FallbackIsIdentifier | src/utils/transliterate.ts:53 | the fallback `variable` is itself an identifier |
| Transliterate.IdentifierIsFixed | src/utils/transliterate.ts:46-53 | an identifier normalises to itself |
| Transliterate.NormalizedIdempotent | src/utils/transliterate.ts:29-54 | normalising a normalised label changes nothing |
| Transliterate.SeparatorRunsBecomeUnderscores | src/utils/transliterate.ts:47 | words separated by runs of whitespace and hyphens become the words joined by single `_`, whatever the run lengths |
| Transliterate.SnakeCaseOfWords | src/utils/transliterate.ts:46-51 | for ASCII words separated by such runs, the cleanup gives the lower-cased words joined by `_` |
| TransliterateExamples.ExampleEmpty | src/utils/transliterate.ts:53 | `""` normalises to `variable` |
| TransliterateExamples.ExamplePunctuationOnly | src/utils/transliterate.ts:48-53 | `"!!!"` normalises to `variable` |
| TransliterateExamples.ExampleSignsOnly | src/utils/transliterate.ts:9 | `"ъь"` transliterates to nothing and normalises to `variable` |
| TransliterateExamples.ExampleSeparatorRuns | src/utils/transliterate.ts:47-50 | `"A  B--C"` normalises to `a_b_c` |
| TransliterateExamples.ExampleClientName | src/utils/transliterate.ts:25 | `"Имя Клиента"` normalises to `imya_klienta` |
| TransliterateExamples.ExampleEmailAddress | src/utils/transliterate.ts:26 | `"Email Адрес"` normalises to `email_adres` |
| TransliterateExamples.ExamplePhone | src/utils/transliterate.ts:27 | `"Телефон"` normalises to `telefon` |
| Export.PropertyFor | src/components/Builder/ExportButton.tsx:119-130 | type is `number` iff the field type is number, `boolean` iff checkbox, otherwise `string`; title is the label unless it is empty, then the variable name; `enum` is present iff the field is a select with non-empty options, and then equals them |
| Export.Properties | src/components/Builder/ExportButton.tsx:110-133 | the `properties` dictionary after the walk; it never has the empty name as a key, because a block with an empty variable name is skipped |
| Export.RequiredNames | src/components/Builder/ExportButton.tsx:111-136 | the `required` array after the walk; it holds at most one name per block and never the empty name |
| Export.SchemaOf | src/components/Builder/ExportButton.tsx:140-144 | the description is an `object`; an empty block list gives no properties and no required names |
| Export.GenerateSchema | src/components/Builder/ExportButton.tsx:109-145 | the loop over the blocks builds exactly `SchemaOf(blocks)` |
| Export.PropertyKeys | src/components/Builder/ExportButton.tsx:114-117 | the property names are exactly the variable names of the blocks that are dynamic, have a descriptor and a non-empty variable name |
| Export.PropertiesNonEmpty | src/components/Builder/ExportButton.tsx:114-132 | there is a property iff some block contributes one |
| Export.LastContributorWins | src/components/Builder/ExportButton.tsx:132 | a contributing block that no later block overrides determines the property of its name |
| Export.RequiredConcat | src/components/Builder/ExportButton.tsx:134-136 | `required` is built in block order: that of a concatenation is the concatenation |
| Export.RequiredSingle | src/components/Builder/ExportButton.tsx:134-136 | one block adds its name iff it contributes and is required |
| Export.RequiredMembership | src/components/Builder/ExportButton.tsx:134-136 | a name is in `required` iff some required contributing block has it |
| Export.RequiredAreProperties | src/components/Builder/ExportButton.tsx:132-136 | every entry of `required` is a property name |
| Export.GenerateTemplate | src/components/Builder/ExportButton.tsx:9-107 | the loop produces exactly `Template(blocks)`: the fixed prefix, one fragment per block in list order, the fixed suffix |
| Export.Template | src/components/Builder/ExportButton.tsx:9-106 | the exported document; whatever the blocks, it starts with the fixed head and container opening and ends with their closing tags |
| Export.SilentFragment | src/components/Builder/ExportButton.tsx:36-99 | a block emits nothing iff it is a table, checkbox group or radio group |
| Export.SilentBlocksEmitNothing | src/components/Builder/ExportButton.tsx:35-100 | dropping those blocks from the list leaves the document unchanged |
| Export.BodyConcat | src/components/Builder/ExportButton.tsx:35-100 | the body of a concatenation of lists is the concatenation of their bodies |
| Export.InnerInTemplate | src/components/Builder/ExportButton.tsx:35-100 | the varying part of every block appears in the document |
| Export.PlaceholderInTemplate | src/components/Builder/ExportButton.tsx:36-80 | a contributing text, image, button or heading block puts `{{name}}` into the document |
| Export.ContentInTemplate | src/components/Builder/ExportButton.tsx:36-80 | a static text, image, button or heading block puts its content into the document |
| Export.ListItemPlaceholderInTemplate | src/components/Builder/ExportButton.tsx:89-96 | a dynamic list with a variable emits `<li>{{name_item_k+1}}</li>` for its item at position `k` |
| Export.DynamicItemsIgnoreText | src/components/Builder/ExportButton.tsx:89-94 | in such a list the items' HTML depends only on the number of items |
| Export.StaticItemInItemsHtml | src/components/Builder/ExportButton.tsx:89-94 | in a list without a variable each item is written as it is |
| Export.Placeholder | src/components/Builder/ExportButton.tsx:39 | a placeholder is `{{`, then the name, then `}}` |
| Export.StyleOr | src/components/Builder/ExportButton.tsx:75-80 | a present, non-empty style value is used; the `\|\|` default is used exactly when the style is absent or empty; a non-empty default never gives an empty value |
| Export.HandleExport | src/components/Builder/ExportButton.tsx:147-164 | export is refused, with the warning text, iff no block contributes a property; otherwise both artifacts are produced and the description has a property |
| Builder.DefaultContent | src/pages/BuilderPage.tsx:40-55 | the default texts of text, image and button blocks; the content is non-empty iff the type is one of those three |
| Builder.DefaultStyles | src/pages/BuilderPage.tsx:57-66 | the fixed style records of text and button blocks, and `{}` for every other type |
| Builder.BlockIdInjective | src/pages/BuilderPage.tsx:18 | blocks created at different times get different ids |
| Builder.NewBlock | src/pages/BuilderPage.tsx:17-23 | a new block has the given id and type, the defaults of its type, is static and has no descriptor |
| Builder.UpdateById | src/pages/BuilderPage.tsx:28-30 | length and order are kept; blocks with another id are unchanged; blocks with the id are merged with the update |
| Builder.MergeIdempotent | src/pages/BuilderPage.tsx:29 | merging an update twice is merging it once |
| Builder.UpdateByIdIdempotent | src/pages/BuilderPage.tsx:27-31 | updating by id twice equals updating once, even when the update changes the id |
| Builder.UpdateByIdNoUpdate | src/pages/BuilderPage.tsx:27-31 | the empty update leaves the list unchanged |
| Builder.RemoveById | src/pages/BuilderPage.tsx:34 | no remaining block has the id, and the list does not grow |
| Builder.RemoveByIdConcat | src/pages/BuilderPage.tsx:34 | filtering keeps the relative order: the filter of a concatenation is the concatenation of the filters |
| Builder.RemoveByIdSingle | src/pages/BuilderPage.tsx:34 | a single block is kept iff its id differs |
| Builder.RemoveByIdMembership | src/pages/BuilderPage.tsx:34 | a block remains iff it was there and has another id |
| Builder.RemoveAbsentId | src/pages/BuilderPage.tsx:34 | deleting an id no block has changes nothing |
| Builder.FindByIdFirst | src/pages/BuilderPage.tsx:14 | the selected block is the first block with the selected id; there is none iff nothing is selected or no block has the id |
| Builder.FindById | src/pages/BuilderPage.tsx:14 | `blocks.find` by the selected id: a found block is one of the blocks and has the selected id; without a selection nothing is found |
| Builder.FindAfterRemove | src/pages/BuilderPage.tsx:14-37 | deleting another id does not change the selected block |
| Builder.FindAfterAppend | src/pages/BuilderPage.tsx:14-24 | appending a block does not change a block that is already selected |
| Builder.BuilderState.AddBlock | src/pages/BuilderPage.tsx:16-25 | exactly one new block, with the defaults, is appended; the earlier blocks and the selection are unchanged |
| Builder.BuilderState.UpdateBlock | src/pages/BuilderPage.tsx:27-31 | the blocks become `UpdateById` of the old blocks; the selection is unchanged |
| Builder.BuilderState.DeleteBlock | src/pages/BuilderPage.tsx:33-38 | the blocks with the id are removed; the selection is cleared iff it was that id, and otherwise the selected block is unchanged; no selected block has the deleted id |
| Builder.BuilderState.SelectBlock | src/pages/BuilderPage.tsx:12 | the selection becomes the given id and the blocks are unchanged |
| PropertiesPanel.ContentChangeOnlyContent | src/components/Builder/PropertiesPanel.tsx:13-15 | a content change replaces the content and nothing else |
| PropertiesPanel.ContentChange | src/components/Builder/PropertiesPanel.tsx:13-15 | the update sets the content and leaves every other property of the block alone |
| PropertiesPanel.StyleChangeOneKey | src/components/Builder/PropertiesPanel.tsx:17-21 | a style change sets one key to the value, keeps every other key and value, and changes nothing else in the block |
| PropertiesPanel.StyleChange | src/components/Builder/PropertiesPanel.tsx:17-21 | the update sets only the styles: the old keys plus the edited one, which holds the value, every other key keeping its old value |
| PropertiesPanel.ToggleEstablishesConsistency | src/components/Builder/PropertiesPanel.tsx:23-41 | after either toggle the block is dynamic as checked, has a descriptor iff it is dynamic, and on gets the empty text descriptor with `required: false` |
| PropertiesPanel.DynamicToggle | src/components/Builder/PropertiesPanel.tsx:23-41 | the update sets only `isDynamic` and the descriptor: dynamic as checked, with a descriptor iff checked, and then the empty text descriptor |
| PropertiesPanel.EditsPreserveConsistency | src/components/Builder/PropertiesPanel.tsx:13-57 | content, style and descriptor edits keep "dynamic iff it has a descriptor" |
| PropertiesPanel.SanitizeVariableName | src/components/Builder/PropertiesPanel.tsx:47 | one character for one: length kept, valid characters untouched, others become `_`, only `[A-Za-z0-9_]` in the result |
| PropertiesPanel.SanitizeKeepsValid | src/components/Builder/PropertiesPanel.tsx:47 | the sanitiser leaves a name unchanged iff it is made of `[A-Za-z0-9_]` |
| PropertiesPanel.SanitizeIdempotent | src/components/Builder/PropertiesPanel.tsx:47 | sanitising twice is sanitising once |
| PropertiesPanel.FieldEditChangesOneProperty | src/components/Builder/PropertiesPanel.tsx:43-57 | an edit changes only the edited descriptor property; a variable name is stored sanitised, any other value verbatim; the rest of the block is unchanged |
| PropertiesPanel.DynamicFieldChange | src/components/Builder/PropertiesPanel.tsx:43-57 | the update sets only the descriptor, and the block keeps having one |
| PropertiesPanel.EnteredNameIsValid | src/components/Builder/PropertiesPanel.tsx:45-50 | a variable name entered in the panel has the entered length and only `[A-Za-z0-9_]` |
| PropertiesPanel.SplitOnComma | src/components/Builder/PropertiesPanel.tsx:60 | `split(',')` gives at least one piece and no piece holds a comma |
| PropertiesPanel.SplitJoin | src/components/Builder/PropertiesPanel.tsx:60 | splitting comma-free pieces joined with `,` gives the pieces back |
| PropertiesPanel.TrimShape | src/components/Builder/PropertiesPanel.tsx:60 | a trimmed text has no whitespace at either end and is a slice of the original |
| PropertiesPanel.ParsedOptionsWellFormed | src/components/Builder/PropertiesPanel.tsx:60 | every parsed option is non-empty, trimmed and comma-free |
| PropertiesPanel.ParseOptions | src/components/Builder/PropertiesPanel.tsx:60 | for any typed text, an option survives exactly when it is a trimmed comma-separated piece and is not empty |
| PropertiesPanel.NonEmptySingle | src/components/Builder/PropertiesPanel.tsx:60 | `filter(opt => opt)` keeps a non-empty piece and drops an empty one |
| PropertiesPanel.NonEmptyConcat | src/components/Builder/PropertiesPanel.tsx:60 | the filter works piece by piece, keeping order: that of a concatenation is the concatenation |
| PropertiesPanel.NonEmptyMembership | src/components/Builder/PropertiesPanel.tsx:60 | a text survives the filter iff it is one of the pieces and is not empty |
| PropertiesPanel.OptionsRoundTrip | src/components/Builder/PropertiesPanel.tsx:60 | parsing the `join(', ')` of non-empty, trimmed, comma-free options gives the same options in the same order |
| PropertiesPanel.DisplayedOptionsStable | src/components/Builder/PropertiesPanel.tsx:59-62 | re-entering the options text the panel displays stores the block unchanged |
| Renderer.CounterMatches | src/pages/RendererPage.tsx:23 | reading the whole leading whitespace run decides `\s*\(\d+\)` exactly as the pattern does, in both directions |
| Renderer.PatternNameMatches | src/pages/RendererPage.tsx:22-27 | the file-name decision accepts a name iff it is the stem, an optional counter and the extension |
| Renderer.ExactNameMatchesPattern | src/pages/RendererPage.tsx:23 | the exact-name test is subsumed by the pattern |
| Renderer.ArtifactNamesDisjoint | src/pages/RendererPage.tsx:22-27 | no name is accepted both as a form description and as a template |
| Renderer.FindArtifactFirst | src/pages/RendererPage.tsx:22-27 | the chosen file is the first accepted one in selection order; there is none iff no name is accepted |
| Renderer.FindArtifact | src/pages/RendererPage.tsx:22-27 | `fileArray.find` with the name test: a chosen file is one of the selected files and its name is accepted |
| RendererExamples.ExampleExactSchemaName | src/pages/RendererPage.tsx:22-24 | `schema.json` is accepted as the form description and not as the template |
| RendererExamples.ExampleSpacedCopy | src/pages/RendererPage.tsx:22-24 | `schema (2).json` is accepted |
| RendererExamples.ExampleUnspacedCopy | src/pages/RendererPage.tsx:22-24 | `schema(12).json` is accepted |
| RendererExamples.ExampleTemplateCopy | src/pages/RendererPage.tsx:25-27 | `template (3).html` is accepted |
| RendererExamples.ExampleEmptyCounter | src/pages/RendererPage.tsx:22-24 | `schema ().json` is rejected |
| RendererExamples.ExamplePrefixedName | src/pages/RendererPage.tsx:22-24 | `old_schema.json` is rejected |
| Renderer.RendererState.HandleLoadTemplate | src/pages/RendererPage.tsx:14-77 | an absent or empty selection changes nothing; a missing form description is reported before a missing template, and either stops before any read; otherwise both reads start on the first accepted files |
| Renderer.RendererState.OnSchemaRead | src/pages/RendererPage.tsx:48-60 | a parse failure sets its own message and leaves the stored value as it was; any parsed value, falsy or not, is stored and both loaded is reported when the template is in; for a falsy value such as `null` that report stands while the upload view is still shown |
| Renderer.RendererState.OnTemplateRead | src/pages/RendererPage.tsx:67-75 | the template text is stored; both loaded is reported when the form description is in |

## Left out

- `src/components/Renderer/EmailPreview.tsx` and `FormRenderer.tsx` are not part of this model. They wrap the Handlebars and RJSF libraries.
- Downloads are not modelled: `Blob`, object URLs, anchors, `setTimeout`, the success `alert` and `console` output. `HandleExport` returns the two artifacts instead.
- `JSON.parse` and `FileReader` are parameters. `OnSchemaRead` receives the parse result, and `OnTemplateRead` receives the read text. A parsed value is told apart only as falsy, some other value, or a form description; the form renderer's handling of a value that is not a form description is not modelled.
- The order in which the two reads complete is left to the caller. The per-call flags `schemaLoaded` and `templateLoaded` are passed in and returned, not stored.
- `Date.now()` is a parameter of `AddBlock`. Two blocks added in the same millisecond share an id.
- Reordering blocks on the canvas (`onReorderBlocks={setBlocks}`) is not modelled, and neither are the canvas, block list, rich-text editor or routing.
- The output of `JSON.stringify` is not modelled. That includes the key order of `properties`: a map has none.
- The sanitiser's branch for a `variableName` value that is not a string is not modelled. The panel always passes a string.
- `handleDynamicFieldChange` on a block without a descriptor is excluded by the `requires` of `DynamicFieldChange`. The panel shows the descriptor inputs only when the descriptor exists (src/components/Builder/PropertiesPanel.tsx:174).
- Strings are sequences of Unicode scalar values. JavaScript counts UTF-16 code units, which differs only for characters outside the Basic Multilingual Plane.
- The style text inside template fragments is modelled as opaque text around the placeholder and content positions. An absent style renders as `undefined`, as a template literal does.
- The `__proto__` quirk of JavaScript objects is not modelled. Assigning that key to a plain object sets its prototype, but in the model it is a property name like any other.
- A dynamic list contributes the property `name`, while its template uses `name_item_1`, `name_item_2`, … This is modelled as written.
