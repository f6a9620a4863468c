/**
 * The records of the email builder: blocks, their dynamic-field descriptors, and the
 * form-description (JSON Schema) that export derives from them.
 *
 * Optional TypeScript properties (`x?: T`) are `Option<T>` fields. A block's `styles` object is a
 * dictionary from style name to text, which is how the properties panel treats it: it writes
 * any key it is given.
 */
module Types {
  import opened Wrappers

  datatype BlockType =
    | TextBlock | ImageBlock | ButtonBlock | DividerBlock | SpacerBlock
    | HeadingBlock | ListBlock | TableBlock | CheckboxGroupBlock | RadioGroupBlock

  datatype FieldType =
    | TextField | NumberField | EmailField | SelectField | CheckboxField | TextareaField

  datatype ColumnType = TextColumn | NumberColumn | EmailColumn | SelectColumn

  /** A choice shown to the manager (`label`, here `labelText`) and the text that goes into the email (`value`). */
  datatype SelectOption = SelectOption(labelText: string, value: string)

  datatype TableColumn = TableColumn(
    id: string,
    labelText: string,
    variableName: string,
    columnType: ColumnType,
    options: Option<seq<SelectOption>>)

  /** Conditional visibility: the field is shown when `parentVariable` has `expectedValue`. */
  datatype FieldDependency = FieldDependency(parentVariable: string, expectedValue: string)

  /** A `string | number | boolean` default value (JavaScript numbers read as reals). */
  datatype Scalar = StringScalar(s: string) | NumberScalar(x: real) | BooleanScalar(b: bool)

  datatype DynamicField = DynamicField(
    variableName: string,
    fieldLabel: string,
    fieldType: FieldType,
    required: Option<bool>,
    options: Option<seq<string>>,
    defaultValue: Option<Scalar>,
    dependency: Option<FieldDependency>)

  /** The `styles` object of a block: style name (`fontSize`, `color`, `level`, ...) to value. */
  type Styles = map<string, string>

  datatype Block = Block(
    id: string,
    blockType: BlockType,
    content: string,
    listItems: Option<seq<string>>,
    columns: Option<seq<TableColumn>>,
    tableVariableName: Option<string>,
    tableLabel: Option<string>,
    groupOptions: Option<seq<SelectOption>>,
    showLine: Option<bool>,
    height: Option<real>,
    isDynamic: bool,
    dynamicField: Option<DynamicField>,
    styles: Option<Styles>)

  /** One property of an update record: left as it is, or given a new value. */
  datatype Patch<T> = Keep | Set(value: T) {
    function Apply(current: T): T {
      match this
      case Keep => current
      case Set(v) => v
    }
  }

  /**
   * A `Partial<Block>` update record. For an optional property, `Set(None)` is the source's
   * explicit `key: undefined`, which the spread `{...block, ...updates}` does copy over, while
   * `Keep` is a key that the record does not mention.
   */
  datatype BlockUpdate = BlockUpdate(
    id: Patch<string>,
    blockType: Patch<BlockType>,
    content: Patch<string>,
    listItems: Patch<Option<seq<string>>>,
    columns: Patch<Option<seq<TableColumn>>>,
    tableVariableName: Patch<Option<string>>,
    tableLabel: Patch<Option<string>>,
    groupOptions: Patch<Option<seq<SelectOption>>>,
    showLine: Patch<Option<bool>>,
    height: Patch<Option<real>>,
    isDynamic: Patch<bool>,
    dynamicField: Patch<Option<DynamicField>>,
    styles: Patch<Option<Styles>>)

  /** The update record `{}`. */
  const NoUpdate := BlockUpdate(Keep, Keep, Keep, Keep, Keep, Keep, Keep, Keep, Keep, Keep, Keep, Keep, Keep)

  /** `{...block, ...updates}`. */
  function Merge(b: Block, u: BlockUpdate): Block {
    Block(
      u.id.Apply(b.id),
      u.blockType.Apply(b.blockType),
      u.content.Apply(b.content),
      u.listItems.Apply(b.listItems),
      u.columns.Apply(b.columns),
      u.tableVariableName.Apply(b.tableVariableName),
      u.tableLabel.Apply(b.tableLabel),
      u.groupOptions.Apply(b.groupOptions),
      u.showLine.Apply(b.showLine),
      u.height.Apply(b.height),
      u.isDynamic.Apply(b.isDynamic),
      u.dynamicField.Apply(b.dynamicField),
      u.styles.Apply(b.styles))
  }

  /** A property of the derived form-description: `{type, title, enum?}`. */
  datatype SchemaProperty = SchemaProperty(propertyType: string, title: string, enumValues: Option<seq<string>>)

  /** The derived form-description `{type: 'object', properties, required}`. */
  datatype JsonSchema = JsonSchema(schemaType: string, properties: map<string, SchemaProperty>, required: seq<string>)
}
