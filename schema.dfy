/** The configuration vocabulary of the dynamic form (src/utilities/types.ts), as the
    engine in DynamicQuoteForm.tsx reads it.

    Where the declared types and the engine disagree, the engine wins:
    - the engine tells node kinds apart by duck typing (`RawKind` below), so a
      Field's `type` attribute is the control kind it switches on ("select",
      "number", anything else renders as a text input), not the literal 'field';
    - the form's stage list is read from `formGroup`, and the stage-name flag from
      `showformStageName`. */
module Schema {
  import opened Common

  /** `TypeValues`: the literal tag of each node kind. */
  datatype TypeTag = FormTag | StageTag | SectionTag | GroupTag | FieldTag

  function TagName(t: TypeTag): string {
    match t
    case FormTag => "form"
    case StageTag => "stage"
    case SectionTag => "section"
    case GroupTag => "group"
    case FieldTag => "field"
  }

  /** `InputTypeValues`: every input kind, keyed by its own name. */
  datatype InputType =
    | TextInput | TextArea | Email | NumberInput | SelectInput | MultiSelect | Password
    | Checkbox | Radio | Date | File | Toggle | Color | Range | Time | Url | Hidden

  function InputTypeName(t: InputType): string {
    match t
    case TextInput => "text"
    case TextArea => "textarea"
    case Email => "email"
    case NumberInput => "number"
    case SelectInput => "select"
    case MultiSelect => "multiselect"
    case Password => "password"
    case Checkbox => "checkbox"
    case Radio => "radio"
    case Date => "date"
    case File => "file"
    case Toggle => "toggle"
    case Color => "color"
    case Range => "range"
    case Time => "time"
    case Url => "url"
    case Hidden => "hidden"
  }

  /** Parsing an input-type name back gives the input type: the names are distinct. */
  function ParseInputType(name: string): (r: Option<InputType>)
    ensures r.Some? ==> InputTypeName(r.value) == name
  {
    if name == "text" then Some(TextInput)
    else if name == "textarea" then Some(TextArea)
    else if name == "email" then Some(Email)
    else if name == "number" then Some(NumberInput)
    else if name == "select" then Some(SelectInput)
    else if name == "multiselect" then Some(MultiSelect)
    else if name == "password" then Some(Password)
    else if name == "checkbox" then Some(Checkbox)
    else if name == "radio" then Some(Radio)
    else if name == "date" then Some(Date)
    else if name == "file" then Some(File)
    else if name == "toggle" then Some(Toggle)
    else if name == "color" then Some(Color)
    else if name == "range" then Some(Range)
    else if name == "time" then Some(Time)
    else if name == "url" then Some(Url)
    else if name == "hidden" then Some(Hidden)
    else None
  }

  lemma InputTypeNamesRoundTrip(t: InputType)
    ensures ParseInputType(InputTypeName(t)) == Some(t)
  {
  }

  /** The rule types the validator knows; `FieldValidation.type` is a free string. */
  const RuleTypes: set<string> :=
    {"Regex", "Function", "Required", "MinLength", "MaxLength", "MinValue", "MaxValue"}

  /** `FieldValidation`: a rule type, an error message and the optional payloads. */
  datatype FieldValidation = FieldValidation(
    ruleType: string,
    regex: Option<string>,
    functionBody: Option<string>,
    message: string)

  /** A select's options: absent, a static list, or lists keyed by another field's value. */
  datatype Options = NoOptions | StaticOptions(list: seq<string>) | DependentOptions(table: map<string, seq<string>>)

  /** A leaf input descriptor. Optional attributes are `None` when absent; the
      presentation-only attributes (placeholder, icons, step, hidden/read-only flags,
      multi-select) are not part of the model. */
  datatype Field = Field(
    name: string,
    kind: string,
    labelText: Option<string>,
    defaultValue: Option<string>,
    minLength: Option<int>,
    maxLength: Option<int>,
    min: Option<int>,
    max: Option<int>,
    valueCalculation: Option<string>,
    options: Options,
    optionsDependentOn: Option<string>,
    required: bool,
    validation: seq<FieldValidation>)

  /** A named cluster of fields whose values live under one key; its children can
      only be fields, so groups nest exactly one level deep. */
  datatype Group = Group(name: string, labelText: Option<string>, fields: seq<Field>)

  /** A node of a stage: a field, a group, or a section (which the engine treats
      as a transparent wrapper). */
  datatype Node =
    | FieldN(field: Field)
    | GroupN(group: Group)
    | SectionN(name: string, labelText: Option<string>, children: seq<Node>)

  datatype Stage = Stage(name: string, fields: seq<Node>)

  datatype Form = Form(name: string, showformStageName: Option<bool>, formGroup: seq<Stage>)

  function Name(n: Node): string {
    match n
    case FieldN(f) => f.name
    case GroupN(g) => g.name
    case SectionN(name, _, _) => name
  }

  /** The literal tag the declared type of each node kind carries. */
  function Tag(n: Node): TypeTag {
    match n
    case FieldN(_) => FieldTag
    case GroupN(_) => GroupTag
    case SectionN(_, _, _) => SectionTag
  }

  /** Each node kind carries its own literal, and no two kinds share one. */
  lemma TagsDistinct(a: Node, b: Node)
    ensures TagName(Tag(a)) == TagName(Tag(b)) <==> Tag(a) == Tag(b)
    ensures TagName(Tag(a)) in {"field", "group", "section"}
  {
  }

  /** How the engine classifies a raw configuration node: a section has `fields`
      and no `type` attribute at all; a group has `type === 'group'` and a
      `fields` array; everything else is a field. */
  function RawKind(typeAttr: Option<string>, hasFields: bool): (k: TypeTag)
    ensures k in {FieldTag, GroupTag, SectionTag}
    ensures k == SectionTag <==> hasFields && typeAttr.None?
    ensures k == GroupTag <==> hasFields && typeAttr == Some("group")
  {
    if hasFields && typeAttr.None? then SectionTag
    else if typeAttr == Some("group") && hasFields then GroupTag
    else FieldTag
  }

  /** A node that carries the section tag declared for `Section` is not seen as a
      section by the engine; only an untyped node with `fields` is. */
  lemma {:induction false} DeclaredSectionTagIsAField()
    ensures RawKind(Some(TagName(SectionTag)), true) == FieldTag
    ensures RawKind(None, true) == SectionTag
    ensures RawKind(Some(TagName(GroupTag)), true) == GroupTag
  {
  }

  /** No section directly inside a section: the declared `Section` holds only
      fields and groups, while a stage may hold all three. */
  predicate SectionsFlat(ns: seq<Node>) {
    forall i :: 0 <= i < |ns| ==> ns[i].SectionN? ==>
      forall j :: 0 <= j < |ns[i].children| ==> !ns[i].children[j].SectionN?
  }

  predicate DistinctNames(ns: seq<Node>) {
    forall i, j :: 0 <= i < j < |ns| ==> Name(ns[i]) != Name(ns[j])
  }

  predicate DistinctFieldNames(fs: seq<Field>) {
    forall i, j :: 0 <= i < j < |fs| ==> fs[i].name != fs[j].name
  }

  /** Names are unique within their parent stage, section and group. */
  predicate NamesUniqueInParents(ns: seq<Node>) {
    && DistinctNames(ns)
    && forall i :: 0 <= i < |ns| ==>
         match ns[i]
         case FieldN(_) => true
         case GroupN(g) => DistinctFieldNames(g.fields)
         case SectionN(_, _, ch) =>
           DistinctNames(ch) &&
           forall j :: 0 <= j < |ch| ==> ch[j].GroupN? ==> DistinctFieldNames(ch[j].group.fields)
  }

  /** A stage as types.ts declares it: sections do not nest and names are unique
      within each parent. */
  predicate WellFormedStage(s: Stage) {
    SectionsFlat(s.fields) && NamesUniqueInParents(s.fields)
  }

  /** A form as types.ts declares it: its stages have distinct names and are well formed. */
  predicate WellFormedForm(f: Form) {
    && (forall i, j :: 0 <= i < j < |f.formGroup| ==> f.formGroup[i].name != f.formGroup[j].name)
    && (forall i :: 0 <= i < |f.formGroup| ==> WellFormedStage(f.formGroup[i]))
  }
}
