/** The form schema: the closed field-type enumeration and the records that
    the language model is asked to fill in (main.py, lines 28-65). */
module Schema {
  import opened Wrappers

  /** `TypeEnum`: the seven kinds of field a form can hold. */
  datatype FieldType = Text | Number | Date | Radio | Checkbox | Select | Textarea

  /** The string value each enumeration member carries; the member compares
      equal to this string, which is what the renderer and the analytics
      page test against. */
  function TypeName(t: FieldType): string
  {
    match t
    case Text => "text"
    case Number => "number"
    case Date => "date"
    case Radio => "radio"
    case Checkbox => "checkbox"
    case Select => "select"
    case Textarea => "textarea"
  }

  /** Validation of a type name into the enumeration, as the schema parser
      does it: only the seven values are accepted. */
  function ParseType(s: string): (r: Option<FieldType>)
    ensures r.Some? ==> TypeName(r.value) == s
    ensures r.None? ==> forall t: FieldType :: TypeName(t) != s
  {
    if s == "text" then Some(Text)
    else if s == "number" then Some(Number)
    else if s == "date" then Some(Date)
    else if s == "radio" then Some(Radio)
    else if s == "checkbox" then Some(Checkbox)
    else if s == "select" then Some(Select)
    else if s == "textarea" then Some(Textarea)
    else None
  }

  /** Distinct members have distinct string values, so parsing a member's
      value gives that member back. */
  lemma ParseTypeName(t: FieldType)
    ensures ParseType(TypeName(t)) == Some(t)
  {
    match t
    case Text =>
    case Number => assert TypeName(t)[0] == 'n';
    case Date => assert TypeName(t)[0] == 'd';
    case Radio => assert TypeName(t)[0] == 'r';
    case Checkbox => assert TypeName(t)[0] == 'c';
    case Select => assert TypeName(t)[0] == 's';
    case Textarea => assert TypeName(t)[..5] == "texta";
  }

  /** The kinds whose field carries a list of options. */
  predicate IsChoiceType(t: FieldType)
  {
    t == Radio || t == Checkbox || t == Select
  }

  /** `Options`: one choice of a radio, checkbox or select field. The
      source's `label` is called `caption` here (`label` is a Dafny keyword). */
  datatype Options = Options(caption: string, value: string)

  /** `FormField` (its `label` is `caption`, its `type` is `kind`). `placeholder` and `options` are optional in the schema;
      nothing checks that `options` is present for the choice kinds. */
  datatype FormField = FormField(
    caption: string,
    kind: FieldType,
    name: string,
    required: bool,
    placeholder: Option<string>,
    options: Option<seq<Options>>)

  /** `DynamicForm`: a title and the fields in display order. */
  datatype DynamicForm = DynamicForm(title: string, fields: seq<FormField>)

  /** `FormResponse`: one submission. The timestamp is an instant supplied
      by the caller (the clock is not part of the model). */
  datatype FormResponse = FormResponse(
    responseId: string,
    formId: string,
    data: map<string, string>,
    timestamp: int)

  /** A choice field whose `options` is absent: iterating over it raises in
      both the renderer and the analytics page. */
  predicate LacksOptions(f: FormField)
  {
    IsChoiceType(f.kind) && f.options.None?
  }

  /** The ways a page handler fails with an exception instead of producing
      a page: iterating over the absent `options` of a choice field (the
      error names the field), reading `title`/`fields` of a schema the
      language model did not return, or converting an answer that is not a
      number with `float` (the error quotes the answer). */
  datatype Fault = OptionsMissing(field: string) | SchemaMissing | NotAFloat(answer: string)

  /** Python's `d.get(key, default)` on a `Dict[str, str]`. */
  function Get(d: map<string, string>, key: string, default: string): (r: string)
    ensures key in d ==> r == d[key]
    ensures key !in d ==> r == default
  {
    if key in d then d[key] else default
  }
}
