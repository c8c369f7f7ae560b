/** `create_dynamic_form` (main.py, lines 91-179): a schema, a form id and a
    preview flag become a page tree. One block per field, dispatched on the
    field's kind; the blocks are wrapped either in a posting form with a
    trailing submit button or in a read-only preview container. */
module Renderer {
  import opened Wrappers
  import opened Schema
  import opened Markup

  /** The style every field block carries. */
  const BlockStyle := "margin-bottom: 15px;"

  /** The submit button of the editable form. */
  const SubmitButton := Button("Submit", "submit", Some("margin-top: 20px;"))

  /** The class of the preview container. */
  const PreviewClass := "preview-form"

  /** The identifiers of toggle inputs and labels: the field's name, an
      underscore, then the option's value (or label). */
  function ItemId(name: string, suffix: string): (r: string)
    ensures |r| == |name| + 1 + |suffix| && r[..|name|] == name && r[|name|] == '_'
    ensures r[|name| + 1..] == suffix
  {
    name + "_" + suffix
  }

  /** Two item ids built from the same field name agree exactly when their
      suffixes do. */
  lemma ItemIdInjective(name: string, a: string, b: string)
    ensures ItemId(name, a) == ItemId(name, b) <==> a == b
  {
    if ItemId(name, a) == ItemId(name, b) {
      assert a == ItemId(name, a)[|name| + 1..];
    }
  }

  /** The submission endpoint of a form. */
  function SubmitAction(formId: string): (r: string)
    ensures |r| == 8 + |formId| && r[..8] == "/submit/" && r[8..] == formId
  {
    "/submit/" + formId
  }

  /** One `Option` of a select list. */
  function SelectOption(o: Options): Markup
  {
    OptionTag(o.value, o.caption)
  }

  function SelectOptions(os: seq<Options>): (r: seq<Markup>)
    ensures |r| == |os| && forall i :: 0 <= i < |os| ==> r[i] == SelectOption(os[i])
  {
    if os == [] then [] else [SelectOption(os[0])] + SelectOptions(os[1..])
  }

  /** One checkbox with its label: the input's id and the label's `for`
      are both `name_value`; no required flag is passed. */
  function CheckboxItem(name: string, o: Options): (r: Markup)
    ensures Inert(r) && ControlNames(r) == [name]
    ensures Picks(r) == [Pick(name, o.value, o.caption, None, Some(ItemId(name, o.value)), Some(ItemId(name, o.value)))]
  {
    var it := Div([Input("checkbox", name, None, None, Some(o.value), Some(ItemId(name, o.value))),
                   Label(o.caption, Some(ItemId(name, o.value)))],
                  None, None);
    ItemReadings(it);
    it
  }

  function CheckboxItems(name: string, os: seq<Options>): (r: seq<Markup>)
    ensures |r| == |os| && forall i :: 0 <= i < |os| ==> r[i] == CheckboxItem(name, os[i])
  {
    if os == [] then [] else [CheckboxItem(name, os[0])] + CheckboxItems(name, os[1..])
  }

  /** One radio button with its label: the input's id is `name_value` but
      the label's `for` is `name_label`; every radio carries the field's
      required flag. */
  function RadioItem(name: string, required: bool, o: Options): (r: Markup)
    ensures Inert(r) && ControlNames(r) == [name]
    ensures Picks(r) == [Pick(name, o.value, o.caption, Some(required), Some(ItemId(name, o.value)), Some(ItemId(name, o.caption)))]
  {
    var it := Div([Input("radio", name, None, Some(required), Some(o.value), Some(ItemId(name, o.value))),
                   Label(o.caption, Some(ItemId(name, o.caption)))],
                  None, None);
    ItemReadings(it);
    it
  }

  function RadioItems(name: string, required: bool, os: seq<Options>): (r: seq<Markup>)
    ensures |r| == |os| && forall i :: 0 <= i < |os| ==> r[i] == RadioItem(name, required, os[i])
  {
    if os == [] then [] else [RadioItem(name, required, os[0])] + RadioItems(name, required, os[1..])
  }

  /** The block of one field (the body of the loop over `form_data.fields`).
      Text-like inputs and the text area label themselves with `for` set to
      the field's name, the select list with `for` set to the field's label,
      and toggle groups with a label that has no `for`. */
  function FieldBlock(f: FormField): Markup
    requires !LacksOptions(f)
  {
    match f.kind
    case Text => TextBlock(f)
    case Number => TextBlock(f)
    case Date => TextBlock(f)
    case Select =>
      Div([Label(f.caption, Some(f.caption)),
           SelectTag(SelectOptions(f.options.value), f.name, Some(f.required))],
          None, Some(BlockStyle))
    case Checkbox =>
      Div([Label(f.caption, None), Div(CheckboxItems(f.name, f.options.value), None, None)],
          None, Some(BlockStyle))
    case Radio =>
      Div([Label(f.caption, None), Div(RadioItems(f.name, f.required, f.options.value), None, None)],
          None, Some(BlockStyle))
    case Textarea =>
      Div([Label(f.caption, Some(f.name)), TextareaTag(f.name, f.placeholder, Some(f.required))],
          None, Some(BlockStyle))
  }

  /** The block of a text, number or date field: an input whose type is the
      kind's name. */
  function TextBlock(f: FormField): (r: Markup)
    ensures Inert(r) && ControlNames(r) == [f.name]
  {
    var b := Div([Label(f.caption, Some(f.name)),
                  Input(TypeName(f.kind), f.name, f.placeholder, Some(f.required), None, None)],
                 None, Some(BlockStyle));
    PairReadings(b);
    b
  }

  /** The loop over the fields: it stops with an error at the first choice
      field that has no options, and otherwise yields one block per field in
      field order. */
  function RenderFields(fields: seq<FormField>): (r: Result<seq<Markup>, Fault>)
    ensures r.Success? <==> forall i :: 0 <= i < |fields| ==> !LacksOptions(fields[i])
    ensures r.Success? ==>
      |r.value| == |fields| && forall i :: 0 <= i < |fields| ==> r.value[i] == FieldBlock(fields[i])
    ensures r.Failure? ==>
      exists i :: 0 <= i < |fields| && LacksOptions(fields[i]) && r.error == OptionsMissing(fields[i].name)
                  && forall j :: 0 <= j < i ==> !LacksOptions(fields[j])
  {
    if fields == [] then Success([])
    else if LacksOptions(fields[0]) then Failure(OptionsMissing(fields[0].name))
    else
      match RenderFields(fields[1..])
      case Failure(e) => Failure(e)
      case Success(rest) => Success([FieldBlock(fields[0])] + rest)
  }

  /** The wrapper around the blocks: a posting form to `/submit/{form_id}`
      with a trailing submit button, or a preview container. */
  function Wrap(blocks: seq<Markup>, formId: string, isPreview: bool): Markup
  {
    if isPreview then Div(blocks, Some(PreviewClass), None)
    else Form(blocks + [SubmitButton], "post", SubmitAction(formId))
  }

  /** `create_dynamic_form`: no schema gives no page; otherwise the page is
      the title heading followed by the wrapped field blocks. */
  function RenderForm(schema: Option<DynamicForm>, formId: string, isPreview: bool)
    : (r: Result<Option<Markup>, Fault>)
    ensures schema.None? ==> r == Success(None)
    ensures schema.Some? ==>
      (r.Success? <==> forall i :: 0 <= i < |schema.value.fields| ==> !LacksOptions(schema.value.fields[i]))
    ensures schema.Some? && r.Success? ==> r.value.Some?
  {
    match schema
    case None => Success(None)
    case Some(form) =>
      match RenderFields(form.fields)
      case Failure(e) => Failure(e)
      case Success(blocks) => Success(Some(Container([H1(form.title), Wrap(blocks, formId, isPreview)])))
  }

  // ---------------------------------------------------------------------
  // What a rendered block offers, read back from the tree.

  /** The checkbox items hold no button and no form, submit under `name`
      once per option, and offer one choice per option. */
  lemma CheckboxItemsReadings(name: string, os: seq<Options>)
    ensures var ns := NodesAll(CheckboxItems(name, os));
      ButtonCount(ns) == 0 && FormCount(ns) == 0
    ensures var cn := ControlNamesOf(NodesAll(CheckboxItems(name, os)));
      |cn| == |os| && forall j :: 0 <= j < |cn| ==> cn[j] == name
    ensures PicksAll(CheckboxItems(name, os))
         == seq(|os|, j requires 0 <= j < |os| =>
                  Pick(name, os[j].value, os[j].caption, None,
                       Some(ItemId(name, os[j].value)), Some(ItemId(name, os[j].value))))
  {
    var items := CheckboxItems(name, os);
    ItemsInert(items);
    ItemsControlNames(items);
    ItemsPicks(items);
  }

  /** The radio items hold no button and no form, submit under `name` once
      per option, and offer one choice per option. */
  lemma RadioItemsReadings(name: string, required: bool, os: seq<Options>)
    ensures var ns := NodesAll(RadioItems(name, required, os));
      ButtonCount(ns) == 0 && FormCount(ns) == 0
    ensures var cn := ControlNamesOf(NodesAll(RadioItems(name, required, os)));
      |cn| == |os| && forall j :: 0 <= j < |cn| ==> cn[j] == name
    ensures PicksAll(RadioItems(name, required, os))
         == seq(|os|, j requires 0 <= j < |os| =>
                  Pick(name, os[j].value, os[j].caption, Some(required),
                       Some(ItemId(name, os[j].value)), Some(ItemId(name, os[j].caption))))
  {
    var items := RadioItems(name, required, os);
    ItemsInert(items);
    ItemsControlNames(items);
    ItemsPicks(items);
  }

  /** The options of a select list hold no button, no form and no control
      of their own, and offer one choice per option. */
  lemma SelectOptionsReadings(name: string, req: Option<bool>, os: seq<Options>)
    ensures var ns := NodesAll(SelectOptions(os));
      ButtonCount(ns) == 0 && FormCount(ns) == 0 && ControlNamesOf(ns) == []
    ensures SelectPicks(SelectOptions(os), name, req)
         == seq(|os|, j requires 0 <= j < |os| => Pick(name, os[j].value, os[j].caption, req, None, None))
  {
    var opts := SelectOptions(os);
    LeavesNodes(opts);
    ButtonFree(opts);
    FormFree(opts);
    NoControlNames(opts);
    SelectOptionsPicks(name, req, os);
  }

  lemma {:induction false} SelectOptionsPicks(name: string, req: Option<bool>, os: seq<Options>)
    ensures SelectPicks(SelectOptions(os), name, req)
         == seq(|os|, j requires 0 <= j < |os| => Pick(name, os[j].value, os[j].caption, req, None, None))
    decreases |os|
  {
    if os != [] {
      SelectOptionsPicks(name, req, os[1..]);
      assert SelectOptions(os)[1..] == SelectOptions(os[1..]);
    }
  }

  /** The controls of a choice field's block: the select list itself, if
      it is one, then the group's children. */
  lemma GroupBlockNames(b: Markup)
    requires b.Div? && |b.children| == 2 && b.children[0].Label?
    requires b.children[1].Div? || b.children[1].SelectTag?
    ensures ControlNames(b)
         == (if b.children[1].SelectTag? then [b.children[1].name] else [])
          + ControlNamesOf(NodesAll(b.children[1].children))
  {
    TitledNodes(b);
    ControlNamesOfAppend([b, b.children[0], b.children[1]], NodesAll(b.children[1].children));
    ControlNamesOfTriple(b, b.children[0], b.children[1]);
  }

  /** A field block holds neither a button nor a form. */
  lemma FieldBlockInert(f: FormField)
    requires !LacksOptions(f)
    ensures Inert(FieldBlock(f))
  {
    var b := FieldBlock(f);
    match f.kind
    case Text => PairReadings(b);
    case Number => PairReadings(b);
    case Date => PairReadings(b);
    case Textarea => PairReadings(b);
    case Select =>
      TitledCounts(b);
      SelectOptionsReadings(f.name, Some(f.required), f.options.value);
    case Checkbox =>
      TitledCounts(b);
      CheckboxItemsReadings(f.name, f.options.value);
    case Radio =>
      TitledCounts(b);
      RadioItemsReadings(f.name, f.required, f.options.value);
  }

  /** Every data control of a field's block submits under the field's name:
      one control for a text-like field, a text area or a select list, and
      one per option for a checkbox or radio group. */
  lemma FieldBlockControlNames(f: FormField)
    requires !LacksOptions(f)
    ensures var cn := ControlNames(FieldBlock(f));
      && |cn| == (if f.kind == Checkbox || f.kind == Radio then |f.options.value| else 1)
      && forall j :: 0 <= j < |cn| ==> cn[j] == f.name
  {
    var b := FieldBlock(f);
    match f.kind
    case Text => PairReadings(b);
    case Number => PairReadings(b);
    case Date => PairReadings(b);
    case Textarea => PairReadings(b);
    case Select =>
      GroupBlockNames(b);
      SelectOptionsReadings(f.name, Some(f.required), f.options.value);
    case Checkbox =>
      GroupBlockNames(b);
      CheckboxItemsReadings(f.name, f.options.value);
    case Radio =>
      GroupBlockNames(b);
      RadioItemsReadings(f.name, f.required, f.options.value);
  }

  /** The choices a field's block offers: none for a free-text field, and
      for a choice field exactly one per declared option, in declared order,
      each submitting the field's name with that option's value and showing
      that option's label. Radio buttons carry the field's required flag,
      checkboxes none, and a select list's options the list's flag. A
      checkbox's label targets its input; a radio's label targets
      `name_label` while the input's id is `name_value`. */
  lemma FieldBlockPicks(f: FormField)
    requires !LacksOptions(f)
    ensures !IsChoiceType(f.kind) ==> Picks(FieldBlock(f)) == []
    ensures IsChoiceType(f.kind) ==>
      var os := f.options.value;
      var ps := Picks(FieldBlock(f));
      && |ps| == |os|
      && forall j :: 0 <= j < |ps| ==>
           && ps[j].name == f.name && ps[j].value == os[j].value && ps[j].caption == os[j].caption
           && ps[j].required == (if f.kind == Checkbox then None else Some(f.required))
           && ps[j].inputId == (if f.kind == Select then None else Some(ItemId(f.name, os[j].value)))
           && ps[j].labelFor == (if f.kind == Select then None
                                 else if f.kind == Checkbox then Some(ItemId(f.name, os[j].value))
                                 else Some(ItemId(f.name, os[j].caption)))
  {
    var b := FieldBlock(f);
    assert b.children == [b.children[0], b.children[1]];
    PicksAllPair(b.children[0], b.children[1]);
    match f.kind
    case Text =>
    case Number =>
    case Date =>
    case Textarea =>
    case Select => SelectBlockPicks(f);
    case Checkbox => CheckboxBlockPicks(f);
    case Radio => RadioBlockPicks(f);
  }

  lemma SelectBlockPicks(f: FormField)
    requires f.kind == Select && f.options.Some?
    ensures var os := f.options.value;
      Picks(FieldBlock(f))
      == seq(|os|, j requires 0 <= j < |os| => Pick(f.name, os[j].value, os[j].caption, Some(f.required), None, None))
  {
    var b := FieldBlock(f);
    assert b.children == [b.children[0], b.children[1]];
    PicksAllPair(b.children[0], b.children[1]);
    SelectOptionsReadings(f.name, Some(f.required), f.options.value);
  }

  lemma CheckboxBlockPicks(f: FormField)
    requires f.kind == Checkbox && f.options.Some?
    ensures var os := f.options.value;
      Picks(FieldBlock(f))
      == seq(|os|, j requires 0 <= j < |os| =>
               Pick(f.name, os[j].value, os[j].caption, None,
                    Some(ItemId(f.name, os[j].value)), Some(ItemId(f.name, os[j].value))))
  {
    var b := FieldBlock(f);
    assert b.children == [b.children[0], b.children[1]];
    PicksAllPair(b.children[0], b.children[1]);
    CheckboxItemsReadings(f.name, f.options.value);
  }

  lemma RadioBlockPicks(f: FormField)
    requires f.kind == Radio && f.options.Some?
    ensures var os := f.options.value;
      Picks(FieldBlock(f))
      == seq(|os|, j requires 0 <= j < |os| =>
               Pick(f.name, os[j].value, os[j].caption, Some(f.required),
                    Some(ItemId(f.name, os[j].value)), Some(ItemId(f.name, os[j].caption))))
  {
    var b := FieldBlock(f);
    assert b.children == [b.children[0], b.children[1]];
    PicksAllPair(b.children[0], b.children[1]);
    RadioItemsReadings(f.name, f.required, f.options.value);
  }

  /** A radio option's label is tied to its button (the label's `for` equals
      the input's `id`) exactly when the option's label equals its value. */
  lemma RadioCaptionLinked(f: FormField, j: nat)
    requires f.kind == Radio && f.options.Some? && j < |f.options.value|
    ensures j < |Picks(FieldBlock(f))|
    ensures var p := Picks(FieldBlock(f))[j];
      p.labelFor == p.inputId <==> f.options.value[j].caption == f.options.value[j].value
  {
    FieldBlockPicks(f);
    ItemIdInjective(f.name, f.options.value[j].caption, f.options.value[j].value);
  }

  // ---------------------------------------------------------------------
  // The page as a whole.

  /** The layout of a rendered page: the title heading, then either a form
      posting to `/submit/{form_id}` whose children are the field blocks in
      field order followed by exactly one submit button, or a preview
      container of class `preview-form` holding just the field blocks. */
  lemma PageLayout(form: DynamicForm, formId: string, isPreview: bool)
    requires forall i :: 0 <= i < |form.fields| ==> !LacksOptions(form.fields[i])
    ensures var r := RenderForm(Some(form), formId, isPreview);
      && r.Success? && r.value.Some?
      && r.value.value.Container? && |r.value.value.children| == 2
      && r.value.value.children[0] == H1(form.title)
      && var w := r.value.value.children[1];
      && (isPreview ==>
            && w.Div? && w.cls == Some(PreviewClass) && w.style == None
            && |w.children| == |form.fields|)
      && (!isPreview ==>
            && w.Form? && w.httpMethod == "post" && w.action == SubmitAction(formId)
            && |w.children| == |form.fields| + 1 && w.children[|form.fields|] == SubmitButton)
      && |w.children| >= |form.fields|
      && forall i :: 0 <= i < |form.fields| ==> w.children[i] == FieldBlock(form.fields[i])
  {
  }

  /** An editable page holds exactly one form and one button (the submit
      button); a preview page holds neither. */
  lemma PageButtons(form: DynamicForm, formId: string, isPreview: bool)
    requires forall i :: 0 <= i < |form.fields| ==> !LacksOptions(form.fields[i])
    ensures var page := RenderForm(Some(form), formId, isPreview).value.value;
      && ButtonCount(Nodes(page)) == (if isPreview then 0 else 1)
      && FormCount(Nodes(page)) == (if isPreview then 0 else 1)
  {
    PageLayout(form, formId, isPreview);
    var page := RenderForm(Some(form), formId, isPreview).value.value;
    var blocks := RenderFields(form.fields).value;
    assert page.children[1] == Wrap(blocks, formId, isPreview);
    TitledCounts(page);
    forall i | 0 <= i < |blocks| ensures Inert(blocks[i]) {
      FieldBlockInert(form.fields[i]);
    }
    BodyCounts(blocks, formId, isPreview);
  }

  /** The body of a page holds no form and, when editable, exactly one
      button after the field blocks. */
  lemma BodyCounts(blocks: seq<Markup>, formId: string, isPreview: bool)
    requires forall i :: 0 <= i < |blocks| ==> Inert(blocks[i])
    ensures var ns := NodesAll(Wrap(blocks, formId, isPreview).children);
      ButtonCount(ns) == (if isPreview then 0 else 1) && FormCount(ns) == 0
  {
    InertAll(blocks);
    if !isPreview {
      NodesAllAppend(blocks, [SubmitButton]);
      NodesAllCons(SubmitButton, []);
      NodesUnfold(SubmitButton);
      ButtonCountAppend(NodesAll(blocks), [SubmitButton]);
      FormCountAppend(NodesAll(blocks), [SubmitButton]);
    }
  }

  /** Every data control on a rendered page submits under the name of one
      of the form's fields, so the submitted data is keyed by field names. */
  lemma PageControlNames(form: DynamicForm, formId: string, isPreview: bool, x: string)
    requires forall i :: 0 <= i < |form.fields| ==> !LacksOptions(form.fields[i])
    requires x in ControlNames(RenderForm(Some(form), formId, isPreview).value.value)
    ensures exists i :: 0 <= i < |form.fields| && form.fields[i].name == x
  {
    PageLayout(form, formId, isPreview);
    var page := RenderForm(Some(form), formId, isPreview).value.value;
    var blocks := RenderFields(form.fields).value;
    assert page.children[1] == Wrap(blocks, formId, isPreview);
    TitledControlNames(page);
    BodyNames(blocks, formId, isPreview);
    BlocksControlNames(form.fields);
  }

  /** The submit button submits no data, so the controls of a page's body
      are those of its field blocks. */
  lemma BodyNames(blocks: seq<Markup>, formId: string, isPreview: bool)
    ensures ControlNamesOf(NodesAll(Wrap(blocks, formId, isPreview).children)) == ControlNamesOf(NodesAll(blocks))
  {
    if !isPreview {
      NodesAllAppend(blocks, [SubmitButton]);
      NodesAllCons(SubmitButton, []);
      NodesUnfold(SubmitButton);
      ControlNamesOfAppend(NodesAll(blocks), [SubmitButton]);
    }
  }

  /** Every control of the field blocks submits under one of the fields'
      names. */
  lemma {:induction false} BlocksControlNames(fields: seq<FormField>)
    requires forall i :: 0 <= i < |fields| ==> !LacksOptions(fields[i])
    ensures forall y :: y in ControlNamesOf(NodesAll(RenderFields(fields).value)) ==>
      exists i :: 0 <= i < |fields| && fields[i].name == y
    decreases |fields|
  {
    if fields != [] {
      var tail := RenderFields(fields[1..]).value;
      assert RenderFields(fields).value == [FieldBlock(fields[0])] + tail;
      BlocksControlNames(fields[1..]);
      BlockNames(fields[0], tail);
      forall y | y in ControlNamesOf(NodesAll(RenderFields(fields).value))
        ensures exists i :: 0 <= i < |fields| && fields[i].name == y
      {
        if y != fields[0].name {
          var i :| 0 <= i < |fields[1..]| && fields[1..][i].name == y;
          assert fields[i + 1].name == y;
        }
      }
    }
  }

  /** The controls of a field block followed by further trees: the field's
      name, then those of the further trees. */
  lemma BlockNames(f: FormField, tail: seq<Markup>)
    requires !LacksOptions(f)
    ensures forall y :: y in ControlNamesOf(NodesAll([FieldBlock(f)] + tail)) ==>
      y == f.name || y in ControlNamesOf(NodesAll(tail))
  {
    NodesAllCons(FieldBlock(f), tail);
    ControlNamesOfAppend(Nodes(FieldBlock(f)), NodesAll(tail));
    FieldBlockControlNames(f);
  }
}
