# Dynamic form builder: a verified model

This project models the core of a small web application (`main.py`). A
language model turns a prompt into a form schema. The application renders
that schema as an HTML form, stores the form and the responses submitted to
it in memory, and shows per-field statistics over those responses. The
model covers four parts of that program.

- **Schema** (`schema.dfy`). The closed set of seven field types and the
  records the language model fills in: an option, a field, a form and a
  response. It also has the ways a handler fails with an exception.
- **Renderer** (`markup.dfy`, `renderer.dfy`). `create_dynamic_form` as pure
  functions from a schema to an abstract page tree. The tree has one node
  kind per HTML component the renderer uses, carrying exactly the attributes
  passed. Lemmas read the tree back and state what the page offers:
  - one block per field, in order;
  - one choice per option, in order, carrying the option's value and label;
  - the data controls and the names they submit under;
  - how many forms and buttons the page holds;
  - where each label points.

  The label targets are modelled as the code writes them:
  - a select list's label points at the field's label;
  - a radio button's label points at `name_label`, while the button's id is
    `name_value`;
  - a checkbox's label and id are both `name_value`.
- **Analytics** (`stringorder.dfy`, `floatsyntax.dfy`, `analytics.dfy`).
  The `show_analytics` loop. It extracts one answer per response, with a
  blank for a missing entry. Each field kind is then summarised:
  - text and text area: the list of answers;
  - number and date: the least and greatest answer in Python's string
    order, or "N/A" when there are no responses;
  - choice fields: a count for each distinct option value, in the order the
    values first appear.

  Computing the average of a number or date field converts every non-blank
  answer with `float`, and the page raises on the first answer `float`
  rejects. `floatsyntax.dfy` gives `float`'s accepted syntax as a scanner.
  Lemmas prove two consequences:
  - every date answer in the form a date input submits (such as
    "2024-05-01") makes the analytics page of its form raise;
  - a further response makes the page raise exactly when the page raised
    already or that response's answer to a number or date field does not
    convert.
- **Store** (`store.dfy`). The two module-level dictionaries and the route
  handlers that read or change them, as a class `FormStore`:
  - `generate_form`;
  - `submit_form`;
  - `share_form`;
  - `show_analytics`;
  - `home`.

  The uuids, the clock and the language model's parsed reply are
  parameters. An invariant ties the two dictionaries and the insertion order
  together, and every handler keeps it.

Three behaviours of `main.py` worth noting:
- `min` and `max` include blank answers, so a blank is the least answer
  (`Analytics.BlankIsLowest`);
- the schema returned by the language model is not validated: a choice
  field may lack options, and the renderer and the analytics page then
  raise;
- a reply without a schema is stored as it is. The preview of
  `generate_form` and the page of `share_form` then render no form, because
  `create_dynamic_form` returns `None`. The home page and the analytics page
  raise when they read that form's title or fields.

## Model

| member | source | states |
|---|---|---|
| Schema.ParseType | main.py:28-35 | exactly the seven type names are accepted; an accepted name is the value of the member returned, and a rejected string is the value of no member |
| Schema.ParseTypeName | main.py:28-35 | distinct members carry distinct values: parsing a member's value gives that member back |
| Schema.Get | main.py:218 | a dictionary lookup with a default: the stored value for a present key, the default for an absent one |
| Renderer.ItemId | main.py:130 | a toggle id is the field name, an underscore, then the suffix |
| Renderer.ItemIdInjective | main.py:130-132 | two toggle ids of one field agree exactly when their suffixes agree |
| Renderer.SubmitAction | main.py:176 | the form posts to "/submit/" followed by the form id |
| Renderer.SelectOptions | main.py:113-115 | one option element per declared option, in declared order |
| Renderer.CheckboxItems | main.py:124-135 | one checkbox item per declared option, in declared order |
| Renderer.RadioItems | main.py:140-152 | one radio item per declared option, in declared order |
| Renderer.SelectOption | main.py:113-115 | one option element of a select list, with the option's value and label |
| Renderer.CheckboxItem | main.py:124-135 | a checkbox item holds no button or form, submits under the field's name once, and offers one choice with the option's value and label, no required flag, and id and label target both `name_value` |
| Renderer.RadioItem | main.py:140-152 | a radio item holds no button or form, submits under the field's name once, and offers one choice with the option's value and label, the field's required flag, id `name_value` and label target `name_label` |
| Renderer.TextBlock | main.py:99-111 | the block of a text, number or date field holds no button or form and submits under the field's name exactly once |
| Renderer.FieldBlock | main.py:97-167 | the per-field dispatch on the field's kind; what each block offers is stated by the block lemmas below |
| Renderer.Wrap | main.py:169-177 | the preview container or the posting form with the submit button last; what the page then holds is stated by `PageLayout`, `BodyCounts` and `BodyNames` |
| Renderer.RenderFields | main.py:97-167 | the loop succeeds exactly when no choice field lacks options; it then yields one block per field in field order, and otherwise fails naming the first such field |
| Renderer.RenderForm | main.py:91-179 | no schema gives no page; with a schema there is a page exactly when no choice field lacks options |
| Renderer.SelectOptionsReadings | main.py:112-122 | a select list's options hold no button, no form and no control of their own, and offer one choice per option with its value and label |
| Renderer.CheckboxItemsReadings | main.py:123-135 | the checkbox items hold no button or form, submit under the field's name once per option, and offer one choice per option with no required flag and label target equal to the input id |
| Renderer.RadioItemsReadings | main.py:139-152 | the radio items hold no button or form, submit under the field's name once per option, and offer one choice per option carrying the field's required flag, id `name_value` and label target `name_label` |
| Renderer.FieldBlockInert | main.py:97-167 | no field block contains a button or a form |
| Renderer.FieldBlockControlNames | main.py:97-167 | every data control of a field block submits under the field's name: one control for text-like fields and select lists, one per option for checkbox and radio groups |
| Renderer.FieldBlockPicks | main.py:112-154 | a free-text block offers no choice; a choice block offers exactly one per option, in order, with the field's name, the option's value and label, the required flag and the id and label target of its kind |
| Renderer.SelectBlockPicks | main.py:112-122 | the choices of a select block, one per option, carrying the list's required flag and no id |
| Renderer.CheckboxBlockPicks | main.py:123-138 | the choices of a checkbox block, one per option, with id and label target both `name_value` |
| Renderer.RadioBlockPicks | main.py:139-154 | the choices of a radio block, one per option, with id `name_value` and label target `name_label` |
| Renderer.RadioCaptionLinked | main.py:146-149 | a radio option's label points at its button exactly when the option's label equals its value |
| Renderer.PageLayout | main.py:169-179 | a page is the title heading then the body: either a form posting to the submit action holding the field blocks in order and one submit button last, or a preview container of class preview-form holding just the field blocks |
| Renderer.PageButtons | main.py:169-179 | an editable page holds exactly one form and one button; a preview page holds neither |
| Renderer.BodyCounts | main.py:169-177 | the body around inert blocks holds no form, and one button exactly when editable |
| Renderer.BodyNames | main.py:172-177 | the submit button submits no data: the body's controls are those of the field blocks |
| Renderer.BlocksControlNames | main.py:97-167 | every control among the rendered blocks submits under some field's name |
| Renderer.PageControlNames | main.py:91-179 | every data control on a rendered page submits under the name of one of the form's fields |
| StringOrder.PrefixLess | main.py:296-297 | in Python's string order a proper prefix comes before the longer string |
| StringOrder.EmptyLeast | main.py:296-297 | the empty string is below every other string and above none |
| StringOrder.LexIrreflexive | main.py:296-297 | no string is below itself |
| StringOrder.LexAsymmetric | main.py:296-297 | if a is below b then b is not below a |
| StringOrder.LexTransitive | main.py:296-297 | the string order is transitive |
| StringOrder.LexTotal | main.py:296-297 | any two distinct strings are ordered one way or the other |
| StringOrder.LexLess | main.py:296-297 | Python's `<` on strings, by code point with a proper prefix first; a string is never below itself and nothing is below the empty string |
| StringOrder.MinOf | main.py:296 | `min` over a non-empty list, keeping the earlier element on ties; its meaning is stated by `MinOfLeast` and `MinOfUnique` |
| StringOrder.MaxOf | main.py:297 | `max` over a non-empty list, keeping the earlier element on ties; its meaning is stated by `MaxOfGreatest` and `MaxOfUnique` |
| StringOrder.MinFromLeast | main.py:296 | the running minimum is one of the values seen and none of them is below it |
| StringOrder.MaxFromGreatest | main.py:297 | the running maximum is one of the values seen and none of them is above it |
| StringOrder.MinOfLeast | main.py:296 | `min` returns an element no element is below |
| StringOrder.MaxOfGreatest | main.py:297 | `max` returns an element no element is above |
| StringOrder.MinOfUnique | main.py:296 | an element below none of the others is the minimum |
| StringOrder.MaxOfUnique | main.py:297 | an element above none of the others is the maximum |
| StringOrder.MinFromSnoc | main.py:296 | folding one more value into the running minimum replaces it only when the value is strictly below |
| StringOrder.MinOfSnoc | main.py:296 | the minimum of a list with one more element is that element when strictly below the old minimum, else the old minimum |
| StringOrder.MaxFromSnoc | main.py:297 | folding one more value into the running maximum replaces it only when the value is strictly above |
| StringOrder.MaxOfSnoc | main.py:297 | the maximum of a list with one more element is that element when strictly above the old maximum, else the old maximum |
| FloatSyntax.RunAppend | main.py:295 | scanning a concatenation is scanning the first part, then the second from where the first ended |
| FloatSyntax.RunDigits | main.py:295 | digits keep the scanner in a digit-reading state |
| FloatSyntax.RunLeadingSpaces | main.py:295 | white space before the value is skipped |
| FloatSyntax.RunTrailingSpaces | main.py:295 | white space after the value is accepted exactly when the value read so far is complete |
| FloatSyntax.Unpadded | main.py:295 | `float` accepts a string surrounded by white space exactly when it accepts the string itself |
| FloatSyntax.SignedDigits | main.py:295 | an optional sign followed by digits is an integer part in progress |
| FloatSyntax.DecimalAccepted | main.py:295 | signed or unsigned integers and decimal fractions are accepted |
| FloatSyntax.DigitsThenHyphenRejected | main.py:295 | digits followed by a hyphen are rejected whatever follows |
| FloatSyntax.IsoDateRejected | main.py:295 | a date of year, month and day joined by hyphens is rejected |
| FloatSyntax.SpacesRejected | main.py:295 | a string of white space only is rejected |
| FloatSyntax.ParsesAsFloat | main.py:295 | `float` returns instead of raising; the empty string is rejected |
| FloatSyntax.SeparatorRejected | main.py:295 | a string starting with the ASCII separator U+001C is rejected: `float` strips only ASCII tab to carriage return, the space and non-ASCII white space |
| Analytics.Answers | main.py:283 | one answer per response, in order: the response's entry for the field, or a blank when it has none |
| Analytics.AnswersAppend | main.py:283 | the answers of concatenated response lists are the concatenated answers |
| Analytics.Low | main.py:296 | the least answer, one of the answers when there are any, "N/A" otherwise |
| Analytics.High | main.py:297 | the greatest answer, one of the answers when there are any, "N/A" otherwise |
| Analytics.ExtremesMeaning | main.py:296-297 | without answers both extremes read "N/A"; otherwise they are answers that no answer undercuts or exceeds in string order |
| Analytics.BlankIsLowest | main.py:296 | a blank answer, present whenever a response lacks the field, is the minimum |
| Analytics.StringNotNumeric | main.py:296-297 | the extremes compare strings, not numbers: of "9" and "10" the maximum is "9" and the minimum "10" |
| Analytics.ExtremesAfterAnswer | main.py:296-297 | a first answer is both extremes; a later answer replaces an extreme only when it lies strictly beyond it |
| Analytics.Count | main.py:301 | a count never exceeds the number of answers |
| Analytics.CountIsMultiplicity | main.py:301 | the count of a value is its multiplicity among the answers |
| Analytics.PutMeaning | main.py:301 | assigning a key in an insertion-ordered dictionary keeps keys distinct, adds a new key at the end, keeps an existing key's position with the new value, and leaves other entries alone |
| Analytics.Put | main.py:301 | one dictionary assignment: the entry is present afterwards, and the dictionary grows by one exactly when the key is new |
| Analytics.OptionCounts | main.py:301 | the dictionary comprehension: at most one entry per option value, and at least one entry when there are options |
| Analytics.PutKeys | main.py:301 | the keys after an assignment: unchanged for an existing key, extended by the key otherwise |
| Analytics.OptionCountsShape | main.py:301 | the tally has one entry per distinct option value, no others, in the order the values first appear among the options, each holding the number of answers equal to it |
| Analytics.OptionCountsEntries | main.py:301 | the tally's keys are distinct, are exactly the option values, and each carries its count |
| Analytics.OptionCountsOrder | main.py:301 | a key listed before another occurs among the option values before every occurrence of the other |
| Analytics.OrderStep | main.py:301 | assigning one more option value keeps the key order consistent with first appearance |
| Analytics.CountSnoc | main.py:301 | one more answer adds one to the count of its own value only |
| Analytics.OptionCountsKeys | main.py:301 | the tally's keys do not depend on the answers |
| Analytics.TallyAfterAnswer | main.py:301 | one more answer adds one to its own value's count and leaves every other entry and the order as they were |
| Analytics.TallyTotal | main.py:301-305 | the counts add up to at most the number of responses, and to exactly that number when and only when every answer is an option value |
| Analytics.FirstUnparsable | main.py:295 | no answer is reported exactly when every answer converts; a reported answer is one of the answers and does not convert |
| Analytics.Convertible | main.py:291-295 | an answer the average survives: the empty answer is skipped, and an answer of white space alone is rejected |
| Analytics.FirstUnparsableIsFirst | main.py:295 | the reported answer is the first that does not convert: every answer before it converts |
| Analytics.AverageableCons | main.py:295 | a list with one more answer at the front converts exactly when that answer and the rest convert |
| Analytics.AverageableSnoc | main.py:295 | a list with one more answer at the end converts exactly when the list and that answer convert |
| Analytics.SectionFor | main.py:284-307 | a field's section fails exactly when the field is a choice field without options, or a number or date field with an answer that does not convert; the error names the field or quotes the answer; a section carries the field's label |
| Analytics.Summarize | main.py:282-307 | the same over the field's answers extracted from the responses |
| Analytics.StatsSection | main.py:291-298 | a number or date section raises exactly when some answer does not convert, quoting such an answer; otherwise it shows the extremes under the field's label |
| Analytics.TallySection | main.py:300-307 | a choice section raises exactly when the options are missing, naming the field; otherwise it holds distinct keys that are exactly the option values, each with its count among the answers |
| Analytics.DateAnswerRaises | main.py:291-297 | a number or date field with an answer of the form year-month-day makes its section raise with a conversion error |
| Analytics.SummarizeAll | main.py:282-307 | the loop over the fields succeeds exactly when no field's section raises, giving one section per field in order; otherwise the error is that of the first field whose section raises |
| Analytics.FirstRaising | main.py:282-307 | the first field whose section raises decides the page's error |
| Analytics.Analyze | main.py:278-314 | a successful page carries the form's title and the number of responses as its total |
| Analytics.BuildReport | main.py:281-314 | the loop that appends one section per field and stops at the first exception produces exactly the page `Analyze` describes |
| Analytics.SectionAfterAnswer | main.py:284-307 | one more answer grows a section: the list gains it at the end, the extremes take it in only when it lies beyond them, and the tally counts it once more under its own value |
| Analytics.SummarizeAfterResponse | main.py:282-307 | one more response grows each field's section by that response's answer |
| Analytics.RaisesAfterResponse | main.py:295 | a field's section raises after one more response exactly when it raised before, or the field is a number or date field and the new answer does not convert |
| Analytics.AnalyzeAfterResponse | main.py:278-314 | one more response makes the page fail exactly when it failed before or that response's answer to a number or date field does not convert; otherwise the total grows by one and every section grows by that response's answer |
| Store.ShareLink | main.py:224 | the share link is "/share/" followed by the form id |
| Store.Listing | main.py:185 | the home page lists every form's id and title in creation order, and raises exactly when some stored reply has no schema |
| Store.FormStore.constructor | main.py:70-71 | the store starts with no forms, no responses and an empty order |
| Store.FormStore.Valid | main.py:70-71 | the invariant every handler keeps: both dictionaries have the same keys, the creation order lists each key once, and every stored response names its form |
| Store.FormStore.ResponsesOf | main.py:279 | a form's responses all name that form; an unknown form has none |
| Store.FormStore.GenerateForm | main.py:215-236 | an empty or missing prompt changes nothing and gives the error page; otherwise the reply is stored under the new id with an empty response list before the preview is rendered, a new id goes last in the order and a reused one keeps its place, and the result is the preview page or its exception |
| Store.FormStore.SubmitForm | main.py:250-270 | an unknown id changes nothing and gives "not found"; a known id gets exactly one response appended, naming that form and carrying the submitted data, and nothing else changes |
| Store.FormStore.ShareForm | main.py:239-247 | "not found" exactly for an unknown id; otherwise exactly the editable page the renderer builds for the stored schema, or its exception: an exception exactly when a choice field lacks options, no page exactly when no schema was stored, and otherwise a page with the form's title whose form posts to that form's submit action |
| Store.FormStore.ShowAnalytics | main.py:273-314 | "not found" for an unknown id, an exception for a stored reply without schema, and otherwise the page `Analyze` gives over the form's responses, whose total is their number |
| Store.FormStore.Home | main.py:182-192 | the list of forms follows creation order, and the page raises exactly when some stored reply has no schema |

## Left out

- The language model call (`get_form_response`, main.py:74-88) is not modelled: its parsed reply is a parameter of `GenerateForm`, and so is its absence. Exceptions raised by the call itself are not modelled.
- `uuid.uuid4()` and `datetime.now()` are parameters: the new form id, the response id and the timestamp.
- HTML serialisation and the FastHTML components are not modelled. The page tree carries only the attributes the renderer passes.
- The page text around the modelled content is not modelled: headings, links, the confirmation list of `submit_form` and the analytics labels. The outer container that `share_form` adds around the rendered page is also not modelled.
- The static `create_form` page, the application and style setup, `serve()` and the unused globals `form_prompt` and `dynamic_form_data` are not modelled.
- Request parsing is not modelled. The submitted form data is a map with one value per key, so a checkbox group with several ticked boxes contributes a single value, as the dictionary conversion in the source keeps one.
- Analytics.StatsSection: the value of the average is not modelled (floating-point arithmetic); only whether computing it raises is. The source divides by the number of answers including blanks.
- FloatSyntax.ParsesAsFloat: non-ASCII decimal digits, which `float` also accepts, are treated as rejected.
- Concurrency between the asynchronous handlers is not modelled: each handler runs as one atomic step on the store.
