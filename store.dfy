/** The application state and the route handlers that read or change it
    (main.py, lines 70-71 and 182-314): the generated forms keyed by id in
    creation order, and the responses submitted to each form. The language
    model's reply, the fresh uuids and the clock are parameters. */
module Store {
  import opened Wrappers
  import opened Schema
  import opened Markup
  import opened Renderer
  import opened Analytics

  /** The outcome of a page that looks a form up by id: its content, the
      "Form not found" page, or an exception. */
  datatype Page<T> = Shown(content: T) | NotFound | Crashed(fault: Fault)

  /** The outcome of `generate_form`: the new id with the preview and the
      share link, or the error page shown for an empty prompt. */
  datatype Generated =
    | Created(formId: string, preview: Option<Markup>, shareLink: string)
    | PromptMissing

  /** The link under which a form is shared. */
  function ShareLink(formId: string): (r: string)
    ensures |r| == 7 + |formId| && r[..7] == "/share/" && r[7..] == formId
  {
    "/share/" + formId
  }

  /** The home page's list of forms: id and title of each form in creation
      order; reading the title of a form the model did not return raises. */
  function Listing(ids: seq<string>, forms: map<string, Option<DynamicForm>>): (r: Page<seq<(string, string)>>)
    requires forall i :: 0 <= i < |ids| ==> ids[i] in forms
    ensures r.Crashed? <==> exists i :: 0 <= i < |ids| && forms[ids[i]].None?
    ensures r.Crashed? ==> r.fault == SchemaMissing
    ensures r.Shown? ==>
      |r.content| == |ids| &&
      forall i :: 0 <= i < |ids| ==> r.content[i] == (ids[i], forms[ids[i]].value.title)
    ensures !r.NotFound?
  {
    if ids == [] then Shown([])
    else match forms[ids[0]]
      case None => Crashed(SchemaMissing)
      case Some(form) =>
        var rest := Listing(ids[1..], forms);
        if rest.Shown? then Shown([(ids[0], form.title)] + rest.content) else rest
  }

  class FormStore {
    /** `generated_forms`: the schema stored for each id, `None` when the
        model returned no schema. */
    var forms: map<string, Option<DynamicForm>>
    /** `form_responses`: the responses of each form, oldest first. */
    var responses: map<string, seq<FormResponse>>
    /** The insertion order of `generated_forms`. */
    var order: seq<string>

    /** Both dictionaries have the same keys, `order` lists each key once,
        and every stored response names the form it is stored under. */
    ghost predicate Valid()
      reads this
    {
      && forms.Keys == responses.Keys
      && (forall i, j :: 0 <= i < j < |order| ==> order[i] != order[j])
      && (forall id :: id in forms <==> id in order)
      && (forall id, k :: id in responses && 0 <= k < |responses[id]| ==> responses[id][k].formId == id)
    }

    /** The store at start-up: no forms and no responses. */
    constructor()
      ensures Valid()
      ensures forms == map[] && responses == map[] && order == []
    {
      forms := map[];
      responses := map[];
      order := [];
    }

    /** The responses of a form, `form_responses.get(form_id, [])`. */
    function ResponsesOf(formId: string): (r: seq<FormResponse>)
      reads this
      requires Valid()
      ensures forall k :: 0 <= k < |r| ==> r[k].formId == formId
      ensures formId !in forms ==> r == []
    {
      if formId in responses then responses[formId] else []
    }

    /** `generate_form`: an empty or missing prompt changes nothing and
        yields the error page. Otherwise the model's reply is stored under
        the new id with an empty response list, and only then is the preview
        rendered, so a preview that raises leaves the new form stored. An
        id already present keeps its place in the order. */
    method GenerateForm(formData: map<string, string>, parsed: Option<DynamicForm>, newId: string)
      returns (r: Result<Generated, Fault>)
      requires Valid()
      modifies this
      ensures Valid()
      ensures Get(formData, "prompt", "") == "" ==>
        && forms == old(forms) && responses == old(responses) && order == old(order)
        && r == Success(PromptMissing)
      ensures Get(formData, "prompt", "") != "" ==>
        && forms == old(forms)[newId := parsed]
        && responses == old(responses)[newId := []]
        && order == (if newId in old(forms) then old(order) else old(order) + [newId])
        && r == match RenderForm(parsed, newId, true)
                case Failure(e) => Failure(e)
                case Success(preview) => Success(Created(newId, preview, ShareLink(newId)))
    {
      var prompt := Get(formData, "prompt", "");
      if prompt == "" {
        return Success(PromptMissing);
      }
      if newId !in forms {
        order := order + [newId];
      }
      forms := forms[newId := parsed];
      responses := responses[newId := []];
      var preview := RenderForm(parsed, newId, true);
      match preview
      case Failure(e) => r := Failure(e);
      case Success(p) => r := Success(Created(newId, p, ShareLink(newId)));
    }

    /** `submit_form`: an unknown id changes nothing; for a known id exactly
        one response, naming that form, is appended to that form's list and
        nothing else changes. */
    method SubmitForm(formId: string, responseId: string, data: map<string, string>, timestamp: int)
      returns (r: Page<FormResponse>)
      requires Valid()
      modifies this
      ensures Valid()
      ensures formId !in old(forms) ==>
        r == NotFound && forms == old(forms) && responses == old(responses) && order == old(order)
      ensures formId in old(forms) ==>
        && r == Shown(FormResponse(responseId, formId, data, timestamp))
        && forms == old(forms) && order == old(order)
        && responses == old(responses)[formId := old(responses)[formId] + [r.content]]
    {
      if formId !in forms {
        return NotFound;
      }
      var response := FormResponse(responseId, formId, data, timestamp);
      responses := responses[formId := responses[formId] + [response]];
      r := Shown(response);
    }

    /** `share_form`: the editable page of a stored form, exactly as the
        renderer builds it. A form that is shown posts to its own submission
        endpoint, which accepts it. */
    method ShareForm(formId: string) returns (r: Page<Option<Markup>>)
      requires Valid()
      ensures r.NotFound? <==> formId !in forms
      ensures r.Crashed? <==>
        (formId in forms && forms[formId].Some? &&
         exists i :: 0 <= i < |forms[formId].value.fields| && LacksOptions(forms[formId].value.fields[i]))
      ensures formId in forms && r.Crashed? ==> RenderForm(forms[formId], formId, false) == Failure(r.fault)
      ensures formId in forms && r.Shown? ==> RenderForm(forms[formId], formId, false) == Success(r.content)
      ensures r.Shown? ==> (r.content.None? <==> forms[formId].None?)
      ensures r.Shown? && r.content.Some? ==>
        && r.content.value.Container? && |r.content.value.children| == 2
        && r.content.value.children[0] == H1(forms[formId].value.title)
        && r.content.value.children[1].Form?
        && r.content.value.children[1].action == SubmitAction(formId)
    {
      if formId !in forms {
        return NotFound;
      }
      var schema := forms[formId];
      match RenderForm(schema, formId, false)
      case Failure(e) =>
        r := Crashed(e);
      case Success(page) =>
        if schema.Some? {
          PageLayout(schema.value, formId, false);
        }
        r := Shown(page);
    }

    /** `show_analytics`: the report of a stored form over its responses;
        a form stored without a schema raises. */
    method ShowAnalytics(formId: string) returns (r: Page<Report>)
      requires Valid()
      ensures formId !in forms ==> r == NotFound
      ensures formId in forms && forms[formId].None? ==> r == Crashed(SchemaMissing)
      ensures formId in forms && forms[formId].Some? ==>
        r == match Analyze(forms[formId].value, ResponsesOf(formId))
             case Failure(e) => Crashed(e)
             case Success(report) => Shown(report)
      ensures r.Shown? ==> r.content.total == |ResponsesOf(formId)|
    {
      if formId !in forms {
        return NotFound;
      }
      var schema := forms[formId];
      if schema.None? {
        return Crashed(SchemaMissing);
      }
      var report := BuildReport(schema.value, ResponsesOf(formId));
      match report
      case Failure(e) => r := Crashed(e);
      case Success(rep) => r := Shown(rep);
    }

    /** `home`: the stored forms with their titles, in creation order. */
    function Home(): (r: Page<seq<(string, string)>>)
      reads this
      requires Valid()
      ensures r.Shown? ==>
        |r.content| == |order| && forall i :: 0 <= i < |order| ==> r.content[i].0 == order[i]
      ensures r.Crashed? <==> exists id :: id in forms && forms[id].None?
    {
      Listing(order, forms)
    }
  }
}
