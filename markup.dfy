/** An abstract stand-in for the HTML component library the renderer calls
    (`Container`, `H1`, `Div`, `Label`, `Input`, `Select`, `Option`,
    `Textarea`, `Form`, `Button`). Each node carries exactly the attributes
    the renderer passes; an attribute the renderer does not pass is `None`.
    Serialisation to HTML is not modelled. Beside the tree this module gives
    three readings of it that do not depend on how it was built: its nodes in
    document order, the names of its data controls, and the choices a user is
    offered. */
module Markup {
  import opened Wrappers

  datatype Markup =
    | Container(children: seq<Markup>)
    | H1(text: string)
    | Div(children: seq<Markup>, cls: Option<string>, style: Option<string>)
    | Label(text: string, target: Option<string>)
    | Input(kind: string, name: string, placeholder: Option<string>,
            required: Option<bool>, value: Option<string>, id: Option<string>)
    | SelectTag(children: seq<Markup>, name: string, required: Option<bool>)
    | OptionTag(optionValue: string, optionLabel: string)
    | TextareaTag(name: string, placeholder: Option<string>, required: Option<bool>)
    | Form(children: seq<Markup>, httpMethod: string, action: string)
    | Button(text: string, kind: string, style: Option<string>)

  /** Every node of the tree, in document (pre-)order. */
  function Nodes(m: Markup): (r: seq<Markup>)
    ensures |r| > 0 && r[0] == m
    decreases m
  {
    match m
    case Container(cs) => [m] + NodesAll(cs)
    case Div(cs, _, _) => [m] + NodesAll(cs)
    case SelectTag(cs, _, _) => [m] + NodesAll(cs)
    case Form(cs, _, _) => [m] + NodesAll(cs)
    case _ => [m]
  }

  function NodesAll(ms: seq<Markup>): seq<Markup>
    decreases ms
  {
    if ms == [] then [] else Nodes(ms[0]) + NodesAll(ms[1..])
  }

  lemma {:induction false} NodesAllAppend(a: seq<Markup>, b: seq<Markup>)
    ensures NodesAll(a + b) == NodesAll(a) + NodesAll(b)
    decreases |a|
  {
    if a == [] {
      assert a + b == b;
    } else {
      assert (a + b)[0] == a[0];
      assert (a + b)[1..] == a[1..] + b;
      NodesAllAppend(a[1..], b);
    }
  }

  /** A node without children. */
  predicate IsLeaf(m: Markup)
  {
    !(m.Container? || m.Div? || m.SelectTag? || m.Form?)
  }

  /** The children of a node (none for a leaf). */
  function ChildrenOf(m: Markup): seq<Markup>
  {
    if IsLeaf(m) then [] else m.children
  }

  lemma NodesUnfold(m: Markup)
    ensures Nodes(m) == [m] + NodesAll(ChildrenOf(m))
  {
    match m
    case Container(_) =>
    case Div(_, _, _) =>
    case SelectTag(_, _, _) =>
    case Form(_, _, _) =>
    case _ => assert NodesAll([]) == [];
  }

  lemma NodesAllCons(x: Markup, ms: seq<Markup>)
    ensures NodesAll([x] + ms) == Nodes(x) + NodesAll(ms)
  {
    assert ([x] + ms)[0] == x;
    assert ([x] + ms)[1..] == ms;
  }

  /** The nodes of a container of two leaves. */
  lemma PairNodes(d: Markup)
    requires d.Div? && |d.children| == 2 && IsLeaf(d.children[0]) && IsLeaf(d.children[1])
    ensures Nodes(d) == [d, d.children[0], d.children[1]]
  {
    var cs := d.children;
    NodesUnfold(d);
    NodesUnfold(cs[0]);
    NodesUnfold(cs[1]);
    assert cs == [cs[0]] + ([cs[1]] + []);
    NodesAllCons(cs[0], [cs[1]] + []);
    NodesAllCons(cs[1], []);
  }

  /** The nodes of a node whose children are a leaf and one other tree. */
  lemma LeafThenGroupNodes(d: Markup)
    requires !IsLeaf(d) && |d.children| == 2 && IsLeaf(d.children[0])
    ensures Nodes(d) == [d, d.children[0]] + Nodes(d.children[1])
  {
    var cs := d.children;
    NodesUnfold(d);
    NodesUnfold(cs[0]);
    assert cs == [cs[0]] + ([cs[1]] + []);
    NodesAllCons(cs[0], [cs[1]] + []);
    NodesAllCons(cs[1], []);
    assert NodesAll([]) == [];
  }

  lemma {:induction false} FormFree(ns: seq<Markup>)
    ensures FormCount(ns) == 0 <==> forall i :: 0 <= i < |ns| ==> !ns[i].Form?
    decreases |ns|
  {
    if ns != [] {
      FormFree(ns[1..]);
      assert forall i :: 1 <= i < |ns| ==> ns[i] == ns[1..][i - 1];
    }
  }

  /** A tree whose nodes include no button and no form. */
  predicate Inert(m: Markup)
  {
    ButtonCount(Nodes(m)) == 0 && FormCount(Nodes(m)) == 0
  }

  lemma {:induction false} InertAll(ms: seq<Markup>)
    requires forall i :: 0 <= i < |ms| ==> Inert(ms[i])
    ensures ButtonCount(NodesAll(ms)) == 0 && FormCount(NodesAll(ms)) == 0
    decreases |ms|
  {
    if ms != [] {
      InertAll(ms[1..]);
      ButtonCountAppend(Nodes(ms[0]), NodesAll(ms[1..]));
      FormCountAppend(Nodes(ms[0]), NodesAll(ms[1..]));
    }
  }

  /** A list of leaves is its own list of nodes. */
  lemma {:induction false} LeavesNodes(ms: seq<Markup>)
    requires forall i :: 0 <= i < |ms| ==> IsLeaf(ms[i])
    ensures NodesAll(ms) == ms
    decreases |ms|
  {
    if ms != [] {
      LeavesNodes(ms[1..]);
      NodesUnfold(ms[0]);
      assert NodesAll([]) == [];
    }
  }

  /** A node that submits data under a name. */
  predicate IsControl(n: Markup)
  {
    n.Input? || n.SelectTag? || n.TextareaTag?
  }

  /** The names of the data controls among `ns`, in order. */
  function ControlNamesOf(ns: seq<Markup>): (r: seq<string>)
    ensures |r| <= |ns|
  {
    if ns == [] then [] else ControlName(ns[0]) + ControlNamesOf(ns[1..])
  }

  /** The name a node submits under, if it is a control. */
  function ControlName(n: Markup): (r: seq<string>)
    ensures |r| <= 1
  {
    if IsControl(n) then [n.name] else []
  }

  /** A list without controls submits nothing. */
  lemma {:induction false} NoControlNames(ns: seq<Markup>)
    requires forall i :: 0 <= i < |ns| ==> !IsControl(ns[i])
    ensures ControlNamesOf(ns) == []
    decreases |ns|
  {
    if ns != [] {
      NoControlNames(ns[1..]);
    }
  }

  lemma {:induction false} ControlNamesOfAppend(a: seq<Markup>, b: seq<Markup>)
    ensures ControlNamesOf(a + b) == ControlNamesOf(a) + ControlNamesOf(b)
    decreases |a|
  {
    if a == [] {
      assert a + b == b;
    } else {
      var c := a + b;
      assert c[0] == a[0] && c[1..] == a[1..] + b;
      ControlNamesOfAppend(a[1..], b);
      calc {
        ControlNamesOf(c);
        ControlName(a[0]) + ControlNamesOf(a[1..] + b);
        ControlName(a[0]) + (ControlNamesOf(a[1..]) + ControlNamesOf(b));
      }
    }
  }

  lemma ControlNamesOfTriple(a: Markup, b: Markup, c: Markup)
    ensures ControlNamesOf([a, b, c])
         == ControlName(a) + ControlName(b) + ControlName(c)
  {
    assert [a, b, c][1..] == [b, c];
    assert [b, c][1..] == [c];
    assert [c][1..] == [];
    assert ControlNamesOf([c]) == ControlName(c) + ControlNamesOf([]);
    assert ControlNamesOf([b, c]) == ControlName(b) + ControlNamesOf([c]);
  }

  /** The nodes of a titled page: the page, its heading, its body, then
      the body's children. */
  lemma TitledNodes(page: Markup)
    requires !IsLeaf(page) && |page.children| == 2
    requires IsLeaf(page.children[0]) && !IsLeaf(page.children[1])
    ensures Nodes(page) == [page, page.children[0], page.children[1]] + NodesAll(page.children[1].children)
  {
    var w := page.children[1];
    LeafThenGroupNodes(page);
    NodesUnfold(w);
    assert ChildrenOf(w) == w.children;
  }

  /** The data controls of a titled page are those of its body's children. */
  lemma TitledControlNames(page: Markup)
    requires !IsLeaf(page) && !IsControl(page) && |page.children| == 2
    requires IsLeaf(page.children[0]) && !IsControl(page.children[0])
    requires !IsLeaf(page.children[1]) && !IsControl(page.children[1])
    ensures ControlNames(page) == ControlNamesOf(NodesAll(page.children[1].children))
  {
    var w := page.children[1];
    TitledNodes(page);
    ControlNamesOfAppend([page, page.children[0], w], NodesAll(w.children));
    ControlNamesOfTriple(page, page.children[0], w);
  }

  /** The buttons and forms of a titled page: those of its body's children,
      plus the body itself when it is a form. */
  lemma TitledCounts(page: Markup)
    requires !IsLeaf(page) && !page.Form? && |page.children| == 2
    requires IsLeaf(page.children[0]) && !page.children[0].Button? && !page.children[0].Form?
    requires !IsLeaf(page.children[1])
    ensures ButtonCount(Nodes(page)) == ButtonCount(NodesAll(page.children[1].children))
    ensures FormCount(Nodes(page)) == (if page.children[1].Form? then 1 else 0)
                                      + FormCount(NodesAll(page.children[1].children))
  {
    var w := page.children[1];
    var rest := NodesAll(w.children);
    TitledNodes(page);
    assert [page, page.children[0], w] + rest == [page] + ([page.children[0]] + ([w] + rest));
    CountsCons(page, [page.children[0]] + ([w] + rest));
    CountsCons(page.children[0], [w] + rest);
    CountsCons(w, rest);
  }

  /** The counts of a list with one more node in front. */
  lemma CountsCons(x: Markup, ns: seq<Markup>)
    ensures ButtonCount([x] + ns) == (if x.Button? then 1 else 0) + ButtonCount(ns)
    ensures FormCount([x] + ns) == (if x.Form? then 1 else 0) + FormCount(ns)
  {
    assert ([x] + ns)[1..] == ns;
  }

  /** The names under which the data controls of a tree submit, in order. */
  function ControlNames(m: Markup): seq<string>
  {
    ControlNamesOf(Nodes(m))
  }

  /** How many of `ns` are buttons. */
  function ButtonCount(ns: seq<Markup>): (r: nat)
    ensures r <= |ns|
  {
    if ns == [] then 0 else (if ns[0].Button? then 1 else 0) + ButtonCount(ns[1..])
  }

  lemma {:induction false} ButtonCountAppend(a: seq<Markup>, b: seq<Markup>)
    ensures ButtonCount(a + b) == ButtonCount(a) + ButtonCount(b)
    decreases |a|
  {
    if a == [] {
      assert a + b == b;
    } else {
      assert (a + b)[0] == a[0];
      assert (a + b)[1..] == a[1..] + b;
      ButtonCountAppend(a[1..], b);
    }
  }

  lemma {:induction false} ButtonFree(ns: seq<Markup>)
    ensures ButtonCount(ns) == 0 <==> forall i :: 0 <= i < |ns| ==> !ns[i].Button?
    decreases |ns|
  {
    if ns != [] {
      ButtonFree(ns[1..]);
      assert forall i :: 1 <= i < |ns| ==> ns[i] == ns[1..][i - 1];
    }
  }

  /** How many of `ns` are forms. */
  function FormCount(ns: seq<Markup>): (r: nat)
    ensures r <= |ns|
  {
    if ns == [] then 0 else (if ns[0].Form? then 1 else 0) + FormCount(ns[1..])
  }

  lemma {:induction false} FormCountAppend(a: seq<Markup>, b: seq<Markup>)
    ensures FormCount(a + b) == FormCount(a) + FormCount(b)
    decreases |a|
  {
    if a == [] {
      assert a + b == b;
    } else {
      assert (a + b)[0] == a[0];
      assert (a + b)[1..] == a[1..] + b;
      FormCountAppend(a[1..], b);
    }
  }

  /** One choice offered to a user: the name and value it submits, the
      caption shown for it, and, for a toggle, the `id` of the input and the
      `for` of the label beside it (a browser ties the caption to the input
      only when the two agree). */
  datatype Pick = Pick(name: string, value: string, caption: string, required: Option<bool>,
                       inputId: Option<string>, labelFor: Option<string>)

  /** A toggle item: a valued input directly followed by its label. */
  predicate IsItem(cs: seq<Markup>)
  {
    |cs| == 2 && cs[0].Input? && cs[0].value.Some? && cs[1].Label?
  }

  /** The choices a tree offers, in document order: every option of a
      select list, and every toggle item. */
  function Picks(m: Markup): seq<Pick>
    decreases m
  {
    match m
    case Container(cs) => PicksAll(cs)
    case Div(cs, _, _) =>
      if IsItem(cs) then [ItemPick(m)] else PicksAll(cs)
    case SelectTag(cs, name, req) => SelectPicks(cs, name, req)
    case Form(cs, _, _) => PicksAll(cs)
    case _ => []
  }

  function PicksAll(ms: seq<Markup>): seq<Pick>
    decreases ms
  {
    if ms == [] then [] else Picks(ms[0]) + PicksAll(ms[1..])
  }

  lemma PicksAllPair(a: Markup, b: Markup)
    ensures PicksAll([a, b]) == Picks(a) + Picks(b)
  {
    assert [a, b][1..] == [b];
    assert [b][1..] == [];
    assert PicksAll([b]) == Picks(b) + PicksAll([]);
  }

  lemma PicksAllCons(x: Markup, ms: seq<Markup>)
    ensures PicksAll([x] + ms) == Picks(x) + PicksAll(ms)
  {
    assert ([x] + ms)[0] == x;
    assert ([x] + ms)[1..] == ms;
  }

  /** The options of a select list named `name` whose `required` flag is
      `req`. */
  function SelectPicks(ms: seq<Markup>, name: string, req: Option<bool>): (r: seq<Pick>)
    ensures |r| <= |ms|
  {
    if ms == [] then []
    else
      (if ms[0].OptionTag?
       then [Pick(name, ms[0].optionValue, ms[0].optionLabel, req, None, None)]
       else [])
      + SelectPicks(ms[1..], name, req)
  }

  /** A `Div` of two leaves holds a button or form only if a leaf is one,
      and submits under the names of its leaf controls. */
  lemma PairReadings(d: Markup)
    requires d.Div? && |d.children| == 2 && IsLeaf(d.children[0]) && IsLeaf(d.children[1])
    requires !d.children[0].Button? && !d.children[0].Form?
    requires !d.children[1].Button? && !d.children[1].Form?
    ensures Inert(d)
    ensures ControlNames(d) == ControlName(d.children[0]) + ControlName(d.children[1])
  {
    PairNodes(d);
    ButtonFree(Nodes(d));
    FormFree(Nodes(d));
    ControlNamesOfTriple(d, d.children[0], d.children[1]);
  }

  /** A toggle item as a tree: a `Div` holding an input and its label. */
  predicate IsItemNode(m: Markup)
  {
    m.Div? && IsItem(m.children)
  }

  /** The name a toggle item submits under. */
  function ItemName(it: Markup): string
    requires IsItemNode(it)
  {
    it.children[0].name
  }

  /** The choice a toggle item offers. */
  function ItemPick(it: Markup): Pick
    requires IsItemNode(it)
  {
    var cs := it.children;
    Pick(cs[0].name, cs[0].value.value, cs[1].text, cs[0].required, cs[0].id, cs[1].target)
  }

  /** A toggle item holds no button and no form, its one control submits
      under the input's name, and it offers its one choice. */
  lemma ItemReadings(it: Markup)
    requires IsItemNode(it)
    ensures Inert(it)
    ensures ControlNames(it) == [ItemName(it)]
    ensures Picks(it) == [ItemPick(it)]
  {
    PairNodes(it);
    ButtonFree(Nodes(it));
    FormFree(Nodes(it));
    ControlNamesOfTriple(it, it.children[0], it.children[1]);
  }

  /** A run of toggle items submits under each item's input name, once per
      item, in order. */
  lemma {:induction false} ItemsControlNames(ms: seq<Markup>)
    requires forall i :: 0 <= i < |ms| ==> IsItemNode(ms[i])
    ensures var cn := ControlNamesOf(NodesAll(ms));
      |cn| == |ms| && forall j :: 0 <= j < |ms| ==> cn[j] == ItemName(ms[j])
  {
    if ms != [] {
      ItemsControlNames(ms[1..]);
      ItemReadings(ms[0]);
      ControlNamesOfAppend(Nodes(ms[0]), NodesAll(ms[1..]));
    }
  }

  /** A run of toggle items offers each item's choice, in order. */
  lemma {:induction false} ItemsPicks(ms: seq<Markup>)
    requires forall i :: 0 <= i < |ms| ==> IsItemNode(ms[i])
    ensures |PicksAll(ms)| == |ms| && forall j :: 0 <= j < |ms| ==> PicksAll(ms)[j] == ItemPick(ms[j])
  {
    if ms != [] {
      ItemsPicks(ms[1..]);
      ItemReadings(ms[0]);
    }
  }

  /** A run of toggle items holds no button and no form. */
  lemma ItemsInert(ms: seq<Markup>)
    requires forall i :: 0 <= i < |ms| ==> IsItemNode(ms[i])
    ensures ButtonCount(NodesAll(ms)) == 0 && FormCount(NodesAll(ms)) == 0
  {
    forall i | 0 <= i < |ms| ensures Inert(ms[i]) {
      ItemReadings(ms[i]);
    }
    InertAll(ms);
  }
}
