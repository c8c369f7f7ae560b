/** The analytics page (`show_analytics`, main.py, lines 273-314): for every
    field of a form, the answers of all responses to that field, summarised
    according to the field's kind, plus the total number of responses. */
module Analytics {
  import opened Wrappers
  import opened Schema
  import opened StringOrder
  import opened FloatSyntax

  /** What `min`/`max` fall back to when a field has no answers. */
  const NotAvailable := "N/A"

  /** How one field's answers are shown: the list itself (text, text area),
      the least and greatest answer (number, date), or the count of each
      option value (radio, select, checkbox). */
  datatype Summary =
    | Listed(answers: seq<string>)
    | Extremes(low: string, high: string)
    | Tally(counts: seq<(string, nat)>)

  /** The section of the page for one field, headed by the field's label. */
  datatype Section = Section(caption: string, summary: Summary)

  /** The whole page: the form's title, the number of responses and one
      section per field. */
  datatype Report = Report(title: string, total: nat, sections: seq<Section>)

  // ---------------------------------------------------------------------
  // Answers of one field.

  /** The answers to the field called `name`: one per response, in
      response order, blank where a response has no entry for it. */
  function Answers(responses: seq<FormResponse>, name: string): (r: seq<string>)
    ensures |r| == |responses|
    ensures forall i :: 0 <= i < |responses| ==> r[i] == Get(responses[i].data, name, "")
  {
    if responses == [] then []
    else [Get(responses[0].data, name, "")] + Answers(responses[1..], name)
  }

  /** Collecting answers commutes with concatenating response lists. */
  lemma {:induction false} AnswersAppend(a: seq<FormResponse>, b: seq<FormResponse>, name: string)
    ensures Answers(a + b, name) == Answers(a, name) + Answers(b, name)
  {
  }

  // ---------------------------------------------------------------------
  // Least and greatest answer.

  /** The least answer in Python's string order, or "N/A" without answers. */
  function Low(answers: seq<string>): (r: string)
    ensures answers != [] ==> r in answers
  {
    if answers == [] then NotAvailable else MinOfLeast(answers); MinOf(answers)
  }

  /** The greatest answer in Python's string order, or "N/A" without
      answers. */
  function High(answers: seq<string>): (r: string)
    ensures answers != [] ==> r in answers
  {
    if answers == [] then NotAvailable else MaxOfGreatest(answers); MaxOf(answers)
  }

  /** The extremes are answers that no answer undercuts or exceeds in
      Python's string order (so "10" is below "9", and an unanswered field's
      "" is the least of all); without answers both read "N/A". */
  lemma ExtremesMeaning(answers: seq<string>)
    ensures answers == [] ==> Low(answers) == NotAvailable && High(answers) == NotAvailable
    ensures answers != [] ==>
      && Low(answers) in answers && High(answers) in answers
      && (forall i :: 0 <= i < |answers| ==> !LexLess(answers[i], Low(answers)))
      && (forall i :: 0 <= i < |answers| ==> !LexLess(High(answers), answers[i]))
  {
    if answers != [] {
      MinOfLeast(answers);
      MaxOfGreatest(answers);
    }
  }

  /** A blank answer is the minimum of any list that contains one. */
  lemma BlankIsLowest(answers: seq<string>)
    requires "" in answers
    ensures Low(answers) == ""
  {
    forall i | 0 <= i < |answers| ensures !LexLess(answers[i], "") {
      EmptyLeast(answers[i]);
    }
    MinOfUnique(answers, "");
  }

  /** The comparison is on strings, not numbers: among "9" and "10" the
      maximum is "9". */
  lemma StringNotNumeric()
    ensures High(["9", "10"]) == "9" && Low(["9", "10"]) == "10"
  {
    var xs := ["9", "10"];
    assert LexLess("10", "9") by {
      assert "10"[0] == '1' && "9"[0] == '9';
    }
    LexIrreflexive("9");
    LexIrreflexive("10");
    LexAsymmetric("10", "9");
    MaxOfUnique(xs, "9");
    MinOfUnique(xs, "10");
  }

  // ---------------------------------------------------------------------
  // Counting option values.

  /** How many elements of `xs` equal `x`. */
  function Count(xs: seq<string>, x: string): (r: nat)
    ensures r <= |xs|
  {
    if xs == [] then 0 else (if xs[0] == x then 1 else 0) + Count(xs[1..], x)
  }

  /** The count is the multiplicity of the value in the list. */
  lemma {:induction false} CountIsMultiplicity(xs: seq<string>, x: string)
    ensures Count(xs, x) == multiset(xs)[x]
  {
    if xs != [] {
      assert xs == [xs[0]] + xs[1..];
      CountIsMultiplicity(xs[1..], x);
    }
  }

  predicate Distinct(ks: seq<string>)
  {
    forall a, b :: 0 <= a < b < |ks| ==> ks[a] != ks[b]
  }

  /** The keys of a dictionary kept as its entries in insertion order. */
  function KeysOf(d: seq<(string, nat)>): (r: seq<string>)
    ensures |r| == |d| && forall i :: 0 <= i < |d| ==> r[i] == d[i].0
  {
    if d == [] then [] else [d[0].0] + KeysOf(d[1..])
  }

  /** `d[k] = v` on an insertion-ordered dictionary: an existing key keeps
      its position and takes the new value, a new key goes at the end. */
  function Put(d: seq<(string, nat)>, k: string, v: nat): (r: seq<(string, nat)>)
    ensures |r| == if k in KeysOf(d) then |d| else |d| + 1
    ensures (k, v) in r
  {
    if k in KeysOf(d) then
      var r := seq(|d|, i requires 0 <= i < |d| => if d[i].0 == k then (k, v) else d[i]);
      assert forall j :: 0 <= j < |d| && d[j].0 == k ==> r[j] == (k, v);
      r
    else d + [(k, v)]
  }

  /** After `d[k] = v`, the key set has gained `k`, `k` maps to `v`, every
      other key keeps its entry and position, and keys stay distinct. */
  lemma PutMeaning(d: seq<(string, nat)>, k: string, v: nat)
    requires Distinct(KeysOf(d))
    ensures var r := Put(d, k, v);
      && Distinct(KeysOf(r))
      && (k in KeysOf(d) ==> KeysOf(r) == KeysOf(d))
      && (k !in KeysOf(d) ==> KeysOf(r) == KeysOf(d) + [k] && r[|d|] == (k, v))
      && (forall i :: 0 <= i < |r| && r[i].0 == k ==> r[i].1 == v)
      && (forall i :: 0 <= i < |d| && d[i].0 != k ==> r[i] == d[i])
  {
    PutKeys(d, k, v);
  }

  /** The keys after `d[k] = v`. */
  lemma PutKeys(d: seq<(string, nat)>, k: string, v: nat)
    ensures k in KeysOf(d) ==> KeysOf(Put(d, k, v)) == KeysOf(d)
    ensures k !in KeysOf(d) ==> KeysOf(Put(d, k, v)) == KeysOf(d) + [k]
  {
    var r := Put(d, k, v);
    if k in KeysOf(d) {
      assert KeysOf(r) == KeysOf(d);
    } else {
      assert KeysOf(r) == KeysOf(d) + [k];
    }
  }

  /** The values of a field's options, in order. */
  function Values(os: seq<Options>): (r: seq<string>)
    ensures |r| == |os| && forall i :: 0 <= i < |os| ==> r[i] == os[i].value
  {
    if os == [] then [] else [os[0].value] + Values(os[1..])
  }

  /** The dictionary from each option value to the number of answers equal
      to it, built by assigning one value after another, so a repeated value
      keeps its first position; the last assignment is applied last. */
  function OptionCounts(vals: seq<string>, answers: seq<string>): (r: seq<(string, nat)>)
    ensures |r| <= |vals|
    ensures vals != [] ==> |r| > 0
    decreases |vals|
  {
    if vals == [] then []
    else
      var k := vals[|vals| - 1];
      Put(OptionCounts(vals[..|vals| - 1], answers), k, Count(answers, k))
  }

  /** The tally has one entry per distinct option value, in the order in
      which the values first appear among the options, and each entry holds
      the number of answers equal to its value. */
  lemma OptionCountsShape(vals: seq<string>, answers: seq<string>)
    ensures var d := OptionCounts(vals, answers); var ks := KeysOf(d);
      && Distinct(ks)
      && (forall k :: k in ks <==> k in vals)
      && (forall i :: 0 <= i < |d| ==> d[i].1 == Count(answers, d[i].0))
      && (forall a, b, j :: 0 <= a < b < |ks| && 0 <= j < |vals| && vals[j] == ks[b] ==>
            ks[a] in vals[..j])
  {
    OptionCountsEntries(vals, answers);
    OptionCountsOrder(vals, answers);
  }

  /** The entries: distinct keys, exactly the option values, each with its
      count. */
  lemma {:induction false} OptionCountsEntries(vals: seq<string>, answers: seq<string>)
    ensures var d := OptionCounts(vals, answers); var ks := KeysOf(d);
      && Distinct(ks)
      && (forall k :: k in ks <==> k in vals)
      && (forall i :: 0 <= i < |d| ==> d[i].1 == Count(answers, d[i].0))
    decreases |vals|
  {
    if vals != [] {
      var n := |vals| - 1;
      var k := vals[n];
      var d0 := OptionCounts(vals[..n], answers);
      OptionCountsEntries(vals[..n], answers);
      PutMeaning(d0, k, Count(answers, k));
      var d := OptionCounts(vals, answers);
      assert vals == vals[..n] + [k];
      forall i | 0 <= i < |d| ensures d[i].1 == Count(answers, d[i].0) {
        if d[i].0 != k {
          assert i < |d0| && d[i] == d0[i];
        }
      }
    }
  }

  /** The order of the keys: a key listed before another occurs among the
      option values before every occurrence of the other. */
  lemma {:induction false} OptionCountsOrder(vals: seq<string>, answers: seq<string>)
    ensures var ks := KeysOf(OptionCounts(vals, answers));
      forall a, b, j :: 0 <= a < b < |ks| && 0 <= j < |vals| && vals[j] == ks[b] ==> ks[a] in vals[..j]
    decreases |vals|
  {
    if vals != [] {
      var n := |vals| - 1;
      var k := vals[n];
      var p := vals[..n];
      var d0 := OptionCounts(p, answers);
      OptionCountsOrder(p, answers);
      OptionCountsEntries(p, answers);
      PutKeys(d0, k, Count(answers, k));
      var ks := KeysOf(OptionCounts(vals, answers));
      assert vals == p + [k];
      forall a, b, j | 0 <= a < b < |ks| && 0 <= j < |vals| && vals[j] == ks[b]
        ensures ks[a] in vals[..j]
      {
        OrderStep(p, k, KeysOf(d0), ks, a, b, j);
      }
    }
  }

  /** The step of `OptionCountsOrder`: the keys `ks` after adding the
      value `k` to the values `p` whose keys are `ks0`. */
  lemma OrderStep(p: seq<string>, k: string, ks0: seq<string>, ks: seq<string>, a: int, b: int, j: int)
    requires forall x :: x in ks0 <==> x in p
    requires forall a, b, j :: 0 <= a < b < |ks0| && 0 <= j < |p| && p[j] == ks0[b] ==> ks0[a] in p[..j]
    requires k in ks0 ==> ks == ks0
    requires k !in ks0 ==> ks == ks0 + [k]
    requires 0 <= a < b < |ks| && 0 <= j <= |p| && (p + [k])[j] == ks[b]
    ensures ks[a] in (p + [k])[..j]
  {
    if j < |p| {
      assert (p + [k])[..j] == p[..j] && p[j] == ks[b];
      if k !in ks0 {
        // ks[b] is an earlier value, hence an earlier key, hence not k
        assert ks[b] in ks0 && ks[b] != k;
        assert b < |ks0|;
      }
    } else if k in ks0 {
      var j0 :| 0 <= j0 < |p| && p[j0] == k;
      assert ks[a] in p[..j0];
      assert p[..j0] == (p + [k])[..j0];
    } else {
      assert ks[a] == ks0[a] && ks0[a] in p;
      assert (p + [k])[..j] == p;
    }
  }

  /** One more answer counts once more for its own value only. */
  lemma {:induction false} CountSnoc(xs: seq<string>, a: string, x: string)
    ensures Count(xs + [a], x) == Count(xs, x) + (if a == x then 1 else 0)
  {
    if xs == [] {
      assert [] + [a] == [a];
    } else {
      assert (xs + [a])[1..] == xs[1..] + [a];
      CountSnoc(xs[1..], a, x);
    }
  }

  /** The keys of the tally depend on the option values alone. */
  lemma {:induction false} OptionCountsKeys(vals: seq<string>, a1: seq<string>, a2: seq<string>)
    ensures KeysOf(OptionCounts(vals, a1)) == KeysOf(OptionCounts(vals, a2))
    decreases |vals|
  {
    if vals != [] {
      var n := |vals| - 1;
      var k := vals[n];
      OptionCountsKeys(vals[..n], a1, a2);
      OptionCountsShape(vals[..n], a1);
      OptionCountsShape(vals[..n], a2);
      PutMeaning(OptionCounts(vals[..n], a1), k, Count(a1, k));
      PutMeaning(OptionCounts(vals[..n], a2), k, Count(a2, k));
    }
  }

  /** One more answer raises the count of its own value by one and leaves
      every other entry, and the order of the entries, as it was. */
  lemma TallyAfterAnswer(vals: seq<string>, answers: seq<string>, a: string)
    ensures var before := OptionCounts(vals, answers);
      var after := OptionCounts(vals, answers + [a]);
      && |after| == |before|
      && forall i :: 0 <= i < |before| ==>
           after[i].0 == before[i].0 && after[i].1 == before[i].1 + (if a == before[i].0 then 1 else 0)
  {
    var before := OptionCounts(vals, answers);
    var after := OptionCounts(vals, answers + [a]);
    OptionCountsKeys(vals, answers, answers + [a]);
    OptionCountsShape(vals, answers);
    OptionCountsShape(vals, answers + [a]);
    forall i | 0 <= i < |before|
      ensures after[i].0 == before[i].0 && after[i].1 == before[i].1 + (if a == before[i].0 then 1 else 0)
    {
      assert KeysOf(after)[i] == KeysOf(before)[i];
      CountSnoc(answers, a, before[i].0);
    }
  }

  /** The sum of the counts of a tally. */
  function SumCounts(d: seq<(string, nat)>): (r: nat)
  {
    if d == [] then 0 else d[0].1 + SumCounts(d[1..])
  }

  /** The answers that match none of the keys. */
  function Unmatched(answers: seq<string>, ks: seq<string>): (r: nat)
    ensures r <= |answers|
  {
    if answers == [] then 0
    else (if answers[0] in ks then 0 else 1) + Unmatched(answers[1..], ks)
  }

  /** The number of answers equal to each key in turn, added up. */
  function CountAll(ks: seq<string>, answers: seq<string>): (r: nat)
  {
    if ks == [] then 0 else Count(answers, ks[0]) + CountAll(ks[1..], answers)
  }

  lemma {:induction false} SumCountsIsCountAll(d: seq<(string, nat)>, answers: seq<string>)
    requires forall i :: 0 <= i < |d| ==> d[i].1 == Count(answers, d[i].0)
    ensures SumCounts(d) == CountAll(KeysOf(d), answers)
  {
    if d != [] {
      SumCountsIsCountAll(d[1..], answers);
      assert KeysOf(d)[1..] == KeysOf(d[1..]);
    }
  }

  lemma {:induction false} CountAllFirst(ks: seq<string>, answers: seq<string>)
    requires answers != []
    ensures CountAll(ks, answers) == Count(ks, answers[0]) + CountAll(ks, answers[1..])
  {
    if ks != [] {
      CountAllFirst(ks[1..], answers);
    }
  }

  lemma {:induction false} CountDistinct(ks: seq<string>, x: string)
    requires Distinct(ks)
    ensures Count(ks, x) == if x in ks then 1 else 0
  {
    if ks != [] {
      CountDistinct(ks[1..], x);
      if ks[0] == x {
        assert forall j :: 0 <= j < |ks[1..]| ==> ks[1..][j] == ks[j + 1] != x;
      }
    }
  }

  /** Every answer is either counted under exactly one key or unmatched. */
  lemma {:induction false} CountAllCover(ks: seq<string>, answers: seq<string>)
    requires Distinct(ks)
    ensures CountAll(ks, answers) + Unmatched(answers, ks) == |answers|
  {
    if answers == [] {
      CountAllEmpty(ks);
    } else {
      CountAllFirst(ks, answers);
      CountDistinct(ks, answers[0]);
      CountAllCover(ks, answers[1..]);
    }
  }

  lemma {:induction false} CountAllEmpty(ks: seq<string>)
    ensures CountAll(ks, []) == 0
  {
    if ks != [] {
      CountAllEmpty(ks[1..]);
    }
  }

  lemma {:induction false} UnmatchedZero(answers: seq<string>, ks: seq<string>)
    ensures Unmatched(answers, ks) == 0 <==> forall i :: 0 <= i < |answers| ==> answers[i] in ks
  {
    if answers != [] {
      UnmatchedZero(answers[1..], ks);
      if Unmatched(answers, ks) == 0 {
        forall i | 0 <= i < |answers| ensures answers[i] in ks {
          if i > 0 {
            assert answers[i] == answers[1..][i - 1];
          }
        }
      }
    }
  }

  /** The counts never add up to more than the number of responses, and
      they add up to exactly that number when, and only when, every answer
      is one of the option values. */
  lemma TallyTotal(vals: seq<string>, answers: seq<string>)
    ensures SumCounts(OptionCounts(vals, answers)) <= |answers|
    ensures SumCounts(OptionCounts(vals, answers)) == |answers|
            <==> forall i :: 0 <= i < |answers| ==> answers[i] in vals
  {
    var d := OptionCounts(vals, answers);
    OptionCountsShape(vals, answers);
    SumCountsIsCountAll(d, answers);
    CountAllCover(KeysOf(d), answers);
    UnmatchedZero(answers, KeysOf(d));
  }

  // ---------------------------------------------------------------------
  // The average.

  /** The kinds whose section shows an average and the extremes. */
  predicate IsStatsType(t: FieldType)
  {
    t == Number || t == Date
  }

  /** An answer the average survives: blank ones are skipped, the others
      are converted with `float`. Only the empty answer is skipped, so an
      answer of white space alone raises. */
  predicate Convertible(a: string)
    ensures AllSpaces(a) ==> (Convertible(a) <==> a == "")
  {
    if AllSpaces(a) then SpacesRejected(a); a == "" else ParsesAsFloat(a)
  }

  /** Every answer converts, so the average can be computed. */
  predicate Averageable(answers: seq<string>)
  {
    forall i :: 0 <= i < |answers| ==> Convertible(answers[i])
  }

  /** The first answer whose conversion raises, if any. */
  function FirstUnparsable(answers: seq<string>): (r: Option<string>)
    ensures r.None? <==> Averageable(answers)
    ensures r.Some? ==> r.value in answers && !Convertible(r.value)
  {
    if answers == [] then None
    else if !Convertible(answers[0]) then Some(answers[0])
    else
      var r := FirstUnparsable(answers[1..]);
      assert r.Some? ==> r.value in answers[1..];
      r
  }

  /** The answer reported is the first that does not convert: every
      answer before it does. */
  lemma {:induction false} FirstUnparsableIsFirst(answers: seq<string>)
    requires !Averageable(answers)
    ensures exists i :: 0 <= i < |answers| && answers[i] == FirstUnparsable(answers).value
                        && Averageable(answers[..i])
  {
    if Convertible(answers[0]) {
      var tail := answers[1..];
      FirstUnparsableIsFirst(tail);
      var i :| 0 <= i < |tail| && tail[i] == FirstUnparsable(tail).value && Averageable(tail[..i]);
      assert answers[..i + 1] == [answers[0]] + tail[..i];
      AverageableCons(answers[0], tail[..i]);
      assert answers[i + 1] == tail[i];
    } else {
      assert answers[..0] == [];
    }
  }

  lemma AverageableCons(a: string, answers: seq<string>)
    ensures Averageable([a] + answers) <==> Convertible(a) && Averageable(answers)
  {
    var xs := [a] + answers;
    if Averageable(xs) {
      assert xs[0] == a;
      forall i | 0 <= i < |answers| ensures Convertible(answers[i]) {
        assert xs[i + 1] == answers[i];
      }
    }
    if Convertible(a) && Averageable(answers) {
      forall i | 0 <= i < |xs| ensures Convertible(xs[i]) {
        if i > 0 {
          assert xs[i] == answers[i - 1];
        }
      }
    }
  }

  /** One more answer keeps the list averageable exactly when it converts. */
  lemma AverageableSnoc(answers: seq<string>, a: string)
    ensures Averageable(answers + [a]) <==> Averageable(answers) && Convertible(a)
  {
    if Averageable(answers + [a]) {
      assert (answers + [a])[|answers|] == a;
      forall i | 0 <= i < |answers| ensures Convertible(answers[i]) {
        assert (answers + [a])[i] == answers[i];
      }
    }
  }

  // ---------------------------------------------------------------------
  // The page.

  /** The section of field `f` raises with these answers: a choice field
      without options, or a number or date field with an answer `float`
      rejects. */
  predicate Raises(f: FormField, answers: seq<string>)
  {
    LacksOptions(f) || (IsStatsType(f.kind) && !Averageable(answers))
  }

  /** The section of field `f` raises over these responses. */
  predicate FieldRaises(f: FormField, responses: seq<FormResponse>)
  {
    Raises(f, Answers(responses, f.name))
  }

  /** The section for one field: its answers, one per response, summarised
      by the field's kind. */
  function Summarize(f: FormField, responses: seq<FormResponse>): (r: Result<Section, Fault>)
    ensures r.Failure? <==> FieldRaises(f, responses)
    ensures r.Failure? && LacksOptions(f) ==> r.error == OptionsMissing(f.name)
    ensures r.Failure? && !LacksOptions(f) ==>
      r.error.NotAFloat? && r.error.answer in Answers(responses, f.name) && !Convertible(r.error.answer)
    ensures r.Success? ==> r.value.caption == f.caption
  {
    SectionFor(f, Answers(responses, f.name))
  }

  /** The section for a field with the given answers. */
  function SectionFor(f: FormField, answers: seq<string>): (r: Result<Section, Fault>)
    ensures r.Failure? <==> Raises(f, answers)
    ensures r.Failure? && LacksOptions(f) ==> r.error == OptionsMissing(f.name)
    ensures r.Failure? && !LacksOptions(f) ==>
      r.error.NotAFloat? && r.error.answer in answers && !Convertible(r.error.answer)
    ensures r.Success? ==> r.value.caption == f.caption
  {
    match f.kind
    case Text => Success(Section(f.caption, Listed(answers)))
    case Textarea => Success(Section(f.caption, Listed(answers)))
    case Number => StatsSection(f, answers)
    case Date => StatsSection(f, answers)
    case Radio => TallySection(f, answers)
    case Select => TallySection(f, answers)
    case Checkbox => TallySection(f, answers)
  }

  /** The statistics of a number or date field: the average raises on the
      first answer `float` rejects; otherwise the least and the greatest
      answer are shown (the average's value is not modelled). */
  function StatsSection(f: FormField, answers: seq<string>): (r: Result<Section, Fault>)
    ensures r.Failure? <==> !Averageable(answers)
    ensures r.Failure? ==> r.error.NotAFloat? && r.error.answer in answers && !Convertible(r.error.answer)
    ensures r.Success? ==> r.value.caption == f.caption && r.value.summary.Extremes?
  {
    match FirstUnparsable(answers)
    case Some(a) => Failure(NotAFloat(a))
    case None => Success(Section(f.caption, Extremes(Low(answers), High(answers))))
  }

  /** The counts of a choice field: iterating options that are `None`
      raises; otherwise one count per distinct option value. */
  function TallySection(f: FormField, answers: seq<string>): (r: Result<Section, Fault>)
    ensures r.Failure? <==> f.options.None?
    ensures r.Failure? ==> r.error == OptionsMissing(f.name)
    ensures r.Success? ==> r.value.caption == f.caption && r.value.summary.Tally?
    ensures r.Success? ==>
      var d := r.value.summary.counts; var ks := KeysOf(d);
      && Distinct(ks)
      && (forall k :: k in ks <==> k in Values(f.options.value))
      && (forall i :: 0 <= i < |d| ==> d[i].1 == Count(answers, d[i].0))
  {
    match f.options
    case None => Failure(OptionsMissing(f.name))
    case Some(os) =>
      OptionCountsShape(Values(os), answers);
      Success(Section(f.caption, Tally(OptionCounts(Values(os), answers))))
  }

  /** A date answer in the form a date input submits makes the section of a
      number or date field raise: `float` does not read dates. */
  lemma DateAnswerRaises(f: FormField, responses: seq<FormResponse>, k: int, y: string, m: string, d: string)
    requires IsStatsType(f.kind)
    requires |y| > 0 && AllDigits(y) && |m| > 0 && AllDigits(m) && |d| > 0 && AllDigits(d)
    requires 0 <= k < |responses| && Get(responses[k].data, f.name, "") == y + "-" + m + "-" + d
    ensures Summarize(f, responses).Failure? && Summarize(f, responses).error.NotAFloat?
  {
    IsoDateRejected(y, m, d);
    assert Answers(responses, f.name)[k] == y + "-" + m + "-" + d;
  }

  /** The sections of all fields: the evaluation stops at the first field
      whose section raises, and otherwise yields one section per field, in
      field order. */
  function SummarizeAll(fields: seq<FormField>, responses: seq<FormResponse>): (r: Result<seq<Section>, Fault>)
    ensures r.Success? <==> forall i :: 0 <= i < |fields| ==> !FieldRaises(fields[i], responses)
    ensures r.Success? ==>
      |r.value| == |fields| &&
      forall i :: 0 <= i < |fields| ==> r.value[i] == Summarize(fields[i], responses).value
    ensures r.Failure? ==>
      exists i :: 0 <= i < |fields| && FieldRaises(fields[i], responses)
                  && r.error == Summarize(fields[i], responses).error
                  && forall j :: 0 <= j < i ==> !FieldRaises(fields[j], responses)
  {
    if fields == [] then Success([])
    else
      match Summarize(fields[0], responses)
      case Failure(e) => Failure(e)
      case Success(s) =>
        match SummarizeAll(fields[1..], responses)
        case Failure(e) => Failure(e)
        case Success(rest) => Success([s] + rest)
  }

  /** The page as a function of the form and its responses. */
  function Analyze(form: DynamicForm, responses: seq<FormResponse>): (r: Result<Report, Fault>)
    ensures r.Success? ==> r.value.title == form.title && r.value.total == |responses|
  {
    match SummarizeAll(form.fields, responses)
    case Failure(e) => Failure(e)
    case Success(sections) => Success(Report(form.title, |responses|, sections))
  }

  /** How the section of a field changes when a response answering `a` is
      added to `n` earlier ones: the list gains `a` at its end, the extremes
      take `a` in when it lies beyond them (or become `a` if it is the first
      answer), and the tally counts `a` once more under its own value. */
  predicate SectionGrows(s0: Section, s1: Section, n: nat, a: string)
  {
    && s1.caption == s0.caption
    && match s0.summary
       case Listed(l0) => s1.summary == Listed(l0 + [a])
       case Extremes(lo, hi) =>
         s1.summary == (if n == 0 then Extremes(a, a)
                        else Extremes(if LexLess(a, lo) then a else lo, if LexLess(hi, a) then a else hi))
       case Tally(c0) =>
         && s1.summary.Tally? && |s1.summary.counts| == |c0|
         && forall i :: 0 <= i < |c0| ==>
              && s1.summary.counts[i].0 == c0[i].0
              && s1.summary.counts[i].1 == c0[i].1 + (if a == c0[i].0 then 1 else 0)
  }

  lemma SummarizeAfterResponse(f: FormField, rs: seq<FormResponse>, x: FormResponse)
    requires !FieldRaises(f, rs) && !FieldRaises(f, rs + [x])
    ensures SectionGrows(Summarize(f, rs).value, Summarize(f, rs + [x]).value, |rs|, Get(x.data, f.name, ""))
  {
    var a := Get(x.data, f.name, "");
    var before := Answers(rs, f.name);
    AnswersAppend(rs, [x], f.name);
    assert Answers(rs + [x], f.name) == before + [a];
    assert Summarize(f, rs + [x]) == SectionFor(f, before + [a]);
    SectionAfterAnswer(f, before, a);
  }

  /** `SectionGrows` on the answers: one more answer `a` after `answers`. */
  lemma SectionAfterAnswer(f: FormField, answers: seq<string>, a: string)
    requires !Raises(f, answers) && !Raises(f, answers + [a])
    ensures SectionGrows(SectionFor(f, answers).value, SectionFor(f, answers + [a]).value, |answers|, a)
  {
    match f.kind
    case Text =>
    case Textarea =>
    case Number => ExtremesAfterAnswer(answers, a);
    case Date => ExtremesAfterAnswer(answers, a);
    case Radio => TallyAfterAnswer(Values(f.options.value), answers, a);
    case Select => TallyAfterAnswer(Values(f.options.value), answers, a);
    case Checkbox => TallyAfterAnswer(Values(f.options.value), answers, a);
  }

  /** A field's section raises after one more response exactly when it
      raised before, or it is a number or date field and the new answer
      does not convert. */
  lemma RaisesAfterResponse(f: FormField, rs: seq<FormResponse>, x: FormResponse)
    ensures FieldRaises(f, rs + [x]) <==>
      FieldRaises(f, rs) || (IsStatsType(f.kind) && !Convertible(Get(x.data, f.name, "")))
  {
    var a := Get(x.data, f.name, "");
    AnswersAppend(rs, [x], f.name);
    assert Answers(rs + [x], f.name) == Answers(rs, f.name) + [a];
    AverageableSnoc(Answers(rs, f.name), a);
  }

  /** One more answer enters the extremes when it lies beyond them; the
      first answer is both extremes. */
  lemma ExtremesAfterAnswer(answers: seq<string>, a: string)
    ensures answers == [] ==> Low(answers + [a]) == a && High(answers + [a]) == a
    ensures answers != [] ==>
      && Low(answers + [a]) == (if LexLess(a, Low(answers)) then a else Low(answers))
      && High(answers + [a]) == (if LexLess(High(answers), a) then a else High(answers))
  {
    if answers == [] {
      assert answers + [a] == [a];
    } else {
      MinOfSnoc(answers, a);
      MaxOfSnoc(answers, a);
    }
  }

  /** A further response makes the page raise exactly when it raised
      already or the response answers a number or date field with text
      `float` rejects. When it does not, the total grows by one and every
      section grows as `SectionGrows` describes. */
  lemma AnalyzeAfterResponse(form: DynamicForm, rs: seq<FormResponse>, x: FormResponse)
    ensures Analyze(form, rs + [x]).Success? <==>
      && Analyze(form, rs).Success?
      && forall i :: 0 <= i < |form.fields| && IsStatsType(form.fields[i].kind) ==>
           Convertible(Get(x.data, form.fields[i].name, ""))
    ensures Analyze(form, rs + [x]).Success? ==>
      var b := Analyze(form, rs).value;
      var c := Analyze(form, rs + [x]).value;
      && c.total == b.total + 1
      && |c.sections| == |b.sections| == |form.fields|
      && forall i :: 0 <= i < |form.fields| ==>
           SectionGrows(b.sections[i], c.sections[i], |rs|, Get(x.data, form.fields[i].name, ""))
  {
    forall i | 0 <= i < |form.fields|
      ensures FieldRaises(form.fields[i], rs + [x]) <==>
        FieldRaises(form.fields[i], rs)
        || (IsStatsType(form.fields[i].kind) && !Convertible(Get(x.data, form.fields[i].name, "")))
    {
      RaisesAfterResponse(form.fields[i], rs, x);
    }
    if Analyze(form, rs + [x]).Success? {
      forall i | 0 <= i < |form.fields|
        ensures SectionGrows(Summarize(form.fields[i], rs).value, Summarize(form.fields[i], rs + [x]).value,
                             |rs|, Get(x.data, form.fields[i].name, ""))
      {
        SummarizeAfterResponse(form.fields[i], rs, x);
      }
    }
  }

  /** The first field whose section raises decides the error. */
  lemma {:induction false} FirstRaising(fields: seq<FormField>, responses: seq<FormResponse>, i: int)
    requires 0 <= i < |fields| && FieldRaises(fields[i], responses)
    requires forall j :: 0 <= j < i ==> !FieldRaises(fields[j], responses)
    ensures SummarizeAll(fields, responses) == Failure(Summarize(fields[i], responses).error)
  {
    if i > 0 {
      FirstRaising(fields[1..], responses, i - 1);
    }
  }

  /** The loop of `show_analytics` over the fields, appending one section
      per field. */
  method BuildReport(form: DynamicForm, responses: seq<FormResponse>) returns (r: Result<Report, Fault>)
    ensures r == Analyze(form, responses)
  {
    var sections: seq<Section> := [];
    var i := 0;
    while i < |form.fields|
      invariant 0 <= i <= |form.fields| && |sections| == i
      invariant forall j :: 0 <= j < i ==>
        !FieldRaises(form.fields[j], responses) && sections[j] == Summarize(form.fields[j], responses).value
    {
      var s := Summarize(form.fields[i], responses);
      if s.Failure? {
        FirstRaising(form.fields, responses, i);
        return Failure(s.error);
      }
      sections := sections + [s.value];
      i := i + 1;
    }
    assert SummarizeAll(form.fields, responses).value == sections;
    return Success(Report(form.title, |responses|, sections));
  }
}
