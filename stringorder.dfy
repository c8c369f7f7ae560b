/** Python's ordering of `str` values and the builtins `min` and `max` over a
    list of strings, which the analytics page applies to the answers of
    number and date fields (main.py, lines 296-297). Strings compare code
    point by code point, and a proper prefix comes first, so "10" < "9" and
    "" is below every other string. */
module StringOrder {

  /** `a < b` on Python strings. */
  predicate LexLess(a: string, b: string)
    ensures LexLess(a, b) ==> a != b && |b| > 0
  {
    if |a| == 0 then |b| > 0
    else if |b| == 0 then false
    else if a[0] == b[0] then LexLess(a[1..], b[1..])
    else a[0] < b[0]
  }

  /** A proper prefix is below the longer string. */
  lemma {:induction false} PrefixLess(a: string, b: string)
    requires |a| < |b| && b[..|a|] == a
    ensures LexLess(a, b)
  {
    if |a| > 0 {
      assert b[1..][..|a| - 1] == a[1..];
      PrefixLess(a[1..], b[1..]);
    }
  }

  /** The empty string is the least string. */
  lemma EmptyLeast(s: string)
    ensures !LexLess(s, "")
    ensures s != "" ==> LexLess("", s)
  {
  }

  lemma {:induction false} LexIrreflexive(a: string)
    ensures !LexLess(a, a)
  {
    if |a| > 0 {
      LexIrreflexive(a[1..]);
    }
  }

  lemma {:induction false} LexAsymmetric(a: string, b: string)
    requires LexLess(a, b)
    ensures !LexLess(b, a)
  {
    if |a| > 0 && |b| > 0 && a[0] == b[0] {
      LexAsymmetric(a[1..], b[1..]);
    }
  }

  lemma {:induction false} LexTransitive(a: string, b: string, c: string)
    requires LexLess(a, b) && LexLess(b, c)
    ensures LexLess(a, c)
  {
    if |a| > 0 && a[0] == b[0] && b[0] == c[0] {
      LexTransitive(a[1..], b[1..], c[1..]);
    }
  }

  /** Any two distinct strings are ordered one way or the other. */
  lemma {:induction false} LexTotal(a: string, b: string)
    ensures a == b || LexLess(a, b) || LexLess(b, a)
  {
    if |a| > 0 && |b| > 0 && a[0] == b[0] {
      LexTotal(a[1..], b[1..]);
      if a[1..] == b[1..] {
        assert a == [a[0]] + a[1..] && b == [b[0]] + b[1..];
      }
    }
  }

  /** `min(xs)` on a non-empty list: the first element is the running best,
      and a later element replaces it when it is strictly smaller. */
  function MinOf(xs: seq<string>): (r: string)
    requires |xs| > 0
  {
    MinFrom(xs[0], xs[1..])
  }

  function MinFrom(best: string, rest: seq<string>): (r: string)
    decreases |rest|
  {
    if rest == [] then best
    else MinFrom(if LexLess(rest[0], best) then rest[0] else best, rest[1..])
  }

  /** `max(xs)` on a non-empty list: a later element replaces the running
      best when it is strictly greater. */
  function MaxOf(xs: seq<string>): (r: string)
    requires |xs| > 0
  {
    MaxFrom(xs[0], xs[1..])
  }

  function MaxFrom(best: string, rest: seq<string>): (r: string)
    decreases |rest|
  {
    if rest == [] then best
    else MaxFrom(if LexLess(best, rest[0]) then rest[0] else best, rest[1..])
  }

  /** The running minimum ends as one of the values seen and below none of
      them. */
  lemma {:induction false} MinFromLeast(best: string, rest: seq<string>)
    ensures var r := MinFrom(best, rest);
      && (r == best || r in rest)
      && !LexLess(best, r)
      && forall i :: 0 <= i < |rest| ==> !LexLess(rest[i], r)
    decreases |rest|
  {
    if rest == [] {
      LexIrreflexive(best);
    } else {
      var b := if LexLess(rest[0], best) then rest[0] else best;
      MinFromLeast(b, rest[1..]);
      var r := MinFrom(best, rest);
      assert r == MinFrom(b, rest[1..]);
      assert rest == [rest[0]] + rest[1..];
      // best and rest[0] are each the running best b or lost to it
      forall y | y == best || y == rest[0]
        ensures !LexLess(y, r)
      {
        assert !LexLess(y, b) by {
          LexIrreflexive(b);
          if y != b && LexLess(y, b) { LexAsymmetric(y, b); }
        }
        if LexLess(y, r) {
          LexTotal(b, r);
          if LexLess(r, b) { LexTransitive(y, r, b); }
        }
      }
      forall i | 1 <= i < |rest| ensures !LexLess(rest[i], r) {
        assert rest[1..][i - 1] == rest[i];
      }
    }
  }

  /** `min` returns one of the values and no value is below it. */
  lemma MinOfLeast(xs: seq<string>)
    requires |xs| > 0
    ensures MinOf(xs) in xs
    ensures forall i :: 0 <= i < |xs| ==> !LexLess(xs[i], MinOf(xs))
  {
    MinFromLeast(xs[0], xs[1..]);
    forall i | 0 <= i < |xs| ensures !LexLess(xs[i], MinOf(xs)) {
      if i > 0 {
        assert xs[1..][i - 1] == xs[i];
      }
    }
  }

  /** The running maximum ends as one of the values seen and above none of
      them. */
  lemma {:induction false} MaxFromGreatest(best: string, rest: seq<string>)
    ensures var r := MaxFrom(best, rest);
      && (r == best || r in rest)
      && !LexLess(r, best)
      && forall i :: 0 <= i < |rest| ==> !LexLess(r, rest[i])
    decreases |rest|
  {
    if rest == [] {
      LexIrreflexive(best);
    } else {
      var b := if LexLess(best, rest[0]) then rest[0] else best;
      MaxFromGreatest(b, rest[1..]);
      var r := MaxFrom(best, rest);
      assert r == MaxFrom(b, rest[1..]);
      assert rest == [rest[0]] + rest[1..];
      forall y | y == best || y == rest[0]
        ensures !LexLess(r, y)
      {
        assert !LexLess(b, y) by {
          LexIrreflexive(b);
          if y != b && LexLess(b, y) { LexAsymmetric(b, y); }
        }
        if LexLess(r, y) {
          LexTotal(b, r);
          if LexLess(b, r) { LexTransitive(b, r, y); }
        }
      }
      forall i | 1 <= i < |rest| ensures !LexLess(r, rest[i]) {
        assert rest[1..][i - 1] == rest[i];
      }
    }
  }

  /** `max` returns one of the values and no value is above it. */
  lemma MaxOfGreatest(xs: seq<string>)
    requires |xs| > 0
    ensures MaxOf(xs) in xs
    ensures forall i :: 0 <= i < |xs| ==> !LexLess(MaxOf(xs), xs[i])
  {
    MaxFromGreatest(xs[0], xs[1..]);
    forall i | 0 <= i < |xs| ensures !LexLess(MaxOf(xs), xs[i]) {
      if i > 0 {
        assert xs[1..][i - 1] == xs[i];
      }
    }
  }

  /** The extremes are unique: a value of the list below none of the others
      is the minimum, and one above none of them is the maximum. */
  lemma MinOfUnique(xs: seq<string>, m: string)
    requires m in xs && forall i :: 0 <= i < |xs| ==> !LexLess(xs[i], m)
    ensures MinOf(xs) == m
  {
    MinOfLeast(xs);
    LexTotal(m, MinOf(xs));
  }

  lemma MaxOfUnique(xs: seq<string>, m: string)
    requires m in xs && forall i :: 0 <= i < |xs| ==> !LexLess(m, xs[i])
    ensures MaxOf(xs) == m
  {
    MaxOfGreatest(xs);
    LexTotal(m, MaxOf(xs));
  }

  /** Folding one more value into the running minimum. */
  lemma {:induction false} MinFromSnoc(best: string, rest: seq<string>, a: string)
    ensures MinFrom(best, rest + [a])
            == (var m := MinFrom(best, rest); if LexLess(a, m) then a else m)
    decreases |rest|
  {
    if rest != [] {
      assert (rest + [a])[1..] == rest[1..] + [a];
      MinFromSnoc(if LexLess(rest[0], best) then rest[0] else best, rest[1..], a);
    } else {
      assert ([] + [a])[1..] == [];
    }
  }

  /** `min(xs + [a])` is `a` when `a` is below `min(xs)`, and `min(xs)`
      otherwise. */
  lemma MinOfSnoc(xs: seq<string>, a: string)
    requires |xs| > 0
    ensures MinOf(xs + [a]) == if LexLess(a, MinOf(xs)) then a else MinOf(xs)
  {
    assert (xs + [a])[1..] == xs[1..] + [a];
    MinFromSnoc(xs[0], xs[1..], a);
  }

  lemma {:induction false} MaxFromSnoc(best: string, rest: seq<string>, a: string)
    ensures MaxFrom(best, rest + [a])
            == (var m := MaxFrom(best, rest); if LexLess(m, a) then a else m)
    decreases |rest|
  {
    if rest != [] {
      assert (rest + [a])[1..] == rest[1..] + [a];
      MaxFromSnoc(if LexLess(best, rest[0]) then rest[0] else best, rest[1..], a);
    } else {
      assert ([] + [a])[1..] == [];
    }
  }

  /** `max(xs + [a])` is `a` when `a` is above `max(xs)`, and `max(xs)`
      otherwise. */
  lemma MaxOfSnoc(xs: seq<string>, a: string)
    requires |xs| > 0
    ensures MaxOf(xs + [a]) == if LexLess(MaxOf(xs), a) then a else MaxOf(xs)
  {
    assert (xs + [a])[1..] == xs[1..] + [a];
    MaxFromSnoc(xs[0], xs[1..], a);
  }
}
