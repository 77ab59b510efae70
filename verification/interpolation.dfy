/** `get_quantile_from_table`: a raw test score is turned into a population
    quantile by sorting the table's (value, quantile) anchors by value and
    interpolating linearly between them, as `np.interp(value, xp, fp,
    left=0.0, right=1.0)` does. Sorting is this function's job: the table's
    rows need not be ordered by value. */
module Interpolation {
  import opened Results

  /** One row of a reference table: a raw score and the population quantile
      at which that score sits. */
  datatype Anchor = Anchor(value: real, quantile: real)

  datatype TableError =
    | MissingColumn(column: string)  // `KeyError`: the table has no such sex column
    | EmptyTable                      // `np.interp` refuses an empty set of sample points

  predicate SortedByValue(a: seq<Anchor>) {
    forall i, j :: 0 <= i < j < |a| ==> a[i].value <= a[j].value
  }

  /** Anchors that share a score also share a quantile, so no arrangement of
      ties can change what interpolation returns. */
  predicate ValueDetermines(a: seq<Anchor>) {
    forall e, f :: e in a && f in a && e.value == f.value ==> e == f
  }

  predicate QuantilesIn01(a: seq<Anchor>) {
    forall i :: 0 <= i < |a| ==> 0.0 <= a[i].quantile <= 1.0
  }

  /** Puts `x` before the first element whose value is not smaller. */
  function Insert(x: Anchor, s: seq<Anchor>): (r: seq<Anchor>)
    requires SortedByValue(s)
    ensures SortedByValue(r)
    ensures multiset(r) == multiset(s) + multiset{x}
  {
    if s == [] then [x]
    else if x.value <= s[0].value then
      ConsSorted(x, s);
      [x] + s
    else
      var rest := Insert(x, s[1..]);
      HeadBelowRest(s, x, rest);
      ConsSorted(s[0], rest);
      assert s == [s[0]] + s[1..];
      [s[0]] + rest
  }

  /** A head no larger than anything in a sorted tail keeps it sorted. */
  lemma ConsSorted(h: Anchor, s: seq<Anchor>)
    requires SortedByValue(s)
    requires forall i :: 0 <= i < |s| ==> h.value <= s[i].value
    ensures SortedByValue([h] + s)
  {
    var r := [h] + s;
    forall i, j | 0 <= i < j < |r| ensures r[i].value <= r[j].value {
      assert r[j] == s[j - 1];
      if i > 0 {
        assert r[i] == s[i - 1];
      }
    }
  }

  /** The head of a sorted sequence lies below every element of its tail
      with one larger element added. */
  lemma HeadBelowRest(s: seq<Anchor>, x: Anchor, rest: seq<Anchor>)
    requires |s| > 0 && SortedByValue(s) && s[0].value <= x.value
    requires multiset(rest) == multiset(s[1..]) + multiset{x}
    ensures forall i :: 0 <= i < |rest| ==> s[0].value <= rest[i].value
  {
    forall i | 0 <= i < |rest|
      ensures s[0].value <= rest[i].value
    {
      assert rest[i] in multiset(rest);
      if rest[i] != x {
        assert rest[i] in multiset(s[1..]);
        var k :| 0 <= k < |s[1..]| && s[1..][k] == rest[i];
        assert s[k + 1] == rest[i];
      }
    }
  }

  /** Stable insertion sort by value, standing in for `np.argsort` followed by
      reordering both arrays. */
  function SortByValue(a: seq<Anchor>): (r: seq<Anchor>)
    ensures SortedByValue(r)
    ensures multiset(r) == multiset(a)
  {
    if a == [] then []
    else
      assert a == [a[0]] + a[1..];
      Insert(a[0], SortByValue(a[1..]))
  }

  /** Index of the last anchor whose value does not exceed `x` (the bracket
      numpy's `binary_search_with_guess` finds): every later anchor lies
      strictly above `x`. */
  function Bracket(a: seq<Anchor>, x: real): (j: nat)
    requires |a| > 0 && SortedByValue(a) && a[0].value <= x
    ensures j < |a| && a[j].value <= x
    ensures forall k :: j < k < |a| ==> x < a[k].value
  {
    if |a| == 1 || x < a[1].value then 0
    else
      var j := 1 + Bracket(a[1..], x);
      assert forall k :: j < k < |a| ==> a[k] == a[1..][k - 1];
      j
  }

  /** `(a / c) * b` and `a * (b / c)` are the same number. */
  lemma DivSwap(a: real, b: real, c: real)
    requires c > 0.0
    ensures (a / c) * b == a * (b / c)
  {
    var u, v := a / c, b / c;
    assert u * c == a && v * c == b;
    assert u * b == u * (v * c) == (u * c) * v;
  }

  /** Quotients and products of non-negative numbers are non-negative. */
  lemma SignRules(a: real, b: real)
    requires 0.0 <= a && 0.0 <= b
    ensures 0.0 <= a * b
    ensures 0.0 < b ==> 0.0 <= a / b
  {
  }

  /** A part over a positive whole lies in [0, 1]. */
  lemma FractionIn01(part: real, whole: real)
    requires whole > 0.0 && 0.0 <= part <= whole
    ensures 0.0 <= part / whole <= 1.0
  {
    var q := part / whole;
    assert q * whole == part;
    assert (1.0 - q) * whole == whole - part;
  }

  /** A fraction `t` of `d` lies between 0 and `d`. */
  lemma ScaleBetween(d: real, t: real)
    requires 0.0 <= t <= 1.0
    ensures 0.0 <= d ==> 0.0 <= d * t <= d
    ensures d <= 0.0 ==> d <= d * t <= 0.0
  {
    assert d - d * t == d * (1.0 - t);
    assert 0.0 <= 1.0 - t;
  }

  /** The slope-intercept form of the line through (vl, ql) and (vh, qh)
      agrees with its two-point form. */
  lemma TwoPointForm(ql: real, qh: real, vl: real, vh: real, x: real)
    requires vl < vh
    ensures ((qh - ql) / (vh - vl) * (x - vl) + ql) * (vh - vl) == ql * (vh - x) + qh * (x - vl)
  {
    var d, slope := vh - vl, (qh - ql) / (vh - vl);
    assert slope * d == qh - ql;
    calc {
      (slope * (x - vl) + ql) * d;
      (slope * d) * (x - vl) + ql * d;
      (qh - ql) * (x - vl) + ql * d;
      ql * (vh - x) + qh * (x - vl);
    }
  }

  /** On the segment from vl to vh, the line through (vl, ql) and (vh, qh)
      stays between ql and qh. */
  lemma LineBetween(ql: real, qh: real, vl: real, vh: real, x: real, r: real)
    requires vl < vh && r == (qh - ql) / (vh - vl) * (x - vl) + ql
    ensures vl <= x <= vh ==> ql <= r <= qh || qh <= r <= ql
  {
    if vl <= x <= vh {
      var slope := (qh - ql) / (vh - vl);
      var t := (x - vl) / (vh - vl);
      FractionIn01(x - vl, vh - vl);
      DivSwap(qh - ql, x - vl, vh - vl);
      assert slope * (x - vl) == (qh - ql) * t;
      ScaleBetween(qh - ql, t);
    }
  }

  /** The straight line through `lo` and `hi`, evaluated at `x`, in the form
      numpy computes it: `slope * (x - xp[j]) + fp[j]`. */
  function Lerp(lo: Anchor, hi: Anchor, x: real): (r: real)
    requires lo.value < hi.value
    ensures x == lo.value ==> r == lo.quantile
    ensures x == hi.value ==> r == hi.quantile
    ensures lo.value <= x <= hi.value ==>
      (lo.quantile <= r <= hi.quantile || hi.quantile <= r <= lo.quantile)
    ensures r * (hi.value - lo.value) == lo.quantile * (hi.value - x) + hi.quantile * (x - lo.value)
  {
    var slope := (hi.quantile - lo.quantile) / (hi.value - lo.value);
    var r := slope * (x - lo.value) + lo.quantile;
    TwoPointForm(lo.quantile, hi.quantile, lo.value, hi.value, x);
    LineBetween(lo.quantile, hi.quantile, lo.value, hi.value, x, r);
    r
  }

  /** `np.interp(x, xp, fp, left=0.0, right=1.0)` on anchors already sorted by
      value. On an exact hit the last anchor with that value wins; between two
      anchors the result lies on the line through them. */
  function InterpSorted(a: seq<Anchor>, x: real): (r: real)
    requires |a| > 0 && SortedByValue(a)
    ensures x < a[0].value ==> r == 0.0
    ensures x > a[|a| - 1].value ==> r == 1.0
    ensures QuantilesIn01(a) ==> 0.0 <= r <= 1.0
  {
    if x < a[0].value then 0.0
    else if x > a[|a| - 1].value then 1.0
    else
      var j := Bracket(a, x);
      if j == |a| - 1 || a[j].value == x then a[j].quantile
      else Lerp(a[j], a[j + 1], x)
  }

  /** Strictly between two neighbouring anchors the result lies on the
      straight line through them (in two-point form). */
  lemma InterpOnSegment(a: seq<Anchor>, j: int, x: real)
    requires SortedByValue(a) && 0 <= j < |a| - 1
    requires a[j].value < x < a[j + 1].value
    ensures InterpSorted(a, x) * (a[j + 1].value - a[j].value)
         == a[j].quantile * (a[j + 1].value - x) + a[j + 1].quantile * (x - a[j].value)
  {
    assert a[0].value <= a[j].value && a[j + 1].value <= a[|a| - 1].value;
    var b := Bracket(a, x);
    assert b == j;
  }

  /** Quantile of raw score `x` against anchors in any order: an empty anchor
      set is an error; otherwise the anchors are sorted by value and
      interpolated, scores below every anchor give 0.0 and scores above every
      anchor give 1.0. */
  function Quantile(anchors: seq<Anchor>, x: real): (r: Result<real, TableError>)
    ensures r.Failure? <==> |anchors| == 0
    ensures r.Failure? ==> r.error == EmptyTable
    ensures r.Success? && (forall i :: 0 <= i < |anchors| ==> x < anchors[i].value) ==> r.value == 0.0
    ensures r.Success? && (forall i :: 0 <= i < |anchors| ==> x > anchors[i].value) ==> r.value == 1.0
    ensures r.Success? && QuantilesIn01(anchors) ==> 0.0 <= r.value <= 1.0
  {
    if |anchors| == 0 then Failure(EmptyTable)
    else
      var s := SortByValue(anchors);
      assert forall e :: e in s ==> e in anchors by {
        forall e | e in s ensures e in anchors {
          assert e in multiset(s);
        }
      }
      assert s[0] in s && s[|s| - 1] in s;
      assert QuantilesIn01(anchors) ==> QuantilesIn01(s) by {
        if QuantilesIn01(anchors) {
          forall i | 0 <= i < |s| ensures 0.0 <= s[i].quantile <= 1.0 {
            assert s[i] in s;
          }
        }
      }
      Success(InterpSorted(s, x))
  }

  /** Sorting keeps exactly the anchors it was given. */
  lemma SortKeepsMembers(a: seq<Anchor>)
    ensures forall e :: e in SortByValue(a) <==> e in a
  {
    var s := SortByValue(a);
    forall e ensures e in s <==> e in a {
      assert e in s <==> e in multiset(s);
      assert e in a <==> e in multiset(a);
    }
  }

  /** On sorted anchors, an exact hit returns the quantile of the anchor hit. */
  lemma InterpAtHit(s: seq<Anchor>, k: int, x: real)
    requires SortedByValue(s) && 0 <= k < |s| && s[k].value == x
    requires ValueDetermines(s)
    ensures InterpSorted(s, x) == s[k].quantile
  {
    assert s[0].value <= x <= s[|s| - 1].value;
    var j := Bracket(s, x);
    assert k <= j;
    assert s[j].value == x;
    assert s[j] in s && s[k] in s;
  }

  /** A score that equals an anchor's value gets that anchor's quantile back,
      provided anchors with equal scores carry equal quantiles. */
  lemma QuantileAtAnchor(anchors: seq<Anchor>, i: int, x: real)
    requires 0 <= i < |anchors| && anchors[i].value == x
    requires ValueDetermines(anchors)
    ensures Quantile(anchors, x) == Success(anchors[i].quantile)
  {
    var s := SortByValue(anchors);
    SortKeepsMembers(anchors);
    assert anchors[i] in s;
    var k :| 0 <= k < |s| && s[k] == anchors[i];
    assert ValueDetermines(s);
    InterpAtHit(s, k, x);
  }

  /** Two sorted arrangements of the same anchors coincide when equal scores
      carry equal quantiles. */
  lemma {:induction false} SortedArrangementUnique(s: seq<Anchor>, t: seq<Anchor>)
    requires SortedByValue(s) && SortedByValue(t)
    requires multiset(s) == multiset(t)
    requires ValueDetermines(s)
    ensures s == t
  {
    assert |t| == |s| by {
      assert |t| == |multiset(t)|;
      assert |s| == |multiset(s)|;
    }
    if s != [] {
      SortedHeadsAgree(s, t);
      assert multiset(s[1..]) == multiset(t[1..]) by {
        assert s == [s[0]] + s[1..];
        assert t == [t[0]] + t[1..];
        assert multiset(s) == multiset{s[0]} + multiset(s[1..]);
        assert multiset(t) == multiset{t[0]} + multiset(t[1..]);
        assert multiset(s[1..]) == multiset(s) - multiset{s[0]};
        assert multiset(t[1..]) == multiset(t) - multiset{t[0]};
      }
      TailKeepsValueDetermines(s);
      SortedArrangementUnique(s[1..], t[1..]);
      assert s == [s[0]] + s[1..];
      assert t == [t[0]] + t[1..];
    }
  }

  /** The smallest anchors of two sorted arrangements agree. */
  lemma SortedHeadsAgree(s: seq<Anchor>, t: seq<Anchor>)
    requires SortedByValue(s) && SortedByValue(t)
    requires multiset(s) == multiset(t)
    requires ValueDetermines(s)
    requires s != [] && t != []
    ensures s[0] == t[0]
  {
    assert s[0] in multiset(t);
    assert t[0] in multiset(s);
    var k :| 0 <= k < |t| && t[k] == s[0];
    var m :| 0 <= m < |s| && s[m] == t[0];
    assert t[0].value <= s[0].value;
    assert s[0].value <= t[0].value;
    assert s[0] in s && t[0] in s;
  }

  lemma TailKeepsValueDetermines(s: seq<Anchor>)
    requires s != [] && ValueDetermines(s)
    ensures ValueDetermines(s[1..])
  {
    forall e, f | e in s[1..] && f in s[1..] && e.value == f.value
      ensures e == f
    {
      assert e in s && f in s;
    }
  }

  /** The order of a table's rows does not matter: any rearrangement of the
      anchors yields the same quantile, provided equal scores carry equal
      quantiles. */
  lemma QuantileOrderIndependent(a: seq<Anchor>, b: seq<Anchor>, x: real)
    requires multiset(a) == multiset(b)
    requires ValueDetermines(a)
    ensures Quantile(a, x) == Quantile(b, x)
  {
    SortKeepsMembers(a);
    var sa, sb := SortByValue(a), SortByValue(b);
    assert ValueDetermines(sa);
    SortedArrangementUnique(sa, sb);
    assert |a| == |multiset(a)| == |multiset(b)| == |b|;
  }

  /** Rows already ordered by score are left exactly as they are: the sort is
      stable. */
  lemma {:induction false} SortKeepsSortedInput(a: seq<Anchor>)
    requires SortedByValue(a)
    ensures SortByValue(a) == a
  {
    if a != [] {
      SortKeepsSortedInput(a[1..]);
      assert a == [a[0]] + a[1..];
    }
  }

  /** Without that proviso the row order can matter: two rows sharing the
      score 1.0 but not the quantile give different answers at 1.5 depending
      on which comes first, since the sort keeps ties in their input order
      and interpolation starts from the later of them. */
  lemma TiedScoresOrderMatters()
    ensures var a := [Anchor(1.0, 0.2), Anchor(1.0, 0.4), Anchor(2.0, 1.0)];
            var b := [Anchor(1.0, 0.4), Anchor(1.0, 0.2), Anchor(2.0, 1.0)];
            && multiset(a) == multiset(b)
            && Quantile(a, 1.5) == Success(0.7)
            && Quantile(b, 1.5) == Success(0.6)
  {
    var a := [Anchor(1.0, 0.2), Anchor(1.0, 0.4), Anchor(2.0, 1.0)];
    var b := [Anchor(1.0, 0.4), Anchor(1.0, 0.2), Anchor(2.0, 1.0)];
    assert multiset(a) == multiset{a[0], a[1], a[2]};
    assert multiset(b) == multiset{a[1], a[0], a[2]};
    TieExample(a);
    TieExample(b);
  }

  /** Three rows already in score order, the first two tied: 1.5 is
      interpolated from the second row towards the third. */
  lemma TieExample(a: seq<Anchor>)
    requires |a| == 3 && a[0].value == a[1].value == 1.0 && a[2] == Anchor(2.0, 1.0)
    ensures Quantile(a, 1.5) == Success(a[1].quantile + (1.0 - a[1].quantile) * 0.5)
  {
    assert SortedByValue(a);
    SortKeepsSortedInput(a);
    assert a[1..][1] == a[2];
    assert Bracket(a[1..], 1.5) == 0;
    assert Bracket(a, 1.5) == 1;
    assert InterpSorted(a, 1.5) == Lerp(a[1], a[2], 1.5);
    QuantileIsInterp(a, 1.5);
  }

  /** A higher score never sits at a lower quantile (which also makes equal
      scores carry equal quantiles). */
  predicate NondecreasingTable(a: seq<Anchor>) {
    forall e, f :: e in a && f in a && e.value <= f.value ==> e.quantile <= f.quantile
  }

  /** Along a rising line, a larger `x` gives a larger result. */
  lemma LerpMonotone(lo: Anchor, hi: Anchor, x1: real, x2: real)
    requires lo.value < hi.value && lo.quantile <= hi.quantile && x1 <= x2
    ensures Lerp(lo, hi, x1) <= Lerp(lo, hi, x2)
  {
    var slope := (hi.quantile - lo.quantile) / (hi.value - lo.value);
    SignRules(hi.quantile - lo.quantile, hi.value - lo.value);
    SignRules(slope, x2 - x1);
    assert slope * (x2 - lo.value) - slope * (x1 - lo.value) == slope * (x2 - x1);
  }

  /** Quantiles rise along the sequence. */
  predicate QuantilesSorted(s: seq<Anchor>) {
    forall i, k :: 0 <= i <= k < |s| ==> s[i].quantile <= s[k].quantile
  }

  /** Between the first and last anchor, the result lies between the
      quantiles of the bracketing anchors. */
  lemma InterpWithinBracket(s: seq<Anchor>, x: real)
    requires |s| > 0 && SortedByValue(s) && QuantilesSorted(s)
    requires s[0].value <= x <= s[|s| - 1].value
    ensures var j := Bracket(s, x);
      && s[j].quantile <= InterpSorted(s, x)
      && (j < |s| - 1 ==> InterpSorted(s, x) <= s[j + 1].quantile)
  {
    var j := Bracket(s, x);
    if j < |s| - 1 && s[j].value != x {
      assert s[j].quantile <= s[j + 1].quantile;
    }
  }

  /** Inside the table, a larger score gives a result at least as large. */
  lemma InterpInnerMonotone(s: seq<Anchor>, x1: real, x2: real)
    requires |s| > 0 && SortedByValue(s) && QuantilesSorted(s)
    requires s[0].value <= x1 <= x2 <= s[|s| - 1].value
    ensures InterpSorted(s, x1) <= InterpSorted(s, x2)
  {
    var j1, j2 := Bracket(s, x1), Bracket(s, x2);
    assert j1 <= j2;
    InterpWithinBracket(s, x1);
    InterpWithinBracket(s, x2);
    if j1 < j2 {
      assert s[j1 + 1].quantile <= s[j2].quantile;
    } else if j1 < |s| - 1 && s[j1].value != x1 {
      LerpMonotone(s[j1], s[j1 + 1], x1, x2);
    }
  }

  /** On sorted anchors whose quantiles rise with the score, interpolation is
      monotone in the score. */
  lemma InterpSortedMonotone(s: seq<Anchor>, x1: real, x2: real)
    requires |s| > 0 && SortedByValue(s) && QuantilesSorted(s) && QuantilesIn01(s)
    requires x1 <= x2
    ensures InterpSorted(s, x1) <= InterpSorted(s, x2)
  {
    if s[0].value <= x1 && x2 <= s[|s| - 1].value {
      InterpInnerMonotone(s, x1, x2);
    }
  }

  /** A non-empty anchor set is interpolated after sorting. */
  lemma QuantileIsInterp(a: seq<Anchor>, x: real)
    requires |a| > 0
    ensures Quantile(a, x) == Success(InterpSorted(SortByValue(a), x))
  {
  }

  /** Anchors drawn from a nondecreasing table with quantiles in [0, 1],
      arranged by score, have quantiles that rise along the sequence and
      stay in [0, 1]. */
  lemma DrawnFromTable(a: seq<Anchor>, s: seq<Anchor>)
    requires NondecreasingTable(a) && QuantilesIn01(a) && SortedByValue(s)
    requires forall e :: e in s ==> e in a
    ensures QuantilesSorted(s) && QuantilesIn01(s)
  {
    forall i, k | 0 <= i <= k < |s| ensures s[i].quantile <= s[k].quantile {
      assert s[i] in a && s[k] in a;
    }
    forall i | 0 <= i < |s| ensures 0.0 <= s[i].quantile <= 1.0 {
      assert s[i] in a;
      var k :| 0 <= k < |a| && a[k] == s[i];
    }
  }

  /** A higher raw score never yields a lower quantile, for a table whose
      quantiles lie in [0, 1] and rise with the score. */
  lemma QuantileMonotone(a: seq<Anchor>, x1: real, x2: real)
    requires NondecreasingTable(a) && QuantilesIn01(a)
    requires x1 <= x2
    ensures Quantile(a, x1).Success? ==> Quantile(a, x1).value <= Quantile(a, x2).value
  {
    if |a| > 0 {
      SortKeepsMembers(a);
      DrawnFromTable(a, SortByValue(a));
      InterpSortedMonotone(SortByValue(a), x1, x2);
      QuantileIsInterp(a, x1);
      QuantileIsInterp(a, x2);
    }
  }

  /** A reference table as a data frame: the quantile index plus one score
      column per sex (`"Female"`, `"Male"`). */
  datatype Table = Table(quantiles: seq<real>, columns: map<string, seq<real>>)

  /** Every column of a data frame is as long as its index. */
  predicate WellFormed(t: Table) {
    forall c :: c in t.columns ==> |t.columns[c]| == |t.quantiles|
  }

  /** Pairs column `col` with the index, row by row: `(v[i], q[i])`. */
  function ColumnAnchors(t: Table, col: string): (a: seq<Anchor>)
    requires WellFormed(t) && col in t.columns
    ensures |a| == |t.quantiles|
    ensures forall i :: 0 <= i < |a| ==> a[i] == Anchor(t.columns[col][i], t.quantiles[i])
  {
    seq(|t.quantiles|, i requires 0 <= i < |t.quantiles| => Anchor(t.columns[col][i], t.quantiles[i]))
  }

  /** `get_quantile_from_table(df, sex_col, value)`: a missing column is a
      `KeyError`, an empty table makes `np.interp` fail, and otherwise the
      score is interpolated against the column's anchors. */
  function QuantileFromTable(t: Table, col: string, value: real): (r: Result<real, TableError>)
    requires WellFormed(t)
    ensures col !in t.columns ==> r == Failure(MissingColumn(col))
    ensures col in t.columns && |t.quantiles| == 0 ==> r == Failure(EmptyTable)
    ensures r.Success? <==> col in t.columns && |t.quantiles| > 0
    ensures col in t.columns ==> r == Quantile(ColumnAnchors(t, col), value)
  {
    if col !in t.columns then Failure(MissingColumn(col))
    else Quantile(ColumnAnchors(t, col), value)
  }

  /** A score equal to a row's value in the column reads back that row's
      quantile, when rows with equal values carry equal quantiles. */
  lemma QuantileFromTableAtRow(t: Table, col: string, i: int)
    requires WellFormed(t) && col in t.columns && 0 <= i < |t.quantiles|
    requires ValueDetermines(ColumnAnchors(t, col))
    ensures QuantileFromTable(t, col, t.columns[col][i]) == Success(t.quantiles[i])
  {
    QuantileAtAnchor(ColumnAnchors(t, col), i, t.columns[col][i]);
  }

  /** Read against a table column: a score below every row gives 0.0, above
      every row gives 1.0, and a table whose quantile index lies in [0, 1]
      yields a quantile in [0, 1]. */
  lemma QuantileFromTableBounds(t: Table, col: string, value: real)
    requires WellFormed(t) && col in t.columns && |t.quantiles| > 0
    ensures (forall i :: 0 <= i < |t.quantiles| ==> value < t.columns[col][i])
      ==> QuantileFromTable(t, col, value) == Success(0.0)
    ensures (forall i :: 0 <= i < |t.quantiles| ==> value > t.columns[col][i])
      ==> QuantileFromTable(t, col, value) == Success(1.0)
    ensures (forall i :: 0 <= i < |t.quantiles| ==> 0.0 <= t.quantiles[i] <= 1.0)
      ==> 0.0 <= QuantileFromTable(t, col, value).value <= 1.0
  {
    var a := ColumnAnchors(t, col);
    var r := Quantile(a, value);
    assert QuantileFromTable(t, col, value) == r;
    if forall i :: 0 <= i < |t.quantiles| ==> value < t.columns[col][i] {
      assert forall i :: 0 <= i < |a| ==> value < a[i].value;
    }
    if forall i :: 0 <= i < |t.quantiles| ==> value > t.columns[col][i] {
      assert forall i :: 0 <= i < |a| ==> value > a[i].value;
    }
    if forall i :: 0 <= i < |t.quantiles| ==> 0.0 <= t.quantiles[i] <= 1.0 {
      assert QuantilesIn01(a);
    }
  }
}
