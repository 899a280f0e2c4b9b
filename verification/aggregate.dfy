/** The aggregations behind the chatbot's answers: grouping by a label
    column, the top-N groups by summed amount, the payment-method mix and
    the date range. */
module Aggregate {
  import opened Wrappers
  import opened Seqs
  import opened Dataset

  /** The distinct labels a column carries. Missing labels form no group, as
      in pandas' `groupby` and `value_counts`. */
  function Keys(rows: seq<Record>, c: Column): (ks: seq<string>)
    ensures Distinct(ks)
    ensures forall k :: k in ks <==> exists i :: 0 <= i < |rows| && Label(rows[i], c) == Some(k)
  {
    if rows == [] then []
    else
      var rest := Keys(rows[1..], c);
      assert forall i :: 1 <= i < |rows| ==> rows[i] == rows[1..][i - 1];
      match Label(rows[0], c)
      case Some(k) =>
        if k in rest then rest
        else
          var r := [k] + rest;
          assert forall i, j :: 0 < i < j < |r| ==> r[i] == rest[i - 1] && r[j] == rest[j - 1];
          r
      case None => rest
  }

  /** What a row contributes to a group: its present amount (`sum` of the
      amount column) or 1 (a row count, `value_counts`). */
  datatype Weight = Amounts | Ones

  function WeightOf(r: Record, w: Weight): real
  {
    match w
    case Amounts => if r.amount.Some? then r.amount.value else 0.0
    case Ones => 1.0
  }

  /** The summed weight of the rows labelled `k` in column `c`. */
  function GroupSum(rows: seq<Record>, c: Column, k: string, w: Weight): real
  {
    if rows == [] then 0.0
    else (if Label(rows[0], c) == Some(k) then WeightOf(rows[0], w) else 0.0) + GroupSum(rows[1..], c, k, w)
  }

  /** The summed weight of all rows that carry some label in column `c`. */
  function LabelledSum(rows: seq<Record>, c: Column, w: Weight): real
  {
    if rows == [] then 0.0
    else (if Label(rows[0], c).Some? then WeightOf(rows[0], w) else 0.0) + LabelledSum(rows[1..], c, w)
  }

  /** The number of rows that carry a label in column `c`. */
  function LabelledCount(rows: seq<Record>, c: Column): (n: nat)
    ensures n == 0 <==> Keys(rows, c) == []
    ensures n as real == LabelledSum(rows, c, Ones)
  {
    if rows == [] then 0
    else (if Label(rows[0], c).Some? then 1 else 0) + LabelledCount(rows[1..], c)
  }

  /** `GroupSum` added up over the labels `ks`. */
  function SumGroups(ks: seq<string>, rows: seq<Record>, c: Column, w: Weight): real
  {
    if ks == [] then 0.0 else GroupSum(rows, c, ks[0], w) + SumGroups(ks[1..], rows, c, w)
  }

  /** A label that no row carries has an empty group. */
  lemma {:induction false} AbsentGroupIsZero(rows: seq<Record>, c: Column, k: string, w: Weight)
    requires k !in Keys(rows, c)
    ensures GroupSum(rows, c, k, w) == 0.0
  {
    if rows != [] {
      assert Label(rows[0], c) != Some(k);
      assert forall i :: 0 <= i < |rows| - 1 ==> rows[1..][i] == rows[i + 1];
      AbsentGroupIsZero(rows[1..], c, k, w);
    }
  }

  /** Adding up the head row's share of each group, over distinct labels,
      counts the head row once if its label is among them and not at all
      otherwise. */
  lemma {:induction false} HeadShare(ks: seq<string>, rows: seq<Record>, c: Column, w: Weight)
    requires rows != [] && Distinct(ks)
    ensures SumGroups(ks, rows, c, w)
         == SumGroups(ks, rows[1..], c, w)
            + (if Label(rows[0], c).Some? && Label(rows[0], c).value in ks then WeightOf(rows[0], w) else 0.0)
  {
    if ks != [] {
      assert Distinct(ks[1..]) by {
        forall i, j | 0 <= i < j < |ks[1..]| ensures ks[1..][i] != ks[1..][j] {
          assert ks[1..][i] == ks[i + 1] && ks[1..][j] == ks[j + 1];
        }
      }
      HeadShare(ks[1..], rows, c, w);
      var l := Label(rows[0], c);
      if l.Some? && l.value == ks[0] {
        assert l.value !in ks[1..] by {
          forall i | 0 <= i < |ks[1..]| ensures ks[1..][i] != ks[0] {
            assert ks[1..][i] == ks[i + 1];
          }
        }
      }
      if l.Some? && l.value in ks[1..] {
        assert l.value in ks;
      }
      if l.Some? && l.value in ks && l.value != ks[0] {
        assert l.value in ks[1..];
      }
    }
  }

  /** Group-by loses and invents nothing: the group sums, added over all
      labels, equal the summed weight of the labelled rows. */
  lemma {:induction false} GroupsPartition(rows: seq<Record>, c: Column, w: Weight)
    ensures SumGroups(Keys(rows, c), rows, c, w) == LabelledSum(rows, c, w)
  {
    if rows != [] {
      var rest := Keys(rows[1..], c);
      GroupsPartition(rows[1..], c, w);
      HeadShare(Keys(rows, c), rows, c, w);
      match Label(rows[0], c)
      case None =>
      case Some(k) =>
        if k !in rest {
          AbsentGroupIsZero(rows[1..], c, k, w);
          assert Keys(rows, c) == [k] + rest;
          assert ([k] + rest)[1..] == rest;
        }
    }
  }

  /** One row of a top-N answer: a label and its summed amount. */
  datatype Group = Group(name: string, total: real)

  function GroupLabels(gs: seq<Group>): (ls: seq<string>)
    ensures |ls| == |gs|
    ensures forall i :: 0 <= i < |gs| ==> ls[i] == gs[i].name
  {
    seq(|gs|, i requires 0 <= i < |gs| => gs[i].name)
  }

  /** Scores a label by the summed amount of its group. */
  function ByAmount(rows: seq<Record>, c: Column): string -> real
  {
    k => GroupSum(rows, c, k, Amounts)
  }

  /** All labels of column `c`, largest summed amount first. */
  function Ranked(rows: seq<Record>, c: Column): (ks: seq<string>)
    ensures multiset(ks) == multiset(Keys(rows, c))
    ensures |ks| == |Keys(rows, c)|
    ensures SortedDesc(ks, ByAmount(rows, c))
  {
    SortDescending(Keys(rows, c), ByAmount(rows, c))
  }

  /** `groupby(c)["amount"].sum().sort_values(ascending=False).head(n)`. */
  function TopGroups(rows: seq<Record>, c: Column, n: nat): (r: seq<Group>)
    ensures |r| == Min(n, |Keys(rows, c)|)
  {
    var ranked := Ranked(rows, c);
    var m := Min(n, |ranked|);
    seq(m, i requires 0 <= i < m => Group(ranked[i], GroupSum(rows, c, ranked[i], Amounts)))
  }

  /** The top-N rows are the first rows of the ranking, each with its sum. */
  lemma TopGroupsFollowRanking(rows: seq<Record>, c: Column, n: nat)
    ensures var r := TopGroups(rows, c, n);
            && |r| <= |Ranked(rows, c)|
            && GroupLabels(r) == Ranked(rows, c)[..|r|]
            && forall i :: 0 <= i < |r| ==> r[i].total == GroupSum(rows, c, r[i].name, Amounts)
  {
    var r := TopGroups(rows, c, n);
    var ranked := Ranked(rows, c);
    assert forall i :: 0 <= i < |r| ==> r[i].name == ranked[i];
  }

  /** The top-N answer lists min(N, number of groups) distinct groups with
      their summed amounts, largest first, and no group left out has a larger
      sum than any group listed. */
  lemma TopGroupsAreTop(rows: seq<Record>, c: Column, n: nat)
    ensures |TopGroups(rows, c, n)| == Min(n, |Keys(rows, c)|)
    ensures var r := TopGroups(rows, c, n);
            forall i :: 0 <= i < |r| ==>
              r[i].name in Keys(rows, c) && r[i].total == GroupSum(rows, c, r[i].name, Amounts)
    ensures Distinct(GroupLabels(TopGroups(rows, c, n)))
    ensures var r := TopGroups(rows, c, n);
            forall i, j :: 0 <= i < j < |r| ==> r[i].total >= r[j].total
    ensures var r := TopGroups(rows, c, n);
            forall k :: k in Keys(rows, c) && k !in GroupLabels(r) ==>
              forall i :: 0 <= i < |r| ==> GroupSum(rows, c, k, Amounts) <= r[i].total
  {
    var keys := Keys(rows, c);
    var score := ByAmount(rows, c);
    var ranked := Ranked(rows, c);
    var r := TopGroups(rows, c, n);
    var m := |r|;
    TopGroupsFollowRanking(rows, c, n);
    assert forall i :: 0 <= i < m ==> r[i].name == ranked[i] && r[i].total == score(ranked[i]) by {
      forall i | 0 <= i < m ensures r[i].name == ranked[i] {
        assert GroupLabels(r)[i] == ranked[..m][i];
      }
    }
    forall i | 0 <= i < m ensures r[i].name in keys {
      assert ranked[i] in multiset(keys);
    }
    SortKeepsDistinct(keys, score);
    TopIsTop(keys, ranked, score, m);
  }

  /** After a descending sort, every element not among the first `m`
      scores at most each of them. */
  lemma TopIsTop(keys: seq<string>, sorted: seq<string>, score: string -> real, m: nat)
    requires multiset(sorted) == multiset(keys) && SortedDesc(sorted, score) && m <= |sorted|
    ensures forall k :: k in keys && k !in sorted[..m] ==>
              forall i :: 0 <= i < m ==> score(k) <= score(sorted[i])
  {
    forall k | k in keys && k !in sorted[..m]
      ensures forall i :: 0 <= i < m ==> score(k) <= score(sorted[i])
    {
      assert k in multiset(sorted);
      var j :| 0 <= j < |sorted| && sorted[j] == k;
      assert forall i :: 0 <= i < m ==> sorted[..m][i] == sorted[i];
      assert j >= m;
    }
  }

  /** One row of the payment mix: a method and its percentage. */
  datatype Share = Share(name: string, percent: real)

  /** The percentage of the labelled rows that carry `k`:
      `value_counts(normalize=True).mul(100)` before rounding. */
  function Percent(rows: seq<Record>, c: Column, k: string): real
  {
    var n := LabelledCount(rows, c);
    if n == 0 then 0.0 else GroupSum(rows, c, k, Ones) * 100.0 / n as real
  }

  function ByPercent(rows: seq<Record>, c: Column): string -> real
  {
    k => Percent(rows, c, k)
  }

  /** Pairs each label with its percentage, in the given order. */
  function SharesOf(ks: seq<string>, rows: seq<Record>, c: Column): (r: seq<Share>)
    ensures |r| == |ks|
    ensures forall i :: 0 <= i < |ks| ==> r[i] == Share(ks[i], Percent(rows, c, ks[i]))
  {
    seq(|ks|, i requires 0 <= i < |ks| => Share(ks[i], Percent(rows, c, ks[i])))
  }

  function SharesTotal(r: seq<Share>): real
  {
    if r == [] then 0.0 else r[0].percent + SharesTotal(r[1..])
  }

  /** The payment-method mix: every method that occurs, with its share of the
      transactions that name a method, largest share first. */
  function PaymentMix(rows: seq<Record>): (r: seq<Share>)
    ensures |r| == |Keys(rows, PaymentMethod)|
  {
    SharesOf(SortDescending(Keys(rows, PaymentMethod), ByPercent(rows, PaymentMethod)), rows, PaymentMethod)
  }

  lemma {:induction false} SharesTotalIsSum(ks: seq<string>, rows: seq<Record>, c: Column)
    ensures SharesTotal(SharesOf(ks, rows, c)) == SumOf(ks, ByPercent(rows, c))
  {
    if ks != [] {
      SharesTotalIsSum(ks[1..], rows, c);
      assert SharesOf(ks, rows, c)[1..] == SharesOf(ks[1..], rows, c);
    }
  }

  /** `p` is the percentage that `g` is of `n`: `p * n == g * 100`. */
  predicate PercentOf(p: real, g: real, n: real)
  {
    p * n == g * 100.0
  }

  /** A percentage times the number of labelled rows is 100 times the count. */
  lemma PercentScaled(rows: seq<Record>, c: Column, k: string)
    requires LabelledCount(rows, c) > 0
    ensures PercentOf(Percent(rows, c, k), GroupSum(rows, c, k, Ones), LabelledCount(rows, c) as real)
  {
    var g := GroupSum(rows, c, k, Ones);
    var n := LabelledCount(rows, c) as real;
    assert Percent(rows, c, k) == g * 100.0 / n;
    DivIsPercent(g, n);
  }

  /** `g * 100 / n` is the percentage that `g` is of `n > 0`. */
  lemma DivIsPercent(g: real, n: real)
    requires n > 0.0
    ensures PercentOf(g * 100.0 / n, g, n)
  {
  }

  /** Percentages add up like the counts they come from. */
  lemma {:induction false} PercentsAddUp(ks: seq<string>, rows: seq<Record>, c: Column)
    requires LabelledCount(rows, c) > 0
    ensures PercentOf(SumOf(ks, ByPercent(rows, c)), SumGroups(ks, rows, c, Ones), LabelledCount(rows, c) as real)
  {
    var n := LabelledCount(rows, c) as real;
    if ks == [] {
      assert SumOf(ks, ByPercent(rows, c)) == 0.0;
      assert SumGroups(ks, rows, c, Ones) == 0.0;
    } else {
      PercentsAddUp(ks[1..], rows, c);
      PercentScaled(rows, c, ks[0]);
      var p, rest := Percent(rows, c, ks[0]), SumOf(ks[1..], ByPercent(rows, c));
      var g, grest := GroupSum(rows, c, ks[0], Ones), SumGroups(ks[1..], rows, c, Ones);
      assert SumOf(ks, ByPercent(rows, c)) == p + rest;
      assert SumGroups(ks, rows, c, Ones) == g + grest;
      AddScaled(p, rest, g, grest, n);
    }
  }

  /** Percentages of the same whole add up like the parts. */
  lemma AddScaled(p: real, q: real, g: real, h: real, n: real)
    requires PercentOf(p, g, n) && PercentOf(q, h, n)
    ensures PercentOf(p + q, g + h, n)
  {
  }

  /** The percentage that a positive whole is of itself is 100. */
  lemma WholeIsHundred(p: real, n: real)
    requires n > 0.0 && PercentOf(p, n, n)
    ensures p == 100.0
  {
    assert (p - 100.0) * n == 0.0;
  }

  /** Each method of the payment mix occurs once, with its count over the
      number of transactions naming a method, times 100, largest share
      first; the mix is empty only when no transaction names a method. */
  lemma PaymentMixShares(rows: seq<Record>)
    ensures var r := PaymentMix(rows);
            && (r == [] <==> LabelledCount(rows, PaymentMethod) == 0)
            && (forall i :: 0 <= i < |r| ==>
                  (&& r[i].name in Keys(rows, PaymentMethod)
                   && (LabelledCount(rows, PaymentMethod) > 0 ==>
                         PercentOf(r[i].percent, GroupSum(rows, PaymentMethod, r[i].name, Ones),
                                   LabelledCount(rows, PaymentMethod) as real))))
            && (forall i, j :: 0 <= i < j < |r| ==> r[i].name != r[j].name && r[i].percent >= r[j].percent)
  {
    var c := PaymentMethod;
    var keys := Keys(rows, c);
    var score := ByPercent(rows, c);
    var ranked := SortDescending(keys, score);
    var r := PaymentMix(rows);
    assert r == SharesOf(ranked, rows, c);
    SortKeepsDistinct(keys, score);
    forall i | 0 <= i < |r|
      ensures r[i].name in keys
      ensures LabelledCount(rows, c) > 0 ==>
                PercentOf(r[i].percent, GroupSum(rows, c, r[i].name, Ones), LabelledCount(rows, c) as real)
    {
      assert r[i] == Share(ranked[i], Percent(rows, c, ranked[i]));
      assert ranked[i] in multiset(keys);
      if LabelledCount(rows, c) > 0 {
        PercentScaled(rows, c, ranked[i]);
      }
    }
    forall i, j | 0 <= i < j < |r| ensures r[i].name != r[j].name && r[i].percent >= r[j].percent {
      assert r[i] == Share(ranked[i], score(ranked[i]));
      assert r[j] == Share(ranked[j], score(ranked[j]));
    }
  }

  /** Before rounding, the payment-mix percentages add up to exactly 100. */
  lemma PaymentMixSumsTo100(rows: seq<Record>)
    requires PaymentMix(rows) != []
    ensures SharesTotal(PaymentMix(rows)) == 100.0
  {
    var c := PaymentMethod;
    var keys := Keys(rows, c);
    var score := ByPercent(rows, c);
    var n := LabelledCount(rows, c);
    assert n > 0;
    SharesTotalIsSum(SortDescending(keys, score), rows, c);
    SortKeepsSum(keys, score);
    assert SharesTotal(PaymentMix(rows)) == SumOf(keys, score);
    PercentsAddUp(keys, rows, c);
    GroupsPartition(rows, c, Ones);
    assert SumGroups(keys, rows, c, Ones) == n as real;
    WholeIsHundred(SumOf(keys, score), n as real);
  }

  /** The earliest and latest present date. */
  datatype Span = Span(first: int, last: int)

  /** `date.min()` and `date.max()`, skipping missing dates; `None` when no
      date is present. */
  function DateSpan(rows: seq<Record>): (r: Option<Span>)
    ensures r.None? <==> forall i :: 0 <= i < |rows| ==> rows[i].date.None?
    ensures r.Some? ==> r.value.first <= r.value.last
    ensures r.Some? ==> forall i :: 0 <= i < |rows| && rows[i].date.Some? ==>
              r.value.first <= rows[i].date.value <= r.value.last
    ensures r.Some? ==> exists i :: 0 <= i < |rows| && rows[i].date == Some(r.value.first)
    ensures r.Some? ==> exists i :: 0 <= i < |rows| && rows[i].date == Some(r.value.last)
  {
    if rows == [] then None
    else
      var rest := DateSpan(rows[1..]);
      assert forall i :: 1 <= i < |rows| ==> rows[i] == rows[1..][i - 1];
      match rows[0].date
      case None => rest
      case Some(d) =>
        match rest
        case None => Some(Span(d, d))
        case Some(s) => Some(Span(Min(d, s.first), Max(d, s.last)))
  }

  /** Every method that occurs in the table appears in the payment mix. */
  lemma MixCoversKeys(rows: seq<Record>, k: string)
    requires k in Keys(rows, PaymentMethod)
    ensures exists i :: 0 <= i < |PaymentMix(rows)| && PaymentMix(rows)[i].name == k
  {
    var keys := Keys(rows, PaymentMethod);
    var ranked := SortDescending(keys, ByPercent(rows, PaymentMethod));
    assert k in multiset(ranked);
    var i :| 0 <= i < |ranked| && ranked[i] == k;
    assert PaymentMix(rows)[i].name == k;
  }
}
