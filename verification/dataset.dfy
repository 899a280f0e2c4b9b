/** The transaction table as both dashboard pages see it after loading:
    `amount` coerced to a number and `date` to a timestamp, with every
    unparseable cell missing. */
module Dataset {
  import opened Wrappers
  import opened Seqs

  /** The columns the core reads. A table may lack any of them. */
  datatype Column = Amount | Date | Category | Merchant | PaymentMethod

  /** One transaction. `date` is a day number; label cells are free text. */
  datatype Record = Record(
    amount: Option<real>,
    date: Option<int>,
    category: Option<string>,
    merchant: Option<string>,
    paymentMethod: Option<string>)

  /** The loaded data frame: which columns exist, and the rows in file order. */
  datatype Table = Table(columns: set<Column>, rows: seq<Record>)

  /** The text label a row carries in a label column; numeric columns carry none. */
  function Label(r: Record, c: Column): Option<string>
  {
    match c
    case Category => r.category
    case Merchant => r.merchant
    case PaymentMethod => r.paymentMethod
    case _ => None
  }

  /** Sum of the amounts that are present; missing amounts are skipped, as
      pandas' `sum` skips NaN, and an empty sum is 0. */
  function TotalAmount(rows: seq<Record>): real
  {
    if rows == [] then 0.0
    else (if rows[0].amount.Some? then rows[0].amount.value else 0.0) + TotalAmount(rows[1..])
  }

  /** Number of rows whose amount is present and equal to `x`. */
  function AmountCount(rows: seq<Record>, x: real): nat
  {
    if rows == [] then 0
    else (if rows[0].amount == Some(x) then 1 else 0) + AmountCount(rows[1..], x)
  }

  /** The present amounts in row order: `amount.dropna()`. Each value occurs
      as often as rows carry it. */
  function PresentAmounts(rows: seq<Record>): (r: seq<real>)
    ensures |r| <= |rows|
    ensures r == [] <==> forall i :: 0 <= i < |rows| ==> rows[i].amount.None?
    ensures forall i :: 0 <= i < |rows| && rows[i].amount.Some? ==> rows[i].amount.value in r
    ensures forall x :: x in r ==> exists i :: 0 <= i < |rows| && rows[i].amount == Some(x)
    ensures forall x :: multiset(r)[x] == AmountCount(rows, x)
  {
    if rows == [] then []
    else
      var rest := PresentAmounts(rows[1..]);
      var r := if rows[0].amount.Some? then [rows[0].amount.value] + rest else rest;
      PresentStepEmpty(rows, rest, r);
      PresentStepKept(rows, rest, r);
      PresentStepSource(rows, rest, r);
      PresentStepCount(rows, rest, r);
      r
  }

  /** The step of `PresentAmounts`: the head's amount, if any, before the rest. */
  ghost predicate PresentStep(rows: seq<Record>, rest: seq<real>, r: seq<real>)
  {
    rows != [] && r == if rows[0].amount.Some? then [rows[0].amount.value] + rest else rest
  }

  /** One step of `PresentAmounts`: nothing is kept exactly when no row has an amount. */
  lemma PresentStepEmpty(rows: seq<Record>, rest: seq<real>, r: seq<real>)
    requires PresentStep(rows, rest, r)
    requires rest == [] <==> forall i :: 0 <= i < |rows[1..]| ==> rows[1..][i].amount.None?
    ensures r == [] <==> forall i :: 0 <= i < |rows| ==> rows[i].amount.None?
  {
    assert forall i :: 1 <= i < |rows| ==> rows[i] == rows[1..][i - 1];
  }

  /** One step of `PresentAmounts`: every present amount is kept. */
  lemma PresentStepKept(rows: seq<Record>, rest: seq<real>, r: seq<real>)
    requires PresentStep(rows, rest, r)
    requires forall i :: 0 <= i < |rows[1..]| && rows[1..][i].amount.Some? ==> rows[1..][i].amount.value in rest
    ensures forall i :: 0 <= i < |rows| && rows[i].amount.Some? ==> rows[i].amount.value in r
  {
    forall i | 0 <= i < |rows| && rows[i].amount.Some? ensures rows[i].amount.value in r {
      if i > 0 {
        assert rows[i] == rows[1..][i - 1];
      }
    }
  }

  /** One step of `PresentAmounts`: every kept value is some row's amount. */
  lemma PresentStepSource(rows: seq<Record>, rest: seq<real>, r: seq<real>)
    requires PresentStep(rows, rest, r)
    requires forall x :: x in rest ==> exists i :: 0 <= i < |rows[1..]| && rows[1..][i].amount == Some(x)
    ensures forall x :: x in r ==> exists i :: 0 <= i < |rows| && rows[i].amount == Some(x)
  {
    forall x | x in r ensures exists i :: 0 <= i < |rows| && rows[i].amount == Some(x) {
      if rows[0].amount != Some(x) {
        assert x in rest;
        var i :| 0 <= i < |rows[1..]| && rows[1..][i].amount == Some(x);
        assert rows[i + 1].amount == Some(x);
      }
    }
  }

  /** One step of `PresentAmounts`: each value is kept as often as rows carry it. */
  lemma PresentStepCount(rows: seq<Record>, rest: seq<real>, r: seq<real>)
    requires PresentStep(rows, rest, r)
    requires forall x :: multiset(rest)[x] == AmountCount(rows[1..], x)
    ensures forall x :: multiset(r)[x] == AmountCount(rows, x)
  {
    if rows[0].amount.Some? {
      assert multiset(r) == multiset{rows[0].amount.value} + multiset(rest);
    }
  }

  /** The total is the plain sum of the present amounts. */
  lemma {:induction false} TotalIsSumOfPresent(rows: seq<Record>)
    ensures TotalAmount(rows) == SumOf(PresentAmounts(rows), x => x)
  {
    if rows != [] {
      TotalIsSumOfPresent(rows[1..]);
      var rest := PresentAmounts(rows[1..]);
      if rows[0].amount.Some? {
        assert ([rows[0].amount.value] + rest)[1..] == rest;
      }
    }
  }
}
