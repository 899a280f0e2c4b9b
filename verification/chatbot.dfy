/** The mock-up chatbot: answers to routed questions over the loaded table,
    and the chat history those answers are appended to. */
module Chatbot {
  import opened Wrappers
  import opened Seqs
  import opened Dataset
  import opened Aggregate
  import opened Outliers
  import opened Routing

  /** The multiplier the chatbot's outlier summary always uses. */
  const ChatMultiplier: real := 1.5

  /** The content of an answer, before it is formatted as text. */
  datatype Body =
    | Total(amount: real)
    | Count(rows: nat)
    | Ranking(groups: seq<Group>)
    | Mix(shares: seq<Share>)
    | OutlierCount(count: nat, total: real)
    | Dates(span: Option<Span>)
    | Message(text: string)

  /** Which rule answered, and what it answered. */
  datatype Reply = Reply(intent: Intent, body: Body)

  const HelpText: string :=
    "I can help with: total spend, counts, top merchants/categories, spend by payment mix, outliers, and date range."

  /** The columns a rule needs; the total and the count need none. */
  function Required(intent: Intent): set<Column>
  {
    match intent
    case AskTopMerchants => {Merchant, Amount}
    case AskTopCategories => {Category, Amount}
    case AskPaymentMix => {PaymentMethod}
    case AskOutliers => {Amount}
    case AskDateRange => {Date}
    case _ => {}
  }

  /** The fixed message a rule gives when one of its columns is missing. */
  function NotFound(intent: Intent): string
  {
    match intent
    case AskTopMerchants => "I can't find `merchant` or `amount`."
    case AskTopCategories => "I can't find `category` or `amount`."
    case AskPaymentMix => "I can't find `payment_method`."
    case AskOutliers => "I can't find `amount`."
    case AskDateRange => "I can't find `date`."
    case _ => HelpText
  }

  /** The answer of the rule for `intent`, with `n` the size of a top-N
      ranking: the rule first checks its columns and, when one is missing,
      answers with its message instead of falling through to a later rule. */
  function Respond(intent: Intent, n: nat, t: Table): (r: Reply)
    ensures r.intent == intent
    ensures r.body.Message? <==> intent == Help || !(Required(intent) <= t.columns)
    ensures intent == Help ==> r.body == Message(HelpText)
    ensures intent != Help && !(Required(intent) <= t.columns) ==> r.body == Message(NotFound(intent))
  {
    var rows := t.rows;
    if !(Required(intent) <= t.columns) then Reply(intent, Message(NotFound(intent)))
    else
      match intent
      case AskTotal => Reply(intent, Total(if Amount in t.columns then TotalAmount(rows) else 0.0))
      case AskCount => Reply(intent, Count(|rows|))
      case AskTopMerchants => Reply(intent, Ranking(TopGroups(rows, Merchant, n)))
      case AskTopCategories => Reply(intent, Ranking(TopGroups(rows, Category, n)))
      case AskPaymentMix => Reply(intent, Mix(PaymentMix(rows)))
      case AskOutliers =>
        var d := Detect(rows, ChatMultiplier, false);
        Reply(intent, OutlierCount(|d.outliers|, d.total))
      case AskDateRange => Reply(intent, Dates(DateSpan(rows)))
      case Help => Reply(intent, Message(HelpText))
  }

  /** `answer_query`: routes the question, then answers with the rule it
      routes to. */
  function Answer(q: string, t: Table): (r: Reply)
    ensures r.intent == Route(q)
    ensures r.body.Message? <==> r.intent == Help || !(Required(r.intent) <= t.columns)
    ensures r.intent == Help ==> r.body == Message(HelpText)
    ensures r.intent != Help && !(Required(r.intent) <= t.columns) ==> r.body == Message(NotFound(r.intent))
  {
    Respond(Route(q), TopSize(q), t)
  }

  /** Changing the letter case of a question never changes its answer,
      including the size of a top-N ranking. */
  lemma AnswerIgnoresCase(a: string, b: string, t: Table)
    requires SameUpToCase(a, b)
    ensures Answer(a, t) == Answer(b, t)
  {
    RouteIgnoresCase(a, b);
  }

  /** The total is the sum of the present amounts, and 0 rather than a
      message when the table has no amount column. */
  lemma TotalAnswer(n: nat, t: Table)
    ensures Respond(AskTotal, n, t).body == Total(if Amount in t.columns then SumOf(PresentAmounts(t.rows), x => x) else 0.0)
  {
    TotalIsSumOfPresent(t.rows);
  }

  /** The count is the number of rows, whatever columns or cells are missing. */
  lemma CountAnswer(n: nat, t: Table)
    ensures Respond(AskCount, n, t).body == Count(|t.rows|)
  {
  }

  /** A top-N answer lists min(N, number of groups) distinct groups, sorted
      by summed amount from the largest, and no group left out has a larger
      sum than a group listed. */
  lemma TopAnswer(intent: Intent, n: nat, t: Table)
    requires intent == AskTopMerchants || intent == AskTopCategories
    requires Required(intent) <= t.columns
    ensures var c := if intent == AskTopMerchants then Merchant else Category;
            var body := Respond(intent, n, t).body;
            && body.Ranking?
            && |body.groups| == Min(n, |Keys(t.rows, c)|)
            && (forall i :: 0 <= i < |body.groups| ==>
                  body.groups[i].name in Keys(t.rows, c)
                  && body.groups[i].total == GroupSum(t.rows, c, body.groups[i].name, Amounts))
            && Distinct(GroupLabels(body.groups))
            && (forall i, j :: 0 <= i < j < |body.groups| ==> body.groups[i].total >= body.groups[j].total)
            && (forall k :: k in Keys(t.rows, c) && k !in GroupLabels(body.groups) ==>
                  forall i :: 0 <= i < |body.groups| ==> GroupSum(t.rows, c, k, Amounts) <= body.groups[i].total)
  {
    var c := if intent == AskTopMerchants then Merchant else Category;
    TopGroupsAreTop(t.rows, c, n);
  }

  /** The payment-mix answer lists each method that occurs, and before
      rounding its percentages add up to exactly 100 unless no row names a
      method. */
  lemma MixAnswer(n: nat, t: Table)
    requires PaymentMethod in t.columns
    ensures Respond(AskPaymentMix, n, t).body.Mix?
    ensures forall k :: k in Keys(t.rows, PaymentMethod) <==>
              exists i :: 0 <= i < |Respond(AskPaymentMix, n, t).body.shares| && Respond(AskPaymentMix, n, t).body.shares[i].name == k
    ensures Respond(AskPaymentMix, n, t).body.shares == [] || SharesTotal(Respond(AskPaymentMix, n, t).body.shares) == 100.0
  {
    var r := PaymentMix(t.rows);
    PaymentMixShares(t.rows);
    if r != [] {
      PaymentMixSumsTo100(t.rows);
    }
    var keys := Keys(t.rows, PaymentMethod);
    forall k | k in keys ensures exists i :: 0 <= i < |r| && r[i].name == k {
      MixCoversKeys(t.rows, k);
    }
  }

  /** The outlier summary counts the rows whose present amount lies above
      `q3 + 1.5 * iqr`, with no low-side check, and sums their amounts; the
      rows it counts are exactly those. */
  lemma OutlierAnswer(n: nat, t: Table)
    requires Amount in t.columns
    ensures var th := ComputeThresholds(t.rows, ChatMultiplier);
            Respond(AskOutliers, n, t).body
              == OutlierCount(CountFlagged(t.rows, th, false), FlaggedTotal(t.rows, th, false))
    ensures forall x :: (x in Detect(t.rows, ChatMultiplier, false).outliers
                         <==> x in t.rows && x.amount.Some? && ComputeThresholds(t.rows, ChatMultiplier).Some?
                              && x.amount.value > ComputeThresholds(t.rows, ChatMultiplier).value.upper)
  {
    var d := Detect(t.rows, ChatMultiplier, false);
    assert Respond(AskOutliers, n, t) == Reply(AskOutliers, OutlierCount(|d.outliers|, d.total));
    OutliersAboveUpper(t.rows, ChatMultiplier);
  }

  /** The date-range answer is the span of the present dates, or none when
      no date is present. */
  lemma DateAnswer(n: nat, t: Table)
    requires Date in t.columns
    ensures Respond(AskDateRange, n, t).body == Dates(DateSpan(t.rows))
  {
  }

  /** Who wrote a chat entry. */
  datatype Role = User | Assistant

  /** The opening greeting, a question typed by the user, or an answer. */
  datatype Content = Greeting | Question(text: string) | Answered(reply: Reply)

  datatype Entry = Entry(role: Role, content: Content)

  /** A fresh session's history: the assistant's greeting alone. */
  const Opening: seq<Entry> := [Entry(Assistant, Greeting)]

  /** The page's answerer: `answer_query` applied to the loaded table. */
  function Responder(t: Table): string -> Reply
  {
    q => Answer(q, t)
  }

  /** One chat turn, with `answer` the page's answerer. An empty input adds
      nothing; otherwise the question and then its answer are appended. */
  function Turn(h: seq<Entry>, msg: string, answer: string -> Reply): (h': seq<Entry>)
    ensures msg == "" ==> h' == h
    ensures msg != "" ==> |h'| == |h| + 2 && h'[..|h|] == h
    ensures msg != "" ==> h'[|h|] == Entry(User, Question(msg))
    ensures msg != "" ==> h'[|h| + 1] == Entry(Assistant, Answered(answer(msg)))
  {
    if msg == "" then h
    else h + [Entry(User, Question(msg)), Entry(Assistant, Answered(answer(msg)))]
  }

  /** On the page, the entry a turn appends after the question is
      `answer_query` of that question over the loaded table. */
  lemma TurnAnswers(h: seq<Entry>, msg: string, t: Table)
    requires msg != ""
    ensures Turn(h, msg, Responder(t))[|h| + 1] == Entry(Assistant, Answered(Answer(msg, t)))
  {
  }

  /** The `i`-th exchange after the greeting: a non-empty question and the
      answer to it. */
  predicate Exchange(h: seq<Entry>, answer: string -> Reply, i: nat)
    requires 2 * i + 2 < |h|
  {
    && h[2 * i + 1].role == User
    && h[2 * i + 1].content.Question?
    && h[2 * i + 1].content.text != ""
    && h[2 * i + 2] == Entry(Assistant, Answered(answer(h[2 * i + 1].content.text)))
  }

  /** A history is the greeting followed by complete question/answer pairs. */
  predicate WellFormed(h: seq<Entry>, answer: string -> Reply)
  {
    && |h| % 2 == 1
    && h[0] == Entry(Assistant, Greeting)
    && forall i: nat :: i < |h| / 2 ==> Exchange(h, answer, i)
  }

  /** Appending entries keeps every complete exchange already present. */
  lemma ExchangeKept(h: seq<Entry>, h': seq<Entry>, answer: string -> Reply, i: nat)
    requires 2 * i + 2 < |h| <= |h'| && h'[..|h|] == h
    requires Exchange(h, answer, i)
    ensures Exchange(h', answer, i)
  {
    assert h'[2 * i + 1] == h[2 * i + 1] && h'[2 * i + 2] == h[2 * i + 2];
  }

  /** A turn keeps the history well formed. */
  lemma TurnKeepsWellFormed(h: seq<Entry>, msg: string, answer: string -> Reply)
    requires WellFormed(h, answer)
    ensures WellFormed(Turn(h, msg, answer), answer)
  {
    if msg != "" {
      var h' := Turn(h, msg, answer);
      forall i: nat | i < |h'| / 2 ensures Exchange(h', answer, i) {
        if i < |h| / 2 {
          ExchangeKept(h, h', answer, i);
        } else {
          assert 2 * i + 1 == |h|;
        }
      }
    }
  }

  /** The history after a session of inputs, starting from the greeting. */
  function Session(msgs: seq<string>, answer: string -> Reply): seq<Entry>
  {
    if msgs == [] then Opening
    else Turn(Session(msgs[..|msgs| - 1], answer), msgs[|msgs| - 1], answer)
  }

  /** Number of non-empty inputs. */
  function Asked(msgs: seq<string>): nat
  {
    if msgs == [] then 0 else Asked(msgs[..|msgs| - 1]) + (if msgs[|msgs| - 1] == "" then 0 else 1)
  }

  /** Every session history is well formed and holds the greeting plus two
      entries per non-empty input. */
  lemma {:induction false} SessionWellFormed(msgs: seq<string>, answer: string -> Reply)
    ensures WellFormed(Session(msgs, answer), answer)
    ensures |Session(msgs, answer)| == 1 + 2 * Asked(msgs)
  {
    if msgs != [] {
      SessionWellFormed(msgs[..|msgs| - 1], answer);
      TurnKeepsWellFormed(Session(msgs[..|msgs| - 1], answer), msgs[|msgs| - 1], answer);
    }
  }

  /** History only grows: later inputs leave every earlier entry unchanged. */
  lemma {:induction false} SessionExtends(msgs: seq<string>, more: seq<string>, answer: string -> Reply)
    ensures Session(msgs, answer) <= Session(msgs + more, answer)
    decreases |more|
  {
    if more != [] {
      var init := more[..|more| - 1];
      SessionExtends(msgs, init, answer);
      assert (msgs + more)[..|msgs + more| - 1] == msgs + init;
    } else {
      assert msgs + more == msgs;
    }
  }
}
