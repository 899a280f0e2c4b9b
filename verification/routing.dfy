/** Keyword routing of chatbot questions: the question is lower-cased and
    tested against a fixed, ordered list of substring rules; the first rule
    that fires decides the answer, and a question no rule accepts gets the
    help text. */
module Routing {

  /** Lower-cases one character (ASCII letters only). */
  function LowerChar(c: char): char
  {
    if 'A' <= c <= 'Z' then (c as int + 32) as char else c
  }

  /** The two strings differ at most in the letter case of their characters. */
  predicate SameUpToCase(a: string, b: string)
  {
    |a| == |b| && forall i :: 0 <= i < |a| ==> LowerChar(a[i]) == LowerChar(b[i])
  }

  /** `str.lower()`: the same text up to case, with no upper-case letter left. */
  function Lower(s: string): (r: string)
    ensures SameUpToCase(s, r)
    ensures forall i :: 0 <= i < |r| ==> !('A' <= r[i] <= 'Z')
  {
    seq(|s|, i requires 0 <= i < |s| => LowerChar(s[i]))
  }

  /** The contract of `Lower` determines it: any text equal to `s` up to
      case and free of upper-case letters is `Lower(s)`. */
  lemma LowerUnique(s: string, r: string)
    requires SameUpToCase(s, r)
    requires forall i :: 0 <= i < |r| ==> !('A' <= r[i] <= 'Z')
    ensures r == Lower(s)
  {
    forall i | 0 <= i < |r| ensures r[i] == Lower(s)[i] {
      assert LowerChar(r[i]) == r[i];
    }
  }

  /** Lower-casing twice is lower-casing once. */
  lemma LowerIdempotent(s: string)
    ensures Lower(Lower(s)) == Lower(s)
  {
  }

  /** `sub` occurs in `s` starting at index `i`. */
  predicate OccursAt(s: string, sub: string, i: int)
  {
    0 <= i && i + |sub| <= |s| && s[i..i + |sub|] == sub
  }

  /** Python's `sub in s`. */
  function Contains(s: string, sub: string): (r: bool)
    ensures r <==> exists i :: OccursAt(s, sub, i)
    decreases |s|
  {
    if |s| < |sub| then false
    else if s[..|sub|] == sub then
      assert OccursAt(s, sub, 0);
      true
    else
      var r := Contains(s[1..], sub);
      assert forall i :: 1 <= i ==> (OccursAt(s, sub, i) <==> OccursAt(s[1..], sub, i - 1)) by {
        forall i | 1 <= i ensures OccursAt(s, sub, i) <==> OccursAt(s[1..], sub, i - 1) {
          if i + |sub| <= |s| {
            var a, b := s[i..i + |sub|], s[1..][i - 1..i - 1 + |sub|];
            assert |a| == |b|;
            assert forall t :: 0 <= t < |a| ==> a[t] == s[i + t] == b[t];
            assert a == b;
          }
        }
      }
      assert (exists i :: OccursAt(s, sub, i)) <==> (exists i :: OccursAt(s[1..], sub, i)) by {
        if exists i :: OccursAt(s, sub, i) {
          var i :| OccursAt(s, sub, i);
          assert s[0..|sub|] == s[..|sub|];
          assert OccursAt(s[1..], sub, i - 1);
        }
        if exists i :: OccursAt(s[1..], sub, i) {
          var i :| OccursAt(s[1..], sub, i);
          assert OccursAt(s, sub, i + 1);
        }
      }
      r
  }

  /** What a question asks for; `Help` is the fallback. */
  datatype Intent =
    | AskTotal
    | AskCount
    | AskTopMerchants
    | AskTopCategories
    | AskPaymentMix
    | AskOutliers
    | AskDateRange
    | Help

  /** A rule fires when, for every clause, the question contains at least one
      of the clause's keywords (a conjunction of disjunctions). */
  datatype Rule = Rule(clauses: seq<seq<string>>, intent: Intent)

  predicate Fires(ql: string, rule: Rule)
  {
    forall i :: 0 <= i < |rule.clauses| ==>
      exists j :: 0 <= j < |rule.clauses[i]| && Contains(ql, rule.clauses[i][j])
  }

  /** The rules in priority order. */
  const Rules: seq<Rule> := [
    Rule([["total"], ["spend", "amount"]], AskTotal),
    Rule([["how many", "count"]], AskCount),
    Rule([["top"], ["merchant"]], AskTopMerchants),
    Rule([["top"], ["categories"]], AskTopCategories),
    Rule([["payment"], ["mix", "share", "distribution"]], AskPaymentMix),
    Rule([["outlier"]], AskOutliers),
    Rule([["date range"]], AskDateRange)
  ]

  /** No rule before index `i` fires. */
  predicate NoneBefore(ql: string, rules: seq<Rule>, i: int)
    requires 0 <= i <= |rules|
  {
    forall j :: 0 <= j < i ==> !Fires(ql, rules[j])
  }

  /** The intent of the first rule that fires, or `Help` if none does. */
  function FirstMatch(ql: string, rules: seq<Rule>): (r: Intent)
    requires forall i :: 0 <= i < |rules| ==> rules[i].intent != Help
    ensures r == Help <==> NoneBefore(ql, rules, |rules|)
    ensures forall i :: 0 <= i < |rules| && Fires(ql, rules[i]) && NoneBefore(ql, rules, i) ==> r == rules[i].intent
  {
    if rules == [] then Help
    else if Fires(ql, rules[0]) then rules[0].intent
    else
      var r := FirstMatch(ql, rules[1..]);
      assert forall i :: 1 <= i <= |rules| ==>
        (NoneBefore(ql, rules, i) <==> NoneBefore(ql, rules[1..], i - 1)) by {
        forall i | 1 <= i <= |rules|
          ensures NoneBefore(ql, rules, i) <==> NoneBefore(ql, rules[1..], i - 1)
        {
          assert forall j :: 1 <= j < i ==> rules[j] == rules[1..][j - 1];
        }
      }
      r
  }

  /** The intent of a question, from its lower-cased text: the help intent
      when no rule fires, otherwise the intent of the first rule that fires. */
  function Route(q: string): (r: Intent)
    ensures r == Help <==> NoneBefore(Lower(q), Rules, |Rules|)
    ensures forall i :: 0 <= i < |Rules| && Fires(Lower(q), Rules[i]) && NoneBefore(Lower(q), Rules, i) ==>
              r == Rules[i].intent
  {
    FirstMatch(Lower(q), Rules)
  }

  /** In any rule list, the `i`-th rule decides exactly when it fires and no
      earlier rule does, provided no two rules share an intent. */
  lemma FirstMatchPriority(ql: string, rules: seq<Rule>, i: nat)
    requires forall j :: 0 <= j < |rules| ==> rules[j].intent != Help
    requires forall j, k :: 0 <= j < k < |rules| ==> rules[j].intent != rules[k].intent
    requires i < |rules|
    ensures FirstMatch(ql, rules) == rules[i].intent <==> Fires(ql, rules[i]) && NoneBefore(ql, rules, i)
  {
    if FirstMatch(ql, rules) == rules[i].intent {
      var k := FirstFiring(ql, rules);
      assert rules[k].intent == rules[i].intent;
    }
  }

  /** First match wins: the `i`-th rule decides exactly when it fires and no
      earlier rule does, and the help text is chosen exactly when no rule
      fires. */
  lemma RoutePriority(q: string, i: nat)
    requires i < |Rules|
    ensures Route(q) == Rules[i].intent <==> Fires(Lower(q), Rules[i]) && NoneBefore(Lower(q), Rules, i)
    ensures Route(q) == Help <==> NoneBefore(Lower(q), Rules, |Rules|)
  {
    FirstMatchPriority(Lower(q), Rules, i);
  }

  /** The index of the first rule that fires, when some rule does. */
  lemma FirstFiring(ql: string, rules: seq<Rule>) returns (k: nat)
    requires !NoneBefore(ql, rules, |rules|)
    ensures k < |rules| && Fires(ql, rules[k]) && NoneBefore(ql, rules, k)
  {
    var j :| 0 <= j < |rules| && Fires(ql, rules[j]);
    k := 0;
    while !Fires(ql, rules[k])
      invariant k <= j && NoneBefore(ql, rules, k)
      decreases j - k
    {
      k := k + 1;
    }
  }

  /** Changing the letter case of a question never changes its route. */
  lemma RouteIgnoresCase(a: string, b: string)
    requires SameUpToCase(a, b)
    ensures Lower(a) == Lower(b)
    ensures Route(a) == Route(b)
  {
  }

  /** A question mentioning "total" with "spend" or "amount" always gets the
      total-spend answer, whatever else it contains ("count", "top", ...). */
  lemma TotalSpendWins(q: string)
    requires Contains(Lower(q), "total")
    requires Contains(Lower(q), "spend") || Contains(Lower(q), "amount")
    ensures Route(q) == AskTotal
  {
    var ql := Lower(q);
    assert Fires(ql, Rules[0]) by {
      assert Rules[0].clauses[0][0] == "total";
      if Contains(ql, "spend") {
        assert Rules[0].clauses[1][0] == "spend";
      } else {
        assert Rules[0].clauses[1][1] == "amount";
      }
    }
  }

  /** Letter case is ignored and the total-spend rule outranks the count
      rule, even when "count" comes first. */
  lemma TotalOutranksCount()
    ensures Route("Count the TOTAL amount") == AskTotal
  {
    var q := "Count the TOTAL amount";
    var ql := Lower(q);
    assert ql[10] == 't' && ql[11] == 'o' && ql[12] == 't' && ql[13] == 'a' && ql[14] == 'l';
    assert ql[10..15] == "total";
    assert OccursAt(ql, "total", 10);
    assert ql[16] == 'a' && ql[17] == 'm' && ql[18] == 'o' && ql[19] == 'u' && ql[20] == 'n' && ql[21] == 't';
    assert ql[16..22] == "amount";
    assert OccursAt(ql, "amount", 16);
    TotalSpendWins(q);
  }

  /** A question with "top" and "merchant" that no earlier rule takes gets
      the merchant ranking, even when it also mentions "categories". */
  lemma MerchantsBeforeCategories(q: string)
    requires Contains(Lower(q), "top") && Contains(Lower(q), "merchant")
    requires !Fires(Lower(q), Rules[0]) && !Fires(Lower(q), Rules[1])
    ensures Route(q) == AskTopMerchants
  {
    var ql := Lower(q);
    assert Fires(ql, Rules[2]) by {
      assert Rules[2].clauses[0][0] == "top";
      assert Rules[2].clauses[1][0] == "merchant";
    }
    RoutePriority(q, 2);
  }

  /** How many groups a top-N question asks for: 10 when the lower-cased
      question contains "10" anywhere (so "100" also gives 10), else 5. */
  function TopSize(q: string): (n: nat)
    ensures n == 10 || n == 5
    ensures n == 10 <==> Contains(Lower(q), "10")
  {
    if Contains(Lower(q), "10") then 10 else 5
  }
}
