/**
  The dispatch throttle: after each processed row the sender pauses for a time
  that depends only on how many messages the batch has sent so far. Pauses are
  measured in tenths of a second, so the program's 2.5 s, 5 s and 8 s become
  25, 50 and 80.
 */
module Throttle {

  /** The pause, in tenths of a second, after `sentCount` successful sends. */
  function DelayTenths(sentCount: int): (d: nat)
    ensures d == 0 || d == 25 || d == 50 || d == 80
    ensures sentCount <= 0 ==> d == 0
    ensures d > 0 ==> sentCount % 10 == 0
  {
    if sentCount > 0 then
      if sentCount % 100 == 0 then 80
      else if sentCount % 50 == 0 then 50
      else if sentCount % 10 == 0 then 25
      else 0
    else 0
  }

  /** A pacing rule as advertised to the operator: pause `tenths` after every `every` sends. */
  datatype Rule = Rule(every: nat, tenths: nat)

  /** The advertised rules, in the order the operator reads them. */
  const Rules: seq<Rule> := [Rule(10, 25), Rule(50, 50), Rule(100, 80)]

  /** Rule `r` fires after `n` sends. */
  predicate Applies(r: Rule, n: int)
  {
    n > 0 && r.every > 0 && n % r.every == 0
  }

  /** The longest pause among the rules that fire after `n` sends, or 0 if none does. */
  function Longest(rules: seq<Rule>, n: int): (d: nat)
    ensures forall i :: 0 <= i < |rules| && Applies(rules[i], n) ==> rules[i].tenths <= d
    ensures d == 0 || exists i :: 0 <= i < |rules| && Applies(rules[i], n) && rules[i].tenths == d
  {
    if |rules| == 0 then 0
    else
      var rest := Longest(rules[1..], n);
      var here := if Applies(rules[0], n) then rules[0].tenths else 0;
      var d := if here > rest then here else rest;
      assert forall i :: 1 <= i < |rules| ==> rules[i] == rules[1..][i - 1];
      assert d == 0 || exists i :: 0 <= i < |rules| && Applies(rules[i], n) && rules[i].tenths == d by {
        if d != 0 && d != here {
          var j :| 0 <= j < |rules[1..]| && Applies(rules[1..][j], n) && rules[1..][j].tenths == d;
          assert rules[j + 1] == rules[1..][j];
        }
      }
      d
  }

  lemma MultipleOf100(n: int)
    requires n % 100 == 0
    ensures n % 50 == 0 && n % 10 == 0
  {
    var k := n / 100;
    assert n == 50 * (2 * k);
    assert n == 10 * (10 * k);
  }

  lemma MultipleOf50(n: int)
    requires n % 50 == 0
    ensures n % 10 == 0
  {
    var k := n / 50;
    assert n == 10 * (5 * k);
  }

  /**
    The priority order 100, then 50, then 10 means the throttle always takes
    the longest pause among the advertised rules that fire, and only that one.
   */
  lemma DelayIsLongestApplicable(n: int)
    ensures DelayTenths(n) == Longest(Rules, n)
  {
    if n > 0 && n % 100 == 0 {
      MultipleOf100(n);
    } else if n > 0 && n % 50 == 0 {
      MultipleOf50(n);
    }
    var l := Longest(Rules, n);
    assert Rules[0] == Rule(10, 25) && Rules[1] == Rule(50, 50) && Rules[2] == Rule(100, 80);
  }

  /** The throttle repeats itself every 100 sends. */
  lemma DelayPeriodic(n: int)
    requires n > 0
    ensures DelayTenths(n + 100) == DelayTenths(n)
  {
    assert (n + 100) % 100 == n % 100;
    assert (n + 100) % 50 == n % 50;
    assert (n + 100) % 10 == n % 10;
  }

  /** The operator-facing examples: 100 gives 8 s (not 5 s or 2.5 s), 50 gives 5 s, 30 gives 2.5 s, 77 none. */
  lemma DelayExamples()
    ensures DelayTenths(100) == 80 && DelayTenths(200) == 80
    ensures DelayTenths(50) == 50 && DelayTenths(150) == 50
    ensures DelayTenths(10) == 25 && DelayTenths(30) == 25
    ensures DelayTenths(77) == 0 && DelayTenths(0) == 0 && DelayTenths(-10) == 0
  {
  }
}
