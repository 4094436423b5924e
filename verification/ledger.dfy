/**
  The bookkeeping of a bulk send, independent of how a row's message is
  made: every row comes with a plan (its name, its email and either the
  message prepared for it or the error that stopped it), prepared messages
  are submitted in row order, and the k-th submission gets the k-th reply.
  From that follow the results table, the number sent, and the throttle's
  pause after every row.
 */
module Ledger {
  import opened Common
  import opened Throttle
  import opened ProgressBar

  datatype Status = Sent | Failed

  /** One line of the results table. */
  datatype RowResult = RowResult(name: string, email: string, status: Status, message: string)

  /** The server's answer to one submitted message. */
  datatype Reply = Accepted | Rejected(reason: string)

  const SentText := "Email sent successfully."
  const SmtpErrorPrefix := "SMTP error: "

  /** What a row amounts to before anything is submitted: its name, its email and its message or error text. */
  datatype Plan<M> = Plan(name: string, email: string, prepared: Result<M, string>)

  /** The result line of a planned row, given the reply its message gets. */
  function ResultOf<M>(p: Plan<M>, reply: Reply): (r: RowResult)
    ensures r.name == p.name && r.email == p.email
    ensures r.status == Sent <==> p.prepared.Ok? && reply == Accepted
    ensures r.status == Sent ==> r.message == SentText
    ensures p.prepared.Err? ==> r.message == p.prepared.error
    ensures p.prepared.Ok? && reply.Rejected? ==> r.message == SmtpErrorPrefix + reply.reason
  {
    match p.prepared
    case Err(e) => RowResult(p.name, p.email, Failed, e)
    case Ok(_) =>
      match reply
      case Accepted => RowResult(p.name, p.email, Sent, SentText)
      case Rejected(reason) => RowResult(p.name, p.email, Failed, SmtpErrorPrefix + reason)
  }

  /** The plans of the rows, in order. */
  function PlansOf<R, M>(rows: seq<R>, plan: R -> Plan<M>): (ps: seq<Plan<M>>)
    ensures |ps| == |rows|
  {
    if |rows| == 0 then [] else PlansOf(rows[..|rows| - 1], plan) + [plan(rows[|rows| - 1])]
  }

  /** The plans of a prefix of the rows are the same prefix of the plans, and each plan is its row's. */
  lemma {:induction false} PlansOfPrefix<R, M>(rows: seq<R>, plan: R -> Plan<M>, k: nat)
    requires k <= |rows|
    ensures PlansOf(rows, plan)[..k] == PlansOf(rows[..k], plan)
    ensures k < |rows| ==> PlansOf(rows, plan)[k] == plan(rows[k])
    decreases |rows|
  {
    if k < |rows| {
      var n := |rows| - 1;
      var before := rows[..n];
      assert PlansOf(rows, plan) == PlansOf(before, plan) + [plan(rows[n])];
      if k < n {
        PlansOfPrefix(before, plan, k);
        assert before[..k] == rows[..k] && before[k] == rows[k];
      } else {
        assert before == rows[..k];
      }
    } else {
      assert rows[..k] == rows;
    }
  }

  /** The messages submitted for the plans, in order: one for every plan that prepared. */
  function Submitted<M>(ps: seq<Plan<M>>): (ms: seq<M>)
    ensures |ms| <= |ps|
  {
    if |ps| == 0 then []
    else
      var last := ps[|ps| - 1];
      Submitted(ps[..|ps| - 1]) + (if last.prepared.Ok? then [last.prepared.value] else [])
  }

  /** The results table: each plan's outcome under the reply to the submission number its message would have. */
  function Outcomes<M>(ps: seq<Plan<M>>, reply: nat -> Reply): (rs: seq<RowResult>)
    ensures |rs| == |ps|
  {
    if |ps| == 0 then []
    else
      var before := ps[..|ps| - 1];
      Outcomes(before, reply) + [ResultOf(ps[|ps| - 1], reply(|Submitted(before)|))]
  }

  /** Extending the plans by one extends the results and the submissions by that plan's share. */
  lemma PlanStep<M>(ps: seq<Plan<M>>, p: Plan<M>, reply: nat -> Reply)
    ensures Outcomes(ps + [p], reply) == Outcomes(ps, reply) + [ResultOf(p, reply(|Submitted(ps)|))]
    ensures Submitted(ps + [p]) == Submitted(ps) + (if p.prepared.Ok? then [p.prepared.value] else [])
  {
    assert (ps + [p])[..|ps|] == ps;
  }

  lemma TakeAppend<T>(s: seq<T>, x: T, k: nat)
    requires k <= |s|
    ensures (s + [x])[..k] == s[..k]
  {
  }

  /** The results of a prefix of the plans are the same prefix of the results. */
  lemma {:induction false} OutcomesPrefix<M>(ps: seq<Plan<M>>, reply: nat -> Reply, k: nat)
    requires k <= |ps|
    ensures Outcomes(ps, reply)[..k] == Outcomes(ps[..k], reply)
    decreases |ps|
  {
    if k < |ps| {
      var n := |ps| - 1;
      var before := ps[..n];
      var earlier := Outcomes(before, reply);
      var last := ResultOf(ps[n], reply(|Submitted(before)|));
      assert Outcomes(ps, reply) == earlier + [last];
      TakeAppend(earlier, last, k);
      OutcomesPrefix(before, reply, k);
      assert before[..k] == ps[..k];
    } else {
      assert ps[..k] == ps;
    }
  }

  /** The result at position `i` is plan `i`'s outcome under the reply to that plan's own submission number. */
  lemma {:induction false} OutcomeAt<M>(ps: seq<Plan<M>>, reply: nat -> Reply, i: nat)
    requires i < |ps|
    ensures Outcomes(ps, reply)[i] == ResultOf(ps[i], reply(|Submitted(ps[..i])|))
  {
    OutcomesPrefix(ps, reply, i + 1);
    PlanStep(ps[..i], ps[i], reply);
    assert ps[..i + 1] == ps[..i] + [ps[i]];
  }

  /** The number of results with status `Sent`. */
  function CountSent(rs: seq<RowResult>): (n: nat)
    ensures n <= |rs|
  {
    if |rs| == 0 then 0
    else CountSent(rs[..|rs| - 1]) + (if rs[|rs| - 1].status == Sent then 1 else 0)
  }

  /** Only plans that prepared are submitted, so there are never more sends than submissions. */
  lemma {:induction false} SentWereSubmitted<M>(ps: seq<Plan<M>>, reply: nat -> Reply)
    ensures CountSent(Outcomes(ps, reply)) <= |Submitted(ps)|
    decreases |ps|
  {
    if |ps| > 0 {
      var before := ps[..|ps| - 1];
      SentWereSubmitted(before, reply);
      var rs := Outcomes(ps, reply);
      assert rs[..|rs| - 1] == Outcomes(before, reply);
    }
  }

  /** The throttle's pause after each result, in tenths of a second, from the sent count reached at that row. */
  function Pauses(rs: seq<RowResult>): (ps: seq<nat>)
    ensures |ps| == |rs|
    ensures forall k :: 0 < k <= |rs| ==> ps[k - 1] == DelayTenths(CountSent(rs[..k]))
  {
    if |rs| == 0 then []
    else
      var init := rs[..|rs| - 1];
      assert forall k :: 0 < k <= |init| ==> init[..k] == rs[..k];
      assert rs[..|rs|] == rs;
      Pauses(init) + [DelayTenths(CountSent(rs))]
  }

  /** Extending the results by one extends the tally and the pauses by that result's share. */
  lemma ResultStep(rs: seq<RowResult>, r: RowResult)
    ensures CountSent(rs + [r]) == CountSent(rs) + (if r.status == Sent then 1 else 0)
    ensures Pauses(rs + [r]) == Pauses(rs) + [DelayTenths(CountSent(rs + [r]))]
  {
    assert (rs + [r])[..|rs|] == rs;
  }

  /** The pause after row `k` depends only on the results up to and including row `k`. */
  lemma {:induction false} PauseAt(rs: seq<RowResult>, k: nat)
    requires k < |rs|
    ensures Pauses(rs)[k] == DelayTenths(CountSent(rs[..k + 1]))
    decreases |rs|
  {
    var n := |rs| - 1;
    if k < n {
      PauseAt(rs[..n], k);
      assert rs[..n][..k + 1] == rs[..k + 1];
    } else {
      assert rs[..k + 1] == rs;
    }
  }

  /**
    The pause follows failed rows too: a failed row repeats the pause of the
    row before it, since the sent count has not moved.
   */
  lemma {:induction false} FailedRowRepeatsPause(rs: seq<RowResult>)
    requires |rs| >= 2 && rs[|rs| - 1].status == Failed
    ensures Pauses(rs)[|rs| - 1] == Pauses(rs)[|rs| - 2]
  {
    var n := |rs| - 1;
    assert Pauses(rs)[n] == DelayTenths(CountSent(rs));
    assert Pauses(rs[..n])[n - 1] == DelayTenths(CountSent(rs[..n]));
    assert rs[..n][..n - 1] == rs[..n - 1];
  }

  /**
    The rows of a connected batch, one at a time: make the row's plan, submit
    its message when it prepared, record the result, count it, then pause and
    show progress whatever happened.
   */
  method Run<R, M>(rows: seq<R>, plan: R -> Plan<M>, reply: nat -> Reply)
    returns (sent: nat, failed: nat, results: seq<RowResult>, submitted: seq<M>,
             pauses: seq<nat>, progress: seq<nat>)
    ensures results == Outcomes(PlansOf(rows, plan), reply)
    ensures submitted == Submitted(PlansOf(rows, plan))
    ensures sent == CountSent(results) && sent + failed == |rows|
    ensures pauses == Pauses(results)
    ensures progress == ProgressTrail(|rows|, |rows|)
  {
    sent, failed, results, submitted, pauses, progress := 0, 0, [], [], [], [];
    ghost var ps: seq<Plan<M>> := [];
    var i := 0;
    while i < |rows|
      invariant 0 <= i <= |rows|
      invariant ps == PlansOf(rows[..i], plan)
      invariant results == Outcomes(ps, reply)
      invariant submitted == Submitted(ps)
      invariant sent == CountSent(results) && sent + failed == i
      invariant pauses == Pauses(results)
      invariant progress == ProgressTrail(i, |rows|)
    {
      var p := plan(rows[i]);
      var answer := reply(|submitted|);
      var result := ResultOf(p, answer);
      PlansOfStep(rows, plan, i);
      PlanStep(ps, p, reply);
      ps := ps + [p];
      if p.prepared.Ok? {
        submitted := submitted + [p.prepared.value];
      }
      if result.status == Sent {
        sent := sent + 1;
      } else {
        failed := failed + 1;
      }
      ResultStep(results, result);
      results := results + [result];
      pauses := pauses + [DelayTenths(sent)];
      progress := progress + [ProgressPercent(i, |rows|)];
      i := i + 1;
    }
    assert rows[..i] == rows;
  }

  lemma PlansOfStep<R, M>(rows: seq<R>, plan: R -> Plan<M>, i: nat)
    requires i < |rows|
    ensures PlansOf(rows[..i + 1], plan) == PlansOf(rows[..i], plan) + [plan(rows[i])]
  {
    assert rows[..i + 1][..i] == rows[..i];
  }
}
