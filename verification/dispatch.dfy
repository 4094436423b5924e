/**
  The bulk send: one pass over the recipient rows against a single mail
  session. Every row is rendered, built and submitted in input order; a row
  that fails (in rendering or at the server) is recorded and the pass goes
  on. After every row the throttle pauses according to the number of messages
  sent so far in this batch, and once connected the session is always asked
  to quit.

  The session is abstract: the outcome of connecting and logging in is a
  parameter, and so is the server's reply to the k-th submitted message.
 */
module Dispatch {
  import opened Common
  import opened Text
  import opened Throttle
  import opened Template
  import opened Transport
  import opened Recipients
  import opened Mime
  import opened ProgressBar
  import opened Ledger

  /** The outcome of connecting, upgrading and logging in. */
  datatype LoginReply = LoggedIn | LoginFailed(reason: string)

  /** A finished batch returns its tallies; a failed login raises with a message. */
  datatype Outcome =
    | Returned(sent: nat, failed: nat, results: seq<RowResult>)
    | Raised(message: string)

  const AuthFailurePrefix := "SMTP authentication failed: "

  /** What is the same for every row of a batch: the table's columns, the sender, both templates and the files. */
  datatype Batch = Batch(columns: seq<string>, from: string, subjectTemplate: string, bodyTemplate: string, files: Files)

  /** `str` of a cell: a missing cell reads as `nan`. */
  function CellText(v: Value): (s: string)
    ensures v.Present? ==> s == v.text
    ensures v.Missing? ==> s == "nan"
  {
    match v
    case Missing => "nan"
    case Present(t) => t
  }

  /** `str(row.get(name, "")).strip()`: the stripped cell text, or "" when there is no such column. */
  function Field(columns: seq<string>, row: Row, name: string): (s: string)
    ensures name !in columns ==> s == ""
    ensures name in columns ==> s == Strip(CellText(CellAt(row, ColumnIndex(columns, name).value)))
  {
    match ColumnIndex(columns, name)
    case None => ""
    case Some(i) => Strip(CellText(CellAt(row, i)))
  }

  /** `{col: row[col] for col in columns}` over the first `n` columns: a later column of the same name overwrites an earlier one. */
  function Cells(columns: seq<string>, row: Row, n: nat): (ctx: map<string, string>)
    requires n <= |columns|
    ensures forall c :: c in ctx <==> c in columns[..n]
    ensures n > 0 ==> ctx[columns[n - 1]] == CellText(CellAt(row, n - 1))
  {
    if n == 0 then map[]
    else
      assert columns[..n] == columns[..n - 1] + [columns[n - 1]];
      Cells(columns, row, n - 1)[columns[n - 1] := CellText(CellAt(row, n - 1))]
  }

  /** A column's value in the context is its cell in the row, taken from the last column of that name. */
  lemma {:induction false} CellsLastWins(columns: seq<string>, row: Row, n: nat, i: nat)
    requires i < n <= |columns| && columns[i] !in columns[i + 1..n]
    ensures columns[i] in Cells(columns, row, n) && Cells(columns, row, n)[columns[i]] == CellText(CellAt(row, i))
    decreases n
  {
    if i < n - 1 {
      assert columns[n - 1] in columns[i + 1..n];
      assert columns[i + 1..n - 1] == columns[i + 1..n][..n - 1 - (i + 1)];
      CellsLastWins(columns, row, n - 1, i);
    }
  }

  /**
    The per-row context of the templates: every column's raw cell text, plus
    `Name` and `Email` set to the stripped field values when the table has no
    such column (`setdefault`).
   */
  function Context(columns: seq<string>, row: Row): (ctx: map<string, string>)
    ensures "Name" in ctx && "Email" in ctx
  {
    var cells := Cells(columns, row, |columns|);
    var withName := if "Name" in cells then cells else cells["Name" := Field(columns, row, "Name")];
    if "Email" in withName then withName else withName["Email" := Field(columns, row, "Email")]
  }

  /**
    The context holds exactly the columns and the two defaults; a column
    keeps the raw (unstripped) text of its last cell of that name, and a
    default is the stripped field, which is "" when the column is absent.
   */
  lemma {:induction false} ContextContents(columns: seq<string>, row: Row, i: nat)
    requires i < |columns| && columns[i] !in columns[i + 1..]
    ensures var ctx := Context(columns, row);
      && (forall c :: c in ctx <==> c in columns || c == "Name" || c == "Email")
      && ctx[columns[i]] == CellText(CellAt(row, i))
      && ("Name" !in columns ==> ctx["Name"] == "")
      && ("Email" !in columns ==> ctx["Email"] == "")
  {
    assert columns[..|columns|] == columns;
    CellsLastWins(columns, row, |columns|, i);
  }

  /**
    Rendering and building one row's message: the subject first, the body
    only when the subject rendered, then the message to the stripped email.
   */
  function Prepare(b: Batch, row: Row): (r: Result<Message, string>)
    ensures r.Err? ==> r.error != ""
    ensures r.Ok? ==> r.value.from == b.from && r.value.to == Field(b.columns, row, "Email")
  {
    var ctx := Context(b.columns, row);
    var subject := RenderPair(b.subjectTemplate, ctx);
    if subject.1 != "" then Err(subject.1)
    else
      var body := RenderPair(b.bodyTemplate, ctx);
      if body.1 != "" then Err(body.1)
      else Ok(BulkMessage(b.from, Field(b.columns, row, "Email"), subject.0, body.0, b.files))
  }

  /**
    A row prepares exactly when both templates render; the first failure, the
    subject's before the body's, gives the row's error text; a prepared
    message carries the rendered subject and body.
   */
  lemma {:induction false} PrepareCases(b: Batch, row: Row)
    ensures var ctx := Context(b.columns, row); var r := Prepare(b, row);
      && (r.Ok? <==> Render(b.subjectTemplate, ctx).Ok? && Render(b.bodyTemplate, ctx).Ok?)
      && (Render(b.subjectTemplate, ctx).Err? ==> r == Err(ErrorText(Render(b.subjectTemplate, ctx).error)))
      && (Render(b.subjectTemplate, ctx).Ok? && Render(b.bodyTemplate, ctx).Err? ==>
            r == Err(ErrorText(Render(b.bodyTemplate, ctx).error)))
      && (r.Ok? ==> r.value == BulkMessage(b.from, Field(b.columns, row, "Email"),
                                           Render(b.subjectTemplate, ctx).value, Render(b.bodyTemplate, ctx).value, b.files))
  {
  }

  /** A failing subject decides the row whatever the body template is: the body is never rendered. */
  lemma SubjectFailureSkipsBody(b: Batch, row: Row, otherBody: string)
    requires Render(b.subjectTemplate, Context(b.columns, row)).Err?
    ensures Prepare(b, row) == Prepare(b.(bodyTemplate := otherBody), row)
    ensures Prepare(b, row).Err? && Prepare(b, row).error != ""
  {
  }

  /** What row `row` amounts to before anything is submitted. */
  function PlanOf(b: Batch, row: Row): (p: Plan<Message>)
    ensures p.name == Field(b.columns, row, "Name") && p.email == Field(b.columns, row, "Email")
    ensures var ctx := Context(b.columns, row);
      p.prepared.Ok? <==> Render(b.subjectTemplate, ctx).Ok? && Render(b.bodyTemplate, ctx).Ok?
    ensures p.prepared.Ok? ==> p.prepared.value.from == b.from && p.prepared.value.to == p.email
    ensures p.prepared.Err? ==> p.prepared.error != ""
  {
    PrepareCases(b, row);
    Plan(Field(b.columns, row, "Name"), Field(b.columns, row, "Email"), Prepare(b, row))
  }

  /** The result line of one row, given the reply its message would get. */
  function Finish(b: Batch, row: Row, reply: Reply): (r: RowResult)
    ensures r.name == Field(b.columns, row, "Name") && r.email == Field(b.columns, row, "Email")
    ensures r.status == Sent <==> Prepare(b, row).Ok? && reply == Accepted
    ensures r.status == Sent ==> r.message == SentText
    ensures Prepare(b, row).Err? ==> r.message == Prepare(b, row).error
    ensures Prepare(b, row).Ok? && reply.Rejected? ==> r.message == SmtpErrorPrefix + reply.reason
    ensures r.message != ""
  {
    ResultOf(PlanOf(b, row), reply)
  }

  /** How a batch plans each of its rows. */
  function Planner(b: Batch): Row -> Plan<Message>
  {
    row => PlanOf(b, row)
  }

  /** The plans of the rows, in order. */
  function Plans(b: Batch, rows: seq<Row>): (ps: seq<Plan<Message>>)
    ensures |ps| == |rows|
  {
    PlansOf(rows, Planner(b))
  }

  /** The messages submitted for `rows`, in order: one for every row that prepared. */
  function Submissions(b: Batch, rows: seq<Row>): (ms: seq<Message>)
    ensures |ms| <= |rows|
  {
    Submitted(Plans(b, rows))
  }

  /**
    The reference result table of a batch: row by row, each row's message
    getting the reply to the submission number it would have.
   */
  function Results(b: Batch, rows: seq<Row>, reply: nat -> Reply): (rs: seq<RowResult>)
    ensures |rs| == |rows|
  {
    Outcomes(Plans(b, rows), reply)
  }

  /** The result at position `i` is made from row `i` and the reply to that row's own submission number. */
  lemma ResultAt(b: Batch, rows: seq<Row>, reply: nat -> Reply, i: nat)
    requires i < |rows|
    ensures Results(b, rows, reply)[i] == Finish(b, rows[i], reply(|Submissions(b, rows[..i])|))
  {
    var ps := Plans(b, rows);
    OutcomeAt(ps, reply, i);
    PlansOfPrefix(rows, Planner(b), i);
  }

  /** Only rows that prepared are submitted, so there are never more sends than submissions. */
  lemma SentAtMostSubmitted(b: Batch, rows: seq<Row>, reply: nat -> Reply)
    ensures CountSent(Results(b, rows, reply)) <= |Submissions(b, rows)|
  {
    SentWereSubmitted(Plans(b, rows), reply);
  }

  /**
    The rows of a connected batch, one at a time: prepare, submit when
    prepared, record, count, then pause and show progress whatever happened.
   */
  method SendRows(b: Batch, rows: seq<Row>, reply: nat -> Reply)
    returns (sent: nat, failed: nat, results: seq<RowResult>, submitted: seq<Message>,
             pauses: seq<nat>, progress: seq<nat>)
    ensures results == Results(b, rows, reply)
    ensures submitted == Submissions(b, rows)
    ensures sent == CountSent(results) && sent + failed == |rows|
    ensures pauses == Pauses(results)
    ensures progress == ProgressTrail(|rows|, |rows|)
  {
    sent, failed, results, submitted, pauses, progress := Run(rows, Planner(b), reply);
  }

  /**
    The bulk send. Besides the outcome it returns what the session saw: the
    settings connected with, the messages submitted, the pause after every
    row (in tenths of a second), the progress after every row and whether
    quit was attempted.
   */
  method SendBulk(b: Batch, rows: seq<Row>, host: Option<string>, port: Option<int>,
                  login: LoginReply, reply: nat -> Reply)
    returns (outcome: Outcome, settings: Option<Settings>, submitted: seq<Message>,
             pauses: seq<nat>, progress: seq<nat>, quitAttempted: bool)
    ensures |rows| == 0 ==>
      outcome == Returned(0, 0, []) && settings == None && submitted == [] && !quitAttempted
    ensures |rows| > 0 ==> settings == Some(ChooseSettings(b.from, host, port))
    ensures |rows| > 0 && login.LoginFailed? ==>
      outcome == Raised(AuthFailurePrefix + login.reason) && submitted == [] && !quitAttempted
    ensures |rows| > 0 && login.LoggedIn? ==>
      && outcome.Returned?
      && outcome.results == Results(b, rows, reply)
      && submitted == Submissions(b, rows)
      && outcome.sent == CountSent(outcome.results)
      && outcome.sent + outcome.failed == |rows|
      && quitAttempted
    ensures |pauses| == |progress| == (if login.LoggedIn? then |rows| else 0)
    ensures outcome.Returned? ==> pauses == Pauses(outcome.results)
    ensures login.LoggedIn? ==> progress == ProgressTrail(|rows|, |rows|)
  {
    submitted, pauses, progress := [], [], [];
    if |rows| == 0 {
      outcome, settings, quitAttempted := Returned(0, 0, []), None, false;
      return;
    }
    settings := Some(ChooseSettings(b.from, host, port));
    if login.LoginFailed? {
      outcome, quitAttempted := Raised(AuthFailurePrefix + login.reason), false;
      return;
    }
    var sent, failed, results;
    sent, failed, results, submitted, pauses, progress := SendRows(b, rows, reply);
    quitAttempted := true;
    outcome := Returned(sent, failed, results);
  }

  /** The all-time total after a batch: saved as prior + sent only when something was sent. */
  function NewAllTimeTotal(prior: int, sent: nat): (saved: Option<int>)
    ensures saved.Some? <==> sent > 0
    ensures saved.Some? ==> saved.value > prior
  {
    if sent > 0 then Some(prior + sent) else None
  }

  /**
    The total kept on disk after a batch always equals the total the summary
    reports (`prior + sent`): when nothing is saved, nothing was sent.
   */
  lemma {:induction false} StoredTotalMatchesSummary(prior: int, sent: nat)
    ensures var saved := NewAllTimeTotal(prior, sent);
      (if saved.Some? then saved.value else prior) == prior + sent
  {
  }
}
