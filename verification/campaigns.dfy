/**
  The campaign panel of the diagnostics page: for every stored campaign, how
  many recipients are done with their follow-ups and how many are due for
  the next one now.

  A recipient is done once the follow-ups sent reach the campaign's planned
  number; only a recipient that is not done is due, and only when its next
  follow-up date has come. The date of a recipient that is not done is read
  and parsed, so a missing or malformed date there is an error that ends the
  listing; the date of a done recipient is never looked at. Dates are modelled
  as comparable instants, already parsed.
 */
module Campaigns {
  import opened Common

  /** The stored next follow-up date: absent, not in ISO format, or a parsed instant. */
  datatype Stamp = NoDate | BadDate | At(time: int)

  /** A stored recipient; `followupsSent` is absent when the key is missing. */
  datatype Recipient = Recipient(followupsSent: Option<int>, next: Stamp)

  /** A stored campaign; `planned` is absent when the key is missing. */
  datatype Campaign = Campaign(name: string, planned: Option<int>, recipients: seq<Recipient>)

  /** Why reading a date failed: the key is missing, or its text is not an ISO date. */
  datatype ReadError = MissingDate | MalformedDate

  /** One line of the panel. */
  datatype Line = Line(name: string, recipients: nat, done: nat, due: nat)

  /** What the panel shows: a note that there are no campaigns, or the lines it got through and the error that stopped it, if any. */
  datatype Panel = NoCampaigns | Listing(lines: seq<Line>, error: Option<ReadError>)

  const DefaultPlanned := 5
  const DueColor := "#8B1A1A"
  const IdleColor := "#666"

  /** `r.get("followups_sent", 0)`. */
  function SentOf(r: Recipient): int
  {
    if r.followupsSent.Some? then r.followupsSent.value else 0
  }

  /** `cdata.get("total_followups_planned", 5)`. */
  function PlannedOf(c: Campaign): int
  {
    if c.planned.Some? then c.planned.value else DefaultPlanned
  }

  predicate IsDone(r: Recipient, planned: int)
  {
    SentOf(r) >= planned
  }

  /** Due: not done, and a next date that has come. */
  predicate IsDue(r: Recipient, planned: int, now: int)
  {
    !IsDone(r, planned) && r.next.At? && r.next.time <= now
  }

  /** The recipient's date is read, and it cannot be: it is not done and its date is absent or malformed. */
  predicate Unreadable(r: Recipient, planned: int)
  {
    !IsDone(r, planned) && !r.next.At?
  }

  /** How many recipients are done: none exactly when no one is done, all exactly when everyone is. */
  function DoneCount(rs: seq<Recipient>, planned: int): (n: nat)
    ensures n <= |rs|
    ensures n == 0 <==> forall i :: 0 <= i < |rs| ==> !IsDone(rs[i], planned)
    ensures n == |rs| <==> forall i :: 0 <= i < |rs| ==> IsDone(rs[i], planned)
  {
    if |rs| == 0 then 0
    else
      assert forall i :: 1 <= i < |rs| ==> rs[i] == rs[1..][i - 1];
      (if IsDone(rs[0], planned) then 1 else 0) + DoneCount(rs[1..], planned)
  }

  /** The reference count of due recipients, with nothing read that cannot be: none exactly when no one is due, all exactly when everyone is. */
  function DueCount(rs: seq<Recipient>, planned: int, now: int): (n: nat)
    ensures n <= |rs|
    ensures n == 0 <==> forall i :: 0 <= i < |rs| ==> !IsDue(rs[i], planned, now)
    ensures n == |rs| <==> forall i :: 0 <= i < |rs| ==> IsDue(rs[i], planned, now)
  {
    if |rs| == 0 then 0
    else
      assert forall i :: 1 <= i < |rs| ==> rs[i] == rs[1..][i - 1];
      (if IsDue(rs[0], planned, now) then 1 else 0) + DueCount(rs[1..], planned, now)
  }

  /**
    The panel's due count as it evaluates: recipients in order, the date read
    only for a recipient that is not done, the first unreadable date ending
    the count with its error.
   */
  function DueScan(rs: seq<Recipient>, planned: int, now: int): (r: Result<nat, ReadError>)
    ensures r.Ok? ==> r.value <= |rs|
    ensures r.Err? ==> exists i :: 0 <= i < |rs| && Unreadable(rs[i], planned)
    ensures r.Err? ==> exists i :: FirstUnreadableAt(rs, planned, i) && r.error == ReadErrorOf(rs[i])
  {
    if |rs| == 0 then Ok(0)
    else
      var head := rs[0];
      var here: Result<nat, ReadError> :=
        if IsDone(head, planned) then Ok(0)
        else match head.next
          case NoDate => Err(MissingDate)
          case BadDate => Err(MalformedDate)
          case At(t) => Ok(if t <= now then 1 else 0);
      if here.Err? then Err(here.error)
      else
        var rest := DueScan(rs[1..], planned, now);
        if rest.Err? then
          assert exists i :: 0 <= i < |rs| && Unreadable(rs[i], planned) by {
            var i :| 0 <= i < |rs[1..]| && Unreadable(rs[1..][i], planned);
            assert rs[i + 1] == rs[1..][i];
          }
          assert exists i :: FirstUnreadableAt(rs, planned, i) && rest.error == ReadErrorOf(rs[i]) by {
            var i :| FirstUnreadableAt(rs[1..], planned, i) && rest.error == ReadErrorOf(rs[1..][i]);
            FirstUnreadableShift(rs, planned, i);
          }
          Err(rest.error)
        else Ok(here.value + rest.value)
  }

  /** Recipient `i` is the first whose date is read and cannot be. */
  predicate FirstUnreadableAt(rs: seq<Recipient>, planned: int, i: int)
  {
    0 <= i < |rs| && Unreadable(rs[i], planned) && forall j :: 0 <= j < i ==> !Unreadable(rs[j], planned)
  }

  /** The error reading an unreadable date raises: the key is missing, or the text is not an ISO date. */
  function ReadErrorOf(r: Recipient): ReadError
  {
    if r.next.NoDate? then MissingDate else MalformedDate
  }

  /** Behind a readable first recipient, the first unreadable one of the rest is the first of all. */
  lemma FirstUnreadableShift(rs: seq<Recipient>, planned: int, i: nat)
    requires |rs| > 0 && !Unreadable(rs[0], planned) && FirstUnreadableAt(rs[1..], planned, i)
    ensures FirstUnreadableAt(rs, planned, i + 1) && rs[i + 1] == rs[1..][i]
  {
    forall j | 0 <= j < i + 1
      ensures !Unreadable(rs[j], planned)
    {
      if j > 0 { assert rs[j] == rs[1..][j - 1]; }
    }
  }

  /** The scan succeeds exactly when every recipient that is not done has a readable date, and then it counts the due ones. */
  lemma {:induction false} DueScanAgrees(rs: seq<Recipient>, planned: int, now: int)
    ensures DueScan(rs, planned, now).Ok? <==> forall i :: 0 <= i < |rs| ==> !Unreadable(rs[i], planned)
    ensures DueScan(rs, planned, now).Ok? ==> DueScan(rs, planned, now).value == DueCount(rs, planned, now)
    decreases |rs|
  {
    if |rs| > 0 {
      DueScanAgrees(rs[1..], planned, now);
      assert forall i :: 1 <= i < |rs| ==> rs[i] == rs[1..][i - 1];
    }
  }

  /** A done recipient is never due, and never has its date read. */
  lemma DoneIsNeverDue(r: Recipient, planned: int, now: int)
    requires IsDone(r, planned)
    ensures !IsDue(r, planned, now) && !Unreadable(r, planned)
  {
  }

  /** Done and due are disjoint, so together they never exceed the recipients. */
  lemma {:induction false} DoneAndDueFit(rs: seq<Recipient>, planned: int, now: int)
    ensures DoneCount(rs, planned) + DueCount(rs, planned, now) <= |rs|
    decreases |rs|
  {
    if |rs| > 0 {
      DoneAndDueFit(rs[1..], planned, now);
    }
  }

  /** The due count's colour: the alert colour exactly when something is due. */
  function ColorOf(due: nat): (c: string)
    ensures c == DueColor <==> due > 0
  {
    if due > 0 then DueColor else IdleColor
  }

  /** Every date of the campaign that gets read can be read. */
  predicate Readable(c: Campaign, now: int)
  {
    DueScan(c.recipients, PlannedOf(c), now).Ok?
  }

  /**
    The panel over the stored campaigns, in stored order: one line per
    campaign up to the first one with an unreadable date, whose error ends
    the listing; no error exactly when every campaign is readable.
   */
  function Summarize(db: seq<Campaign>, now: int): (p: Panel)
    ensures p.NoCampaigns? <==> |db| == 0
    ensures p.Listing? ==> |p.lines| <= |db|
    ensures p.Listing? && p.error.None? ==> |p.lines| == |db|
    ensures p.Listing? ==> (p.error.None? <==> forall j :: 0 <= j < |db| ==> Readable(db[j], now))
    ensures p.Listing? ==> forall k :: 0 <= k < |p.lines| ==> Readable(db[k], now)
    ensures p.Listing? && p.error.Some? ==>
      |p.lines| < |db| && DueScan(db[|p.lines|].recipients, PlannedOf(db[|p.lines|]), now) == Err(p.error.value)
  {
    if |db| == 0 then NoCampaigns else Listing(Lines(db, now).0, Lines(db, now).1)
  }

  /** The lines of the campaigns up to the first read error, and that error. */
  function Lines(db: seq<Campaign>, now: int): (r: (seq<Line>, Option<ReadError>))
    ensures |r.0| <= |db|
    ensures r.1.None? ==> |r.0| == |db|
    ensures forall k :: 0 <= k < |r.0| ==> r.0[k].name == db[k].name && r.0[k].recipients == |db[k].recipients|
    ensures forall k :: 0 <= k < |r.0| ==> Readable(db[k], now)
    ensures r.1.Some? ==> |r.0| < |db| && DueScan(db[|r.0|].recipients, PlannedOf(db[|r.0|]), now) == Err(r.1.value)
    ensures r.1.None? <==> forall j :: 0 <= j < |db| ==> Readable(db[j], now)
  {
    if |db| == 0 then ([], None)
    else
      var c := db[0];
      var planned := PlannedOf(c);
      match DueScan(c.recipients, planned, now)
      case Err(e) => ([], Some(e))
      case Ok(due) =>
        var rest := Lines(db[1..], now);
        assert forall j :: 1 <= j < |db| ==> db[j] == db[1..][j - 1];
        ([Line(c.name, |c.recipients|, DoneCount(c.recipients, planned), due)] + rest.0, rest.1)
  }

  /** Every line shown is consistent: done and due are the reference counts and fit within the recipients. */
  lemma {:induction false} LinesAreCounts(db: seq<Campaign>, now: int, k: nat)
    requires k < |Lines(db, now).0|
    ensures var l := Lines(db, now).0[k]; var c := db[k];
      && l.done == DoneCount(c.recipients, PlannedOf(c))
      && l.due == DueCount(c.recipients, PlannedOf(c), now)
      && l.done + l.due <= l.recipients
    decreases |db|
  {
    var c := db[0];
    DueScanAgrees(c.recipients, PlannedOf(c), now);
    DoneAndDueFit(c.recipients, PlannedOf(c), now);
    if k > 0 {
      LinesAreCounts(db[1..], now, k - 1);
    }
  }

  /** Bob has had all five follow-ups: he is done and not due, and his missing date is never read. */
  lemma BobIsDone()
    ensures var bob := Recipient(Some(5), NoDate); var c := Campaign("Launch", None, [bob]);
      && IsDone(bob, PlannedOf(c))
      && !IsDue(bob, PlannedOf(c), 0)
      && Summarize([c], 0) == Listing([Line("Launch", 1, 1, 0)], None)
  {
  }

  /** A recipient short of the plan with no stored date stops the listing with a missing-date error. */
  lemma MissingDateStops()
    ensures var ann := Recipient(Some(1), NoDate); var c := Campaign("Launch", Some(3), [ann]);
      Summarize([c, c], 0) == Listing([], Some(MissingDate))
  {
  }
}
