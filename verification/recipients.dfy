/**
  The recipient table after it has been read from the uploaded file: column
  names are stripped, the `Name` and `Email` columns are required, and rows
  without an email are dropped, keeping the remaining rows in their order.
 */
module Recipients {
  import opened Common
  import opened Text

  /** A cell: missing (an empty cell, read as NaN) or present, holding `str(value)`. */
  datatype Value = Missing | Present(text: string)

  /** A row holds one cell per column, by position. */
  type Row = seq<Value>

  datatype Table = Table(columns: seq<string>, rows: seq<Row>)

  const RequiredColumnsMessage := "File must contain 'Name' and 'Email' columns."

  /** The cell of `row` in column position `i`; a short row reads as missing there. */
  function CellAt(row: Row, i: nat): Value
  {
    if i < |row| then row[i] else Missing
  }

  /** The position of the first column called `name`. */
  function ColumnIndex(columns: seq<string>, name: string): (r: Option<nat>)
    ensures r.Some? <==> name in columns
    ensures r.Some? ==> r.value < |columns| && columns[r.value] == name
    ensures r.Some? ==> forall k :: 0 <= k < r.value ==> columns[k] != name
  {
    if |columns| == 0 then None
    else if columns[0] == name then Some(0)
    else
      match ColumnIndex(columns[1..], name)
      case None => None
      case Some(k) => Some(k + 1)
  }

  /** Every column name with surrounding whitespace removed. */
  function StripColumns(columns: seq<string>): (r: seq<string>)
    ensures |r| == |columns|
    ensures forall i :: 0 <= i < |r| ==> r[i] == Strip(columns[i])
  {
    seq(|columns|, i requires 0 <= i < |columns| => Strip(columns[i]))
  }

  /** The row has a present cell in column position `j`. */
  predicate HasCell(row: Row, j: nat)
  {
    CellAt(row, j).Present?
  }

  /** The rows that have a present cell in column position `j`, in their original order. */
  function KeepWithCell(rows: seq<Row>, j: nat): (r: seq<Row>)
    ensures |r| <= |rows|
    ensures forall k :: 0 <= k < |r| ==> HasCell(r[k], j)
    ensures forall k :: 0 <= k < |r| ==> r[k] in rows
  {
    if |rows| == 0 then []
    else if HasCell(rows[0], j) then [rows[0]] + KeepWithCell(rows[1..], j)
    else KeepWithCell(rows[1..], j)
  }

  /**
    The post-parse part of `load_recipients_file`: the normalised table and
    an empty error, or an empty table and the required-columns error.
   */
  function Normalize(raw: Table): (r: (Table, string))
    ensures var cols := StripColumns(raw.columns);
      r.1 == "" <==> "Name" in cols && "Email" in cols
    ensures r.1 != "" ==> r.1 == RequiredColumnsMessage && r.0 == Table([], [])
    ensures r.1 == "" ==> r.0.columns == StripColumns(raw.columns) && |r.0.rows| <= |raw.rows|
    ensures r.1 == "" ==> r.0.rows == KeepWithCell(raw.rows, ColumnIndex(StripColumns(raw.columns), "Email").value)
  {
    var cols := StripColumns(raw.columns);
    if "Name" in cols && "Email" in cols then
      var j := ColumnIndex(cols, "Email").value;
      (Table(cols, KeepWithCell(raw.rows, j)), "")
    else (Table([], []), RequiredColumnsMessage)
  }

  /** Every row of a normalised table has an email. */
  lemma {:induction false} NormalizedRowsHaveEmail(raw: Table)
    requires Normalize(raw).1 == ""
    ensures var t := Normalize(raw).0;
      forall k :: 0 <= k < |t.rows| ==> CellAt(t.rows[k], ColumnIndex(t.columns, "Email").value).Present?
  {
  }

  /** Shifting every position of a selection by one. */
  function Shift(idx: seq<nat>): (r: seq<nat>)
    ensures |r| == |idx|
    ensures forall k :: 0 <= k < |idx| ==> r[k] == idx[k] + 1
  {
    seq(|idx|, k requires 0 <= k < |idx| => idx[k] + 1)
  }

  lemma InShift(idx: seq<nat>, i: nat)
    ensures i + 1 in Shift(idx) <==> i in idx
    ensures 0 !in Shift(idx)
  {
    if i in idx {
      var k :| 0 <= k < |idx| && idx[k] == i;
      assert Shift(idx)[k] == i + 1;
    }
  }

  /**
    `idx` lists, in strictly increasing order, exactly the positions of the
    rows with a present cell in column `j`, and the kept rows are those rows.
   */
  ghost predicate IsSelection(rows: seq<Row>, j: nat, idx: seq<nat>)
  {
    && |idx| == |KeepWithCell(rows, j)|
    && (forall k :: 0 <= k < |idx| ==> idx[k] < |rows| && KeepWithCell(rows, j)[k] == rows[idx[k]])
    && (forall a, b :: 0 <= a < b < |idx| ==> idx[a] < idx[b])
    && (forall i :: 0 <= i < |rows| ==> (HasCell(rows[i], j) <==> i in idx))
  }

  /** The positions a selection of `rows` has, given a selection `rest` of its tail. */
  function StepIndex(rows: seq<Row>, j: nat, rest: seq<nat>): seq<nat>
    requires |rows| > 0
  {
    (if HasCell(rows[0], j) then [0] else []) + Shift(rest)
  }

  lemma StepContents(rows: seq<Row>, j: nat, rest: seq<nat>)
    requires |rows| > 0 && |rest| == |KeepWithCell(rows[1..], j)|
    requires forall k :: 0 <= k < |rest| ==> rest[k] < |rows| - 1 && KeepWithCell(rows[1..], j)[k] == rows[1..][rest[k]]
    ensures var idx := StepIndex(rows, j, rest);
      && |idx| == |KeepWithCell(rows, j)|
      && forall k :: 0 <= k < |idx| ==> idx[k] < |rows| && KeepWithCell(rows, j)[k] == rows[idx[k]]
  {
    var idx := StepIndex(rows, j, rest);
    var tail := rows[1..];
    var keep := KeepWithCell(rows, j);
    var keepTail := KeepWithCell(tail, j);
    var h := if HasCell(rows[0], j) then 1 else 0;
    assert keep == (if HasCell(rows[0], j) then [rows[0]] else []) + keepTail;
    forall k | 0 <= k < |idx|
      ensures idx[k] < |rows| && keep[k] == rows[idx[k]]
    {
      if k >= h {
        var m := k - h;
        assert idx[k] == rest[m] + 1;
        assert keep[k] == keepTail[m];
        assert tail[rest[m]] == rows[rest[m] + 1];
      }
    }
  }

  lemma StepOrder(rows: seq<Row>, j: nat, rest: seq<nat>)
    requires |rows| > 0 && forall a, b :: 0 <= a < b < |rest| ==> rest[a] < rest[b]
    ensures var idx := StepIndex(rows, j, rest);
      forall a, b :: 0 <= a < b < |idx| ==> idx[a] < idx[b]
  {
    var idx := StepIndex(rows, j, rest);
    var h := if HasCell(rows[0], j) then 1 else 0;
    forall a, b | 0 <= a < b < |idx|
      ensures idx[a] < idx[b]
    {
      if a >= h {
        assert idx[a] == rest[a - h] + 1 && idx[b] == rest[b - h] + 1;
      } else {
        assert idx[b] == rest[b - h] + 1;
      }
    }
  }

  lemma StepMembers(rows: seq<Row>, j: nat, rest: seq<nat>)
    requires |rows| > 0 && forall i :: 0 <= i < |rows| - 1 ==> (HasCell(rows[1..][i], j) <==> i in rest)
    ensures var idx := StepIndex(rows, j, rest);
      forall i :: 0 <= i < |rows| ==> (HasCell(rows[i], j) <==> i in idx)
  {
    var idx := StepIndex(rows, j, rest);
    var tail := rows[1..];
    forall i | 0 <= i < |rows|
      ensures HasCell(rows[i], j) <==> i in idx
    {
      InShift(rest, if i == 0 then 0 else i - 1);
      if i > 0 {
        assert rows[i] == tail[i - 1];
      }
    }
  }

  /**
    Dropping is a filter and nothing else: the kept rows are exactly the rows
    with a present cell, picked at strictly increasing positions.
   */
  lemma {:induction false} KeepIsOrderedSelection(rows: seq<Row>, j: nat) returns (idx: seq<nat>)
    ensures IsSelection(rows, j, idx)
    decreases |rows|
  {
    if |rows| == 0 {
      idx := [];
    } else {
      var rest := KeepIsOrderedSelection(rows[1..], j);
      idx := StepIndex(rows, j, rest);
      StepContents(rows, j, rest);
      StepOrder(rows, j, rest);
      StepMembers(rows, j, rest);
    }
  }

  lemma TrimStartExample()
    ensures TrimStart(" Name ") == "Name "
  {
    assert IsSpace(" Name "[0]);
    assert " Name "[1..] == "Name ";
    assert !IsSpace("Name "[0]);
  }

  lemma TrimEndExample()
    ensures TrimEnd("Name ") == "Name"
  {
    assert "Name "[..4] == "Name";
  }

  lemma StripNameExample()
    ensures Strip(" Name ") == "Name"
  {
    TrimStartExample();
    TrimEndExample();
  }

  lemma StripEmailExample()
    ensures Strip("Email") == "Email"
  {
    var e := "Email";
    assert !IsSpace(e[0]) && !IsSpace(e[4]);
    StripKeepsTrimmed(e);
  }

  /** A two-element sequence is determined by its two elements. */
  lemma PairOf<T>(r: seq<T>, x: T, y: T)
    requires |r| == 2 && r[0] == x && r[1] == y
    ensures r == [x, y]
  {
  }

  lemma StripPair(a: string, b: string)
    ensures StripColumns([a, b]) == [Strip(a), Strip(b)]
  {
    PairOf(StripColumns([a, b]), Strip(a), Strip(b));
  }

  lemma StripPairTo(a: string, b: string, x: string, y: string)
    requires Strip(a) == x && Strip(b) == y
    ensures StripColumns([a, b]) == [x, y]
  {
    StripPair(a, b);
  }

  /**
    A normalised table holds exactly the rows that have an email, in their
    order: row k of the result is the input row at position `idx[k]`, the
    positions increase, and an input row is picked exactly when its email
    cell is present.
   */
  lemma NormalizeSelectsEmailRows(raw: Table) returns (idx: seq<nat>)
    requires Normalize(raw).1 == ""
    ensures var j := ColumnIndex(StripColumns(raw.columns), "Email").value;
      var kept := Normalize(raw).0.rows;
      && |idx| == |kept|
      && (forall k :: 0 <= k < |idx| ==> idx[k] < |raw.rows| && kept[k] == raw.rows[idx[k]])
      && (forall a, b :: 0 <= a < b < |idx| ==> idx[a] < idx[b])
      && (forall i :: 0 <= i < |raw.rows| ==> (HasCell(raw.rows[i], j) <==> i in idx))
  {
    var j := ColumnIndex(StripColumns(raw.columns), "Email").value;
    idx := KeepIsOrderedSelection(raw.rows, j);
  }

  /** The header `Name, Email` is already stripped, and the email is its second column. */
  lemma CleanHeader(cols: seq<string>)
    requires cols == ["Name", "Email"]
    ensures StripColumns(cols) == cols && ColumnIndex(cols, "Email") == Some(1)
  {
    var name, email := cols[0], cols[1];
    assert !IsSpace(name[0]) && !IsSpace(name[3]);
    StripKeepsTrimmed(name);
    StripEmailExample();
    StripPairTo(name, email, name, email);
    assert cols == [name, email];
  }

  /** Normalising once the stripped columns and the email position are known. */
  lemma NormalizeKnown(raw: Table, cols: seq<string>, j: nat)
    requires StripColumns(raw.columns) == cols && "Name" in cols && ColumnIndex(cols, "Email") == Some(j)
    ensures Normalize(raw) == (Table(cols, KeepWithCell(raw.rows, j)), "")
  {
  }

  lemma KeepExample(alice: Row, bob: Row)
    requires HasCell(alice, 1) && !HasCell(bob, 1)
    ensures KeepWithCell([alice, bob], 1) == [alice]
  {
    assert [alice, bob][1..] == [bob];
    assert [bob][1..] == [];
  }

  /** A clean `Name, Email` header over one row with an email and one without keeps the first row only. */
  lemma DropSecond(raw: Table, alice: Row, bob: Row)
    requires StripColumns(raw.columns) == ["Name", "Email"] && raw.rows == [alice, bob]
    requires HasCell(alice, 1) && !HasCell(bob, 1)
    ensures Normalize(raw) == (Table(["Name", "Email"], [alice]), "")
  {
    var stripped: seq<string> := ["Name", "Email"];
    assert "Name" in stripped && ColumnIndex(stripped, "Email") == Some(1) by {
      assert stripped[0] == "Name" && stripped[1] == "Email";
    }
    KeepExample(alice, bob);
    NormalizeKnown(raw, stripped, 1);
  }

  /** The example rows: a row whose Email cell is empty is dropped before anything else happens. */
  lemma DropExample(raw: Table)
    requires raw == Table([" Name ", "Email"], [[Present("Alice"), Present("alice@x.com")], [Present("Bob"), Missing]])
    ensures Normalize(raw) == (Table(["Name", "Email"], [[Present("Alice"), Present("alice@x.com")]]), "")
  {
    assert StripColumns(raw.columns) == ["Name", "Email"] by {
      StripNameExample();
      StripEmailExample();
      StripPairTo(" Name ", "Email", "Name", "Email");
    }
    var alice, bob := raw.rows[0], raw.rows[1];
    assert raw.rows == [alice, bob];
    DropSecond(raw, alice, bob);
  }
}
