/**
  The row labels the bulk send reports progress with. Dropping the rows
  without an email keeps the surviving rows' original index labels, so the
  labels of the table that is sent are the positions of a selection, with
  gaps wherever a row was dropped.
 */
module Labels {
  import opened Common
  import opened Text
  import opened Recipients
  import opened ProgressBar

  /** Of three rows with the middle one lacking column 1, the first and the last are kept, at positions 0 and 2. */
  lemma KeepFirstAndLast(rows: seq<Row>)
    requires |rows| == 3 && HasCell(rows[0], 1) && !HasCell(rows[1], 1) && HasCell(rows[2], 1)
    ensures KeepWithCell(rows, 1) == [rows[0], rows[2]]
    ensures IsSelection(rows, 1, [0, 2])
  {
    var z := rows[2];
    assert rows[1..][1..] == [z] && [z][1..] == [];
    assert KeepWithCell([z], 1) == [z];
    assert KeepWithCell(rows[1..], 1) == [z];
    var idx: seq<nat> := [0, 2];
    assert forall i :: 0 <= i < |rows| ==> (HasCell(rows[i], 1) <==> i in idx) by {
      assert idx[0] == 0 && idx[1] == 2;
    }
  }

  /** A table whose header is already `Name, Email` keeps exactly its rows with an email. */
  lemma NormalizeNameEmail(raw: Table)
    requires raw.columns == ["Name", "Email"]
    ensures Normalize(raw) == (Table(raw.columns, KeepWithCell(raw.rows, 1)), "")
  {
    var cols := raw.columns;
    assert StripColumns(cols) == cols && ColumnIndex(cols, "Email") == Some(1) && "Name" in cols by {
      CleanHeader(cols);
      assert cols[0] == "Name";
    }
    NormalizeKnown(raw, cols, 1);
  }

  /**
    Three rows, the middle one without an email: the two kept rows carry the
    labels 0 and 2, and the last of them is reported at 150 percent, a value
    the progress bar does not accept.
   */
  lemma DroppedRowOverflowsProgress(raw: Table)
    requires raw.columns == ["Name", "Email"] && |raw.rows| == 3
    requires HasCell(raw.rows[0], 1) && !HasCell(raw.rows[1], 1) && HasCell(raw.rows[2], 1)
    ensures Normalize(raw).0.rows == [raw.rows[0], raw.rows[2]]
    ensures IsSelection(raw.rows, 1, [0, 2])
    ensures ProgressAsWritten(2, 2) == 150
  {
    KeepFirstAndLast(raw.rows);
    NormalizeNameEmail(raw);
  }
}
