/**
 * The destination worksheet as a grid of text cells, the snapshot of
 * existing time keys read from it, and the header-if-empty upload.
 *
 * Reads behave as the Sheets values API does: trailing blank cells of a
 * column or row are not returned. Appends add rows after the last stored row.
 */
module Sheet {
  import opened Rows
  import opened Dedup

  const Header: seq<string> := ["Time", "Temperature", "Humidity", "Visibility", "WeatherCode", "Fetched_At"]

  function FirstCell(row: seq<string>): string {
    if row == [] then "" else row[0]
  }

  /** A range's cells without its trailing blank cells. */
  function TrimTrailingBlanks(s: seq<string>): (t: seq<string>)
    ensures |t| <= |s| && t == s[..|t|]
    ensures forall i :: |t| <= i < |s| ==> s[i] == ""
    ensures t == [] || t[|t| - 1] != ""
  {
    if s == [] then []
    else if s[|s| - 1] == "" then TrimTrailingBlanks(s[..|s| - 1])
    else s
  }

  /** The first cell of every stored row, blank for an empty row. */
  function FirstCells(cells: seq<seq<string>>): (col: seq<string>)
    ensures |col| == |cells|
    ensures forall i :: 0 <= i < |cells| ==> col[i] == FirstCell(cells[i])
  {
    seq(|cells|, i requires 0 <= i < |cells| => FirstCell(cells[i]))
  }

  /** What a read of column 1 returns. */
  function ColumnOne(cells: seq<seq<string>>): seq<string> {
    TrimTrailingBlanks(FirstCells(cells))
  }

  /** What a read of row 1 returns. */
  function RowOne(cells: seq<seq<string>>): seq<string> {
    if cells == [] then [] else TrimTrailingBlanks(cells[0])
  }

  /** The start-of-run snapshot: the values of column 1 below its first cell. */
  function ExistingTimes(cells: seq<seq<string>>): set<string> {
    var col := ColumnOne(cells);
    set i | 1 <= i < |col| :: col[i]
  }

  /** A header goes in when the sheet has no rows or its first row reads back empty. */
  predicate NeedsHeader(cells: seq<seq<string>>) {
    |cells| == 0 || |RowOne(cells)| == 0
  }

  /** The sheet after uploading rows: nothing for no rows, else header-if-needed then the rows. */
  function Uploaded(cells: seq<seq<string>>, rows: seq<Row>): seq<seq<string>> {
    if rows == [] then cells
    else (if NeedsHeader(cells) then cells + [Header] else cells) + rows
  }

  class Worksheet {
    var cells: seq<seq<string>>

    constructor (initial: seq<seq<string>>)
      ensures cells == initial
    {
      cells := initial;
    }

    /** The number of stored rows; zero exactly for a sheet with no rows. */
    function RowCount(): (n: nat)
      reads this
      ensures n == |cells|
      ensures n == 0 <==> cells == []
    {
      |cells|
    }

    /** Row 1 as read back: its cells up to the last non-blank one. */
    function RowValues1(): (r: seq<string>)
      reads this
      ensures cells == [] ==> r == []
      ensures cells != [] ==> |r| <= |cells[0]| && r == cells[0][..|r|]
                              && forall i :: |r| <= i < |cells[0]| ==> cells[0][i] == ""
      ensures r == [] || r[|r| - 1] != ""
    {
      RowOne(cells)
    }

    /** Column 1 as read back: every row's first cell, up to the last non-blank one. */
    function ColValues1(): (col: seq<string>)
      reads this
      ensures |col| <= |cells|
      ensures forall i :: 0 <= i < |col| ==> col[i] == FirstCell(cells[i])
      ensures forall i :: |col| <= i < |cells| ==> FirstCell(cells[i]) == ""
      ensures col == [] || col[|col| - 1] != ""
    {
      ColumnOne(cells)
    }

    method AppendRow(row: seq<string>)
      modifies this
      ensures cells == old(cells) + [row]
    {
      cells := cells + [row];
    }

    method AppendRows(rows: seq<seq<string>>)
      modifies this
      ensures cells == old(cells) + rows
    {
      cells := cells + rows;
    }
  }

  /** The snapshot of keys a run starts from. */
  method SnapshotKeys(sheet: Worksheet) returns (snapshot: set<string>)
    ensures snapshot == ExistingTimes(sheet.cells)
  {
    var col := sheet.ColValues1();
    snapshot := if |col| == 0 then {} else set i | 1 <= i < |col| :: col[i];
  }

  /** Appends the header when the sheet needs one, then the rows; does nothing for no rows. */
  method Upload(sheet: Worksheet, rowsToAdd: seq<Row>)
    modifies sheet
    ensures sheet.cells == Uploaded(old(sheet.cells), rowsToAdd)
  {
    if rowsToAdd != [] {
      if sheet.RowCount() == 0 || |sheet.RowValues1()| == 0 {
        sheet.AppendRow(Header);
      }
      sheet.AppendRows(rowsToAdd);
    }
  }

  // ---------------------------------------------------------------------
  // Lemmas

  /** The snapshot is empty exactly when no row below the first has a non-blank first cell. */
  lemma SnapshotEmptyIff(cells: seq<seq<string>>)
    ensures ExistingTimes(cells) == {} <==> forall i :: 1 <= i < |cells| ==> FirstCell(cells[i]) == ""
  {
    var raw := FirstCells(cells);
    var col := ColumnOne(cells);
    if i :| 1 <= i < |cells| && FirstCell(cells[i]) != "" {
      assert raw[i] != "";
      assert col[i] in ExistingTimes(cells);
    }
  }

  /** A non-blank key is in the snapshot exactly when some row below the first starts with it. */
  lemma SnapshotMembers(cells: seq<seq<string>>, k: string)
    requires k != ""
    ensures k in ExistingTimes(cells) <==> exists i :: 1 <= i < |cells| && FirstCell(cells[i]) == k
  {
    var raw := FirstCells(cells);
    var col := ColumnOne(cells);
    if i :| 1 <= i < |cells| && FirstCell(cells[i]) == k {
      assert raw[i] == k;
      assert i < |col| && col[i] == k;
    }
    if k in ExistingTimes(cells) {
      var i :| 1 <= i < |col| && col[i] == k;
      assert raw[i] == k;
    }
  }

  /**
   * An upload keeps every stored row in place and adds exactly the given
   * rows at the end, preceded by one header when the sheet needs one.
   */
  lemma UploadShape(cells: seq<seq<string>>, rows: seq<Row>)
    ensures var up := Uploaded(cells, rows);
      && |up| == |cells| + |rows| + (if rows != [] && NeedsHeader(cells) then 1 else 0)
      && up[..|cells|] == cells
      && up[|up| - |rows|..] == rows
      && (rows != [] && NeedsHeader(cells) ==> up[|cells|] == Header)
  {
  }

  /** A sheet whose first row reads back non-empty never receives a header. */
  lemma FilledFirstRowGetsNoHeader(cells: seq<seq<string>>, rows: seq<Row>)
    requires cells != [] && RowOne(cells) != []
    ensures Uploaded(cells, rows) == cells + rows
  {
  }

  /**
   * Header-once: after an upload of some rows into an empty sheet or one
   * with a filled first row, a later upload appends only its rows.
   */
  lemma HeaderOnce(cells: seq<seq<string>>, first: seq<Row>, second: seq<Row>)
    requires first != []
    requires cells == [] || RowOne(cells) != []
    ensures Uploaded(Uploaded(cells, first), second) == Uploaded(cells, first) + second
  {
    var up := Uploaded(cells, first);
    if cells == [] {
      assert up[0] == Header;
      assert RowOne(up) == Header;
    } else {
      assert up[0] == cells[0];
    }
  }

  /**
   * A blank first row above stored rows is never filled: the header is
   * appended after the stored rows, so every upload appends another one.
   */
  lemma HeaderRepeatsBelowBlankFirstRow(cells: seq<seq<string>>, first: seq<Row>, second: seq<Row>)
    requires cells != [] && RowOne(cells) == []
    requires first != [] && second != []
    ensures Uploaded(Uploaded(cells, first), second) == cells + [Header] + first + [Header] + second
  {
    var up := Uploaded(cells, first);
    assert up[0] == cells[0];
  }

  /**
   * After an upload the snapshot still holds every key it held and also
   * the key of every uploaded row.
   */
  lemma SnapshotAfterUpload(cells: seq<seq<string>>, rows: seq<Row>)
    requires forall r :: r in rows ==> Key(r) != ""
    ensures ExistingTimes(cells) <= ExistingTimes(Uploaded(cells, rows))
    ensures Keys(rows) <= ExistingTimes(Uploaded(cells, rows))
  {
    if rows != [] {
      var pre := if NeedsHeader(cells) then cells + [Header] else cells;
      var up := pre + rows;
      assert Uploaded(cells, rows) == up;
      assert FirstCells(up)[|up| - 1] == Key(rows[|rows| - 1]);
      TrimKeepsNonBlankEnd(FirstCells(up));
      SnapshotKeepsStoredKeys(cells, pre, up);
      SnapshotGainsRowKeys(pre, rows, up);
    }
  }

  /** Appending below stored rows, when column 1 then reads back whole, keeps every snapshot key. */
  lemma SnapshotKeepsStoredKeys(cells: seq<seq<string>>, pre: seq<seq<string>>, up: seq<seq<string>>)
    requires |cells| <= |pre| <= |up| && pre[..|cells|] == cells && up[..|pre|] == pre
    requires ColumnOne(up) == FirstCells(up)
    ensures ExistingTimes(cells) <= ExistingTimes(up)
  {
    forall k | k in ExistingTimes(cells) ensures k in ExistingTimes(up) {
      var col := ColumnOne(cells);
      var i :| 1 <= i < |col| && col[i] == k;
      assert FirstCells(cells)[i] == k;
      assert up[i] == cells[i];
      assert FirstCells(up)[i] == k;
    }
  }

  /** When column 1 reads back whole after the append, every appended key is in the snapshot. */
  lemma SnapshotGainsRowKeys(pre: seq<seq<string>>, rows: seq<Row>, up: seq<seq<string>>)
    requires |pre| >= 1 && up == pre + rows
    requires ColumnOne(up) == FirstCells(up)
    ensures Keys(rows) <= ExistingTimes(up)
  {
    forall k | k in Keys(rows) ensures k in ExistingTimes(up) {
      var j :| 0 <= j < |rows| && Key(rows[j]) == k;
      assert up[|pre| + j] == rows[j];
      assert FirstCells(up)[|pre| + j] == k;
    }
  }

  lemma TrimKeepsNonBlankEnd(s: seq<string>)
    requires s != [] && s[|s| - 1] != ""
    ensures TrimTrailingBlanks(s) == s
  {
  }
}
