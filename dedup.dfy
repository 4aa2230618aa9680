/**
 * The dedup filter of a run: a row is kept when its time key is not in
 * the snapshot of keys taken from the sheet at the start of the run.
 * The snapshot is never extended while filtering, so rows are not
 * deduplicated against one another.
 */
module Dedup {
  import opened Rows

  /** The keys of a list of rows. */
  function Keys(rows: seq<Row>): set<string> {
    set r | r in rows :: Key(r)
  }

  /** The rows whose key is not in snapshot, in their original order. */
  function Keep(rows: seq<Row>, snapshot: set<string>): (kept: seq<Row>)
    ensures |kept| <= |rows|
  {
    if rows == [] then []
    else (if Key(rows[0]) in snapshot then [] else [rows[0]]) + Keep(rows[1..], snapshot)
  }

  /** The kept rows are exactly the rows whose key is not in the snapshot. */
  lemma {:induction false} KeepMembers(rows: seq<Row>, snapshot: set<string>)
    ensures forall r :: r in Keep(rows, snapshot) <==> r in rows && Key(r) !in snapshot
  {
    if rows != [] {
      KeepMembers(rows[1..], snapshot);
      assert rows == [rows[0]] + rows[1..];
    }
  }

  /** Filtering distributes over concatenation, so the filter preserves order. */
  lemma {:induction false} KeepAppend(a: seq<Row>, b: seq<Row>, snapshot: set<string>)
    ensures Keep(a + b, snapshot) == Keep(a, snapshot) + Keep(b, snapshot)
  {
    if a == [] {
      assert a + b == b;
    } else {
      var head := if Key(a[0]) in snapshot then [] else [a[0]];
      assert (a + b)[0] == a[0] && (a + b)[1..] == a[1..] + b;
      KeepAppend(a[1..], b, snapshot);
      calc {
        Keep(a + b, snapshot);
        head + Keep(a[1..] + b, snapshot);
        head + (Keep(a[1..], snapshot) + Keep(b, snapshot));
        (head + Keep(a[1..], snapshot)) + Keep(b, snapshot);
        Keep(a, snapshot) + Keep(b, snapshot);
      }
    }
  }

  /**
   * When no key is in the snapshot every row is kept, duplicates among
   * the rows included.
   */
  lemma {:induction false} KeepAllFresh(rows: seq<Row>, snapshot: set<string>)
    requires forall r :: r in rows ==> Key(r) !in snapshot
    ensures Keep(rows, snapshot) == rows
  {
    if rows != [] {
      assert forall r :: r in rows[1..] ==> r in rows;
      KeepAllFresh(rows[1..], snapshot);
    }
  }

  /** Filtering twice against the same snapshot changes nothing more. */
  lemma KeepIdempotent(rows: seq<Row>, snapshot: set<string>)
    ensures Keep(Keep(rows, snapshot), snapshot) == Keep(rows, snapshot)
  {
    KeepMembers(rows, snapshot);
    KeepAllFresh(Keep(rows, snapshot), snapshot);
  }

  /** Once the kept rows' keys join the snapshot, filtering again keeps nothing. */
  lemma {:induction false} KeepAbsorbed(rows: seq<Row>, snapshot: set<string>)
    ensures Keep(rows, snapshot + Keys(Keep(rows, snapshot))) == []
  {
    var kept := Keep(rows, snapshot);
    KeepMembers(rows, snapshot);
    KeepEmptyWhenCovered(rows, snapshot + Keys(kept));
  }

  /** Nothing is kept when every row's key is in the snapshot. */
  lemma {:induction false} KeepEmptyWhenCovered(rows: seq<Row>, snapshot: set<string>)
    requires forall r :: r in rows ==> Key(r) in snapshot
    ensures Keep(rows, snapshot) == []
  {
    if rows != [] {
      assert forall r :: r in rows[1..] ==> r in rows;
      KeepEmptyWhenCovered(rows[1..], snapshot);
    }
  }

  /** When exactly one row's key is in the snapshot, only that row is dropped. */
  lemma KeepDropsOne(rows: seq<Row>, snapshot: set<string>, j: int)
    requires 0 <= j < |rows| && Key(rows[j]) in snapshot
    requires forall i :: 0 <= i < |rows| && i != j ==> Key(rows[i]) !in snapshot
    ensures Keep(rows, snapshot) == rows[..j] + rows[j + 1..]
    ensures |Keep(rows, snapshot)| == |rows| - 1
  {
    var before, after := rows[..j], rows[j + 1..];
    assert rows == before + [rows[j]] + after;
    forall r | r in before ensures Key(r) !in snapshot {
      var i :| 0 <= i < j && before[i] == r;
    }
    forall r | r in after ensures Key(r) !in snapshot {
      var i :| 0 <= i < |after| && after[i] == r;
      assert r == rows[j + 1 + i];
    }
    var dropped := [rows[j]];
    assert Keep(dropped, snapshot) == [] by {
      assert dropped[1..] == [];
    }
    KeepAppend(before + dropped, after, snapshot);
    KeepAppend(before, dropped, snapshot);
    KeepAllFresh(before, snapshot);
    KeepAllFresh(after, snapshot);
    calc {
      Keep(rows, snapshot);
      Keep(before + dropped, snapshot) + Keep(after, snapshot);
      (Keep(before, snapshot) + Keep(dropped, snapshot)) + Keep(after, snapshot);
      (before + []) + after;
      { assert before + [] == before; }
      before + after;
    }
  }
}
