/** Which bursts are open while rows stream by, and when the folded rows come out in time order. */
module CollapseOrder {
  import opened Records
  import opened CollapseKey
  import opened CollapseSpec

  // ---------- the open bursts after a prefix ----------

  /** The time of the last row that did not join a burst; only such rows close bursts. */
  function FlushTime(rows: seq<Row>, key: Keying): int {
    if rows == [] then 0
    else
      var n := |rows| - 1;
      if Extends(rows[..n], rows[n], key) then FlushTime(rows[..n], key) else rows[n].Ts()
  }

  /** Whether the last of these rows is still within its window at a time. */
  predicate Fresh(sub: seq<Row>, now: int) {
    sub != [] && now - sub[|sub| - 1].Ts() <= Window(sub[|sub| - 1])
  }

  /** Whether a key has a burst open after these rows. */
  predicate Held(rows: seq<Row>, key: Keying, k: string) {
    k != "" && Fresh(Sub(rows, key, k), FlushTime(rows, key))
  }

  /** Whether it stays open when a row that joins no burst arrives. */
  predicate Stays(rows: seq<Row>, key: Keying, k: string, now: int) {
    Held(rows, key, k) && Fresh(Sub(rows, key, k), now)
  }

  predicate Leaves(rows: seq<Row>, key: Keying, k: string, now: int) {
    Held(rows, key, k) && !Fresh(Sub(rows, key, k), now)
  }

  function HeadTime(rows: seq<Row>, key: Keying, k: string): int
    requires Sub(rows, key, k) != []
  {
    LastSeg(rows, key, k).head.Ts()
  }

  /** Row r comes no earlier than the rows before it. */
  ghost predicate InTime(rows: seq<Row>, r: Row, key: Keying) {
    rows != [] ==> rows[|rows| - 1].Ts() <= r.Ts() && FlushTime(rows, key) <= r.Ts()
  }

  lemma {:induction false} SortedInTime(rows: seq<Row>, n: nat, key: Keying)
    requires Sorted(rows) && n < |rows|
    ensures InTime(rows[..n], rows[n], key)
  {
    if n > 0 {
      SortedInTime(rows, n - 1, key);
      assert rows[..n][..n - 1] == rows[..n - 1];
      assert rows[..n][n - 1] == rows[n - 1];
    }
  }

  lemma FlushTimeAppend(rows: seq<Row>, r: Row, key: Keying)
    ensures FlushTime(rows + [r], key) == if Extends(rows, r, key) then FlushTime(rows, key) else r.Ts()
  {
    assert (rows + [r])[..|rows|] == rows;
  }

  /** A row that joins a burst opens and closes nothing. */
  lemma HeldExtend(rows: seq<Row>, r: Row, key: Keying, k: string)
    requires KeyingOk(key) && InTime(rows, r, key) && Extends(rows, r, key)
    ensures Held(rows + [r], key, k) <==> Held(rows, key, k)
    ensures k != key(r) && Held(rows, key, k) ==> LastSeg(rows + [r], key, k) == LastSeg(rows, key, k)
  {
    FlushTimeAppend(rows, r, key);
    if k != key(r) {
      SubOther(rows, r, key, k);
    } else {
      ExtendsHeld(rows, r, key);
      SubAppend(rows, r, key, k);
    }
  }

  lemma ExtendsHeld(rows: seq<Row>, r: Row, key: Keying)
    requires KeyingOk(key) && InTime(rows, r, key) && Extends(rows, r, key)
    ensures Held(rows, key, key(r))
  {
    var sub := Sub(rows, key, key(r));
    SubKey(rows, key, key(r));
    assert key(sub[|sub| - 1]) == key(r);
  }

  /** Any other row closes the bursts that are out of their window, and opens its own if it has a key. */
  lemma HeldFlush(rows: seq<Row>, r: Row, key: Keying, k: string)
    requires KeyingOk(key) && InTime(rows, r, key) && !Extends(rows, r, key)
    ensures Held(rows + [r], key, k) <==> (k == key(r) && k != "") || Stays(rows, key, k, r.Ts())
    ensures k == key(r) ==> !Stays(rows, key, k, r.Ts())
    ensures Stays(rows, key, k, r.Ts()) ==> LastSeg(rows + [r], key, k) == LastSeg(rows, key, k)
  {
    FlushTimeAppend(rows, r, key);
    if k != key(r) {
      SubOther(rows, r, key, k);
      assert rows == [] ==> Sub(rows, key, k) == [];
    } else {
      var sub := Sub(rows, key, k);
      SubAppend(rows, r, key, k);
      SubKey(rows, key, k);
      assert sub != [] ==> key(sub[|sub| - 1]) == k;
    }
  }

  // ---------- when the output is in time order ----------

  /** When row r arrives, no burst is shown while an older burst stays open, and r itself is not shown
      before an older burst either. */
  ghost predicate Orderly(rows: seq<Row>, r: Row, key: Keying) {
    && (forall k, j :: Leaves(rows, key, k, r.Ts()) && Stays(rows, key, j, r.Ts())
                       ==> HeadTime(rows, key, k) <= HeadTime(rows, key, j))
    && (key(r) == "" ==> forall j :: Stays(rows, key, j, r.Ts()) ==> r.Ts() <= HeadTime(rows, key, j))
  }

  ghost predicate OrderlyAt(rows: seq<Row>, key: Keying, i: nat)
    requires i < |rows|
  {
    Extends(rows[..i], rows[i], key) || Orderly(rows[..i], rows[i], key)
  }

  /** No burst overtakes an older one. */
  ghost predicate NoOvertaking(rows: seq<Row>, key: Keying) {
    forall i :: 0 <= i < |rows| ==> OrderlyAt(rows, key, i)
  }

  lemma NoOvertakingAppend(rows: seq<Row>, r: Row, key: Keying)
    ensures NoOvertaking(rows + [r], key)
            <==> NoOvertaking(rows, key) && (Extends(rows, r, key) || Orderly(rows, r, key))
  {
    var all := rows + [r];
    forall i | 0 <= i < |rows|
      ensures OrderlyAt(all, key, i) <==> OrderlyAt(rows, key, i)
    {
      assert all[..i] == rows[..i] && all[i] == rows[i];
    }
    assert all[..|rows|] == rows && all[|rows|] == r;
    assert OrderlyAt(all, key, |rows|) <==> Extends(rows, r, key) || Orderly(rows, r, key);
  }
}
