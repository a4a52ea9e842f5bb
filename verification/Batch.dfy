/** Batched writing: ids reserved by ranges, commands sent in one pipeline. It does what serial writing does. */
module Batch {
  import opened Records
  import opened Scores
  import opened Store
  import opened StoreRecords

  const FLUSH_SIZE: nat := 500

  // ---------- one flush ----------

  /** INCRBY of both counters. */
  function Reserve(db: Db, rows: seq<Row>): Db {
    db.(nextA := db.nextA + Alerts(rows), nextE := db.nextE + Events(rows))
  }

  /** The id of row i when the reserved ranges start at a and e. */
  function IdAt(rows: seq<Row>, i: nat, a: int, e: int): int
    requires i < |rows|
  {
    if rows[i].AlertRow? then a + Alerts(rows[..i]) else e + Events(rows[..i])
  }

  /** The pipeline for the first n rows. */
  function Pipe(rows: seq<Row>, n: nat, a: int, e: int): seq<Cmd>
    requires n <= |rows|
  {
    if n == 0 then [] else Pipe(rows, n - 1, a, e) + Writes(rows[n - 1], IdAt(rows, n - 1, a, e))
  }

  function Flushed(db: Db, rows: seq<Row>): Db {
    RunAll(Reserve(db, rows), Pipe(rows, |rows|, db.nextA + 1, db.nextE + 1))
  }

  lemma {:induction false} RunKeepsCounters(db: Db, cs: seq<Cmd>, a: int, e: int)
    ensures RunAll(db.(nextA := a, nextE := e), cs) == RunAll(db, cs).(nextA := a, nextE := e)
  {
    if cs != [] {
      RunKeepsCounters(db, cs[..|cs| - 1], a, e);
    }
  }

  lemma {:induction false} CountersAfter(db: Db, rows: seq<Row>)
    ensures AddAll(db, rows).nextA == db.nextA + Alerts(rows) && AddAll(db, rows).nextE == db.nextE + Events(rows)
  {
    if rows != [] {
      var init, last := rows[..|rows| - 1], rows[|rows| - 1];
      CountersAfter(db, init);
      var before := AddAll(db, init);
      var up := Increment(before, last);
      RunKeepsCounters(up, Writes(last, Counter(up, last)), up.nextA, up.nextE);
    }
  }

  /** A write after n others, whatever the counters say by then. */
  lemma AddOneCounters(db: Db, r: Row, a: int, e: int)
    ensures RunAll(db.(nextA := a, nextE := e), Writes(r, Counter(db, r) + 1)) == AddOne(db, r).(nextA := a, nextE := e)
  {
    hide RunAll, Writes;
    var up := Increment(db, r);
    var cs := Writes(r, Counter(up, r));
    RunKeepsCounters(db, cs, a, e);
    RunKeepsCounters(db, cs, up.nextA, up.nextE);
    assert up == db.(nextA := up.nextA, nextE := up.nextE);
  }

  /** After n rows the pipeline has done what n serial writes do, counters aside. */
  lemma {:induction false} PipePrefix(db: Db, rows: seq<Row>, n: nat, a: int, e: int)
    requires n <= |rows|
    ensures RunAll(db.(nextA := a, nextE := e), Pipe(rows, n, db.nextA + 1, db.nextE + 1))
            == AddAll(db, rows[..n]).(nextA := a, nextE := e)
  {
    if n > 0 {
      hide RunAll, Writes, AddOne;
      var init, last := rows[..n - 1], rows[n - 1];
      assert rows[..n][..n - 1] == init && rows[..n][n - 1] == last;
      PipePrefix(db, rows, n - 1, a, e);
      CountersAfter(db, init);
      var before := AddAll(db, init);
      AddOneCounters(before, last, a, e);
      assert Counter(before, last) + 1 == IdAt(rows, n - 1, db.nextA + 1, db.nextE + 1);
      RunAllConcat(db.(nextA := a, nextE := e), Pipe(rows, n - 1, db.nextA + 1, db.nextE + 1),
                   Writes(last, Counter(before, last) + 1));
    }
  }

  /** One flush is serial writing: the same bodies, scores, counters and ids. */
  lemma FlushIsSerial(db: Db, rows: seq<Row>)
    ensures Flushed(db, rows) == AddAll(db, rows)
  {
    assert rows[..|rows|] == rows;
    PipePrefix(db, rows, |rows|, db.nextA + Alerts(rows), db.nextE + Events(rows));
    CountersAfter(db, rows);
  }

  lemma {:induction false} AddAllConcat(db: Db, a: seq<Row>, b: seq<Row>)
    ensures AddAll(db, a + b) == AddAll(AddAll(db, a), b)
  {
    if b == [] {
      assert a + b == a;
    } else {
      var init := b[..|b| - 1];
      assert (a + b)[..|a + b| - 1] == a + init;
      AddAllConcat(db, a, init);
    }
  }

  /** The ids of a flush are those serial writing hands out. */
  lemma IdsAreSerial(db: Db, rows: seq<Row>, i: nat)
    requires i < |rows|
    ensures IdAt(rows, i, db.nextA + 1, db.nextE + 1) == Counter(AddAll(db, rows[..i]), rows[i]) + 1
  {
    CountersAfter(db, rows[..i]);
  }

  // ---------- the batch ----------

  function RowsOf(records: seq<Record>): (rows: seq<Row>)
    ensures |rows| == |records| && forall i :: 0 <= i < |records| ==> rows[i] == records[i].row
  {
    seq(|records|, i requires 0 <= i < |records| => records[i].row)
  }

  /** No later record of the sequence is the same object. */
  ghost predicate LastUse(records: seq<Record>, i: int)
    requires 0 <= i < |records|
  {
    forall j :: i < j < |records| ==> records[j] != records[i]
  }

  /** The id that serial writing hands out to row i. */
  function SerialId(base: Db, rows: seq<Row>, i: nat): int
    requires i < |rows|
  {
    Counter(AddAll(base, rows[..i]), rows[i]) + 1
  }

  /** The member of a record stored serially. */
  lemma SerialMemberId(base: Db, rows: seq<Row>, i: nat)
    requires i < |rows|
    ensures SerialMember(base, rows, i) == MemberOf(rows[i], SerialId(base, rows, i))
  {
    hide AddAll;
    CountersAfter(base, rows[..i]);
  }

  /** Every record has its serial id; a record given more than once, that of its last use. Records that are used
      again in `later` are left out. */
  ghost predicate HaveIds(base: Db, records: seq<Record>, later: seq<Record>)
    reads records
  {
    forall i :: 0 <= i < |records| && LastUse(records, i) && records[i] !in later ==>
      records[i].id == SerialId(base, RowsOf(records), i)
  }

  /** The records have the ids that come after those of a store. */
  ghost predicate HaveNext(was: Db, records: seq<Record>)
    reads records
  {
    forall i :: 0 <= i < |records| && LastUse(records, i) ==>
      records[i].id == IdAt(RowsOf(records), i, was.nextA + 1, was.nextE + 1)
  }

  class Batch {
    const store: Store
    var pending: seq<Record>
    ghost const base: Db
    ghost var given: seq<Record>

    /** What has been flushed is stored as by serial writing, and its records have the ids; the rest waits. */
    ghost predicate Kept()
      reads this, store, given
    {
      var n := |given| - |pending|;
      && 0 <= n && given[n..] == pending
      && store.db == AddAll(base, RowsOf(given[..n]))
      && HaveIds(base, given[..n], [])
    }

    ghost predicate Valid()
      reads this, store, given
    {
      Kept() && |pending| < FLUSH_SIZE
    }

    constructor (s: Store)
      ensures Valid() && store == s && base == s.db && given == [] && pending == []
    {
      store, base := s, s.db;
      pending, given := [], [];
    }

    method AddAlert(a: Record)
      requires Valid() && a.row.AlertRow?
      modifies this, store, pending, a
      ensures Valid() && given == old(given) + [a]
      ensures pending == if |old(pending)| + 1 < 500 then old(pending) + [a] else []
    {
      Enqueue(a);
    }

    method AddEvent(e: Record)
      requires Valid() && e.row.EventRow?
      modifies this, store, pending, e
      ensures Valid() && given == old(given) + [e]
      ensures pending == if |old(pending)| + 1 < 500 then old(pending) + [e] else []
    {
      Enqueue(e);
    }

    /** The common part: append, and flush when there are enough. */
    method Enqueue(r: Record)
      requires Valid()
      modifies this, store, pending, r
      ensures Valid() && given == old(given) + [r]
      ensures pending == if |old(pending)| + 1 < 500 then old(pending) + [r] else []
    {
      hide AddAll, HaveIds;
      ghost var n := |given| - |pending|;
      pending := pending + [r];
      given := given + [r];
      assert given[n..] == old(given)[n..] + [r] && given[..n] == old(given)[..n];
      if |pending| >= FLUSH_SIZE {
        Flush();
      }
    }

    /** After Close the store is as if every record had been written on its own, and every record has the id it would
        have got. */
    method Close()
      requires Valid()
      modifies this, store, pending
      ensures Valid() && pending == [] && given == old(given)
      ensures store.db == AddAll(base, RowsOf(given)) && HaveIds(base, given, [])
      ensures WellStored(base) ==>
                && AllWhole(base, store.db, RowsOf(given))
                && multiset(NoIds(Rows(store.db))) == multiset(NoIds(Rows(base))) + multiset(NoIds(RowsOf(given)))
    {
      hide AddAll, HaveIds, RowsOf, NoIds, AllWhole, WellStored, Decode;
      if |pending| > 0 {
        Flush();
      }
      assert given[..|given|] == given;
      if WellStored(base) {
        StoredWhole(base, RowsOf(given));
        ReadBack(base, RowsOf(given));
      }
    }

    method Flush()
      requires Kept()
      modifies this, store, pending
      ensures Valid() && pending == [] && given == old(given)
      ensures |old(pending)| > 0 ==> store.snap == None
    {
      hide AddAll, HaveNext, RowsOf, LastUse, SerialId;
      if |pending| == 0 {
        return;
      }
      ghost var n := |given| - |pending|;
      store.Invalidate();
      SendPending();
      assert HaveIds(base, given[..n], pending);
      FlushDone(n);
      pending := [];
    }

    /** The last records of those given are stored and have their ids. */
    lemma FlushDone(n: nat)
      requires n <= |given| && given[n..] == pending && HaveIds(base, given[..n], pending)
      requires store.db == AddAll(AddAll(base, RowsOf(given[..n])), RowsOf(pending))
      requires HaveNext(AddAll(base, RowsOf(given[..n])), pending)
      ensures var all := given[..|given|];
              store.db == AddAll(base, RowsOf(all)) && HaveIds(base, all, []) && given[|given|..] == []
    {
      Appended(base, given, n, store.db);
      FlushedIds(base, given, n);
      assert given[..|given|] == given;
    }

    /** Reserves the ids, writes them into the records, and sends the pipeline. */
    method SendPending()
      modifies store`db, pending
      ensures store.db == AddAll(old(store.db), RowsOf(pending))
      ensures HaveNext(old(store.db), pending)
    {
      hide AddAll, RunAll, Pipe, Alerts, Events, IdAt, Reserve, LastUse;
      ghost var was, rows := store.db, RowsOf(pending);
      var alertStart, eventStart := ReserveIds();
      var pipe := WriteIds(alertStart, eventStart);
      FlushResult(was, rows, alertStart, eventStart);
      store.db := RunAll(store.db, pipe);
    }

    /** INCRBY for each kind there is any of; the first id of each range. */
    method ReserveIds() returns (alertStart: int, eventStart: int)
      modifies store`db
      ensures var rows := RowsOf(pending);
              && store.db == Reserve(old(store.db), rows)
              && (Alerts(rows) > 0 ==> alertStart == old(store.db).nextA + 1)
              && (Events(rows) > 0 ==> eventStart == old(store.db).nextE + 1)
    {
      var alertN, eventN := CountKinds();
      alertStart, eventStart := 0, 0;
      if alertN > 0 {
        store.db := store.db.(nextA := store.db.nextA + alertN);
        alertStart := store.db.nextA - alertN + 1;
      }
      if eventN > 0 {
        store.db := store.db.(nextE := store.db.nextE + eventN);
        eventStart := store.db.nextE - eventN + 1;
      }
    }

    method CountKinds() returns (alertN: int, eventN: int)
      ensures alertN == Alerts(RowsOf(pending)) && eventN == Events(RowsOf(pending))
    {
      alertN, eventN := 0, 0;
      ghost var rows := RowsOf(pending);
      for i := 0 to |pending|
        invariant alertN == Alerts(rows[..i]) && eventN == Events(rows[..i])
      {
        assert rows[..i + 1][..i] == rows[..i];
        if pending[i].row.AlertRow? {
          alertN := alertN + 1;
        } else {
          eventN := eventN + 1;
        }
      }
      assert rows[..|rows|] == rows;
    }

    /** Hands out the ids in place and collects the commands. */
    method WriteIds(a: int, e: int) returns (pipe: seq<Cmd>)
      modifies pending
      ensures pipe == Pipe(RowsOf(pending), |pending|, a, e)
      ensures forall i :: 0 <= i < |pending| && LastUse(pending, i) ==> pending[i].id == IdAt(RowsOf(pending), i, a, e)
    {
      hide Writes, IdAt, Pipe, Alerts, Events;
      ghost var rows := RowsOf(pending);
      NothingYet(rows, a, e);
      var alertStart, eventStart := a, e;
      pipe := [];
      for i := 0 to |pending|
        invariant alertStart == a + Alerts(rows[..i]) && eventStart == e + Events(rows[..i])
        invariant pipe == Pipe(rows, i, a, e)
        invariant forall j :: 0 <= j < i && LastUse(pending, j) ==> pending[j].id == IdAt(rows, j, a, e)
      {
        IdStep(rows, i, a, e);
        var o := pending[i];
        if o.row.AlertRow? {
          o.id := alertStart;
          alertStart := alertStart + 1;
        } else {
          o.id := eventStart;
          eventStart := eventStart + 1;
        }
        pipe := Queue(pipe, o.row, o.id);
      }
    }
  }

  lemma NothingYet(rows: seq<Row>, a: int, e: int)
    ensures Alerts(rows[..0]) == 0 && Events(rows[..0]) == 0 && Pipe(rows, 0, a, e) == []
  {
  }

  lemma IdStep(rows: seq<Row>, i: nat, a: int, e: int)
    requires i < |rows|
    ensures IdAt(rows, i, a, e) == if rows[i].AlertRow? then a + Alerts(rows[..i]) else e + Events(rows[..i])
    ensures Alerts(rows[..i + 1]) == Alerts(rows[..i]) + (if rows[i].AlertRow? then 1 else 0)
    ensures Events(rows[..i + 1]) == Events(rows[..i]) + (if rows[i].AlertRow? then 0 else 1)
    ensures Pipe(rows, i + 1, a, e) == Pipe(rows, i, a, e) + Writes(rows[i], IdAt(rows, i, a, e))
  {
    assert rows[..i + 1][..i] == rows[..i];
  }

  /** The two commands of a record, queued in this order. */
  method Queue(pipe: seq<Cmd>, r: Row, id: int) returns (longer: seq<Cmd>)
    ensures longer == pipe + Writes(r, id)
  {
    longer := pipe + [Set(MemberOf(r, id), WithId(r, id))];
    longer := longer + [ZAdd(MemberOf(r, id), Score(r.Ts()))];
  }

  lemma RowsOfConcat(given: seq<Record>, n: nat)
    requires n <= |given|
    ensures RowsOf(given) == RowsOf(given[..n]) + RowsOf(given[n..])
  {
    assert forall i :: n <= i < |given| ==> given[n..][i - n] == given[i];
  }

  lemma Appended(base: Db, given: seq<Record>, n: nat, db: Db)
    requires n <= |given| && db == AddAll(AddAll(base, RowsOf(given[..n])), RowsOf(given[n..]))
    ensures db == AddAll(base, RowsOf(given))
  {
    hide AddAll, RowsOf;
    AddAllConcat(base, RowsOf(given[..n]), RowsOf(given[n..]));
    RowsOfConcat(given, n);
  }

  /** The ids of a flush are the serial ids of its records. */
  lemma FlushedIds(base: Db, given: seq<Record>, n: nat)
    requires n <= |given| && HaveIds(base, given[..n], given[n..])
    requires HaveNext(AddAll(base, RowsOf(given[..n])), given[n..])
    ensures HaveIds(base, given, [])
  {
    hide AddAll, SerialId, RowsOf, LastUse, HaveNext;
    forall k | 0 <= k < |given| && LastUse(given, k)
      ensures given[k].id == SerialId(base, RowsOf(given), k)
    {
      if k < n {
        FirstId(base, given, n, k);
      } else {
        LastId(base, given, n, k - n);
      }
    }
  }

  lemma FirstId(base: Db, given: seq<Record>, n: nat, k: nat)
    requires k < n <= |given| && HaveIds(base, given[..n], given[n..]) && LastUse(given, k)
    ensures given[k].id == SerialId(base, RowsOf(given), k)
  {
    hide AddAll, SerialId, RowsOf, LastUse;
    RowsOfConcat(given, n);
    LastUseOfFirst(given, n, k);
    assert given[k] == given[..n][k];
    EarlierId(base, RowsOf(given[..n]), RowsOf(given), k);
  }

  lemma LastId(base: Db, given: seq<Record>, n: nat, k: nat)
    requires n + k < |given| && HaveNext(AddAll(base, RowsOf(given[..n])), given[n..]) && LastUse(given, n + k)
    ensures given[n + k].id == SerialId(base, RowsOf(given), n + k)
  {
    hide AddAll, SerialId, RowsOf, LastUse, IdAt;
    RowsOfConcat(given, n);
    LastUseOfLast(given, n, k);
    assert given[n + k] == given[n..][k];
    LaterId(base, RowsOf(given[..n]), RowsOf(given[n..]), RowsOf(given), k);
  }

  lemma LastUseOfFirst(given: seq<Record>, n: nat, k: nat)
    requires k < n <= |given| && LastUse(given, k)
    ensures LastUse(given[..n], k) && given[k] !in given[n..]
  {
    assert forall i :: n <= i < |given| ==> given[n..][i - n] == given[i];
  }

  lemma LastUseOfLast(given: seq<Record>, n: nat, k: nat)
    requires n + k < |given| && LastUse(given, n + k)
    ensures LastUse(given[n..], k)
  {
  }

  lemma EarlierId(base: Db, first: seq<Row>, all: seq<Row>, k: nat)
    requires k < |first| && first <= all
    ensures SerialId(base, first, k) == SerialId(base, all, k)
  {
    assert first[..k] == all[..k];
  }

  lemma LaterId(base: Db, first: seq<Row>, last: seq<Row>, all: seq<Row>, k: nat)
    requires k < |last| && all == first + last
    ensures var was := AddAll(base, first);
            SerialId(base, all, |first| + k) == IdAt(last, k, was.nextA + 1, was.nextE + 1)
  {
    hide AddAll, IdAt;
    AddAllConcat(base, first, last[..k]);
    assert all[..|first| + k] == first + last[..k] && all[|first| + k] == last[k];
    IdsAreSerial(AddAll(base, first), last, k);
  }

  /** What a flush does, whatever the start of a range that is not used. */
  lemma FlushResult(was: Db, rows: seq<Row>, a: int, e: int)
    requires Alerts(rows) > 0 ==> a == was.nextA + 1
    requires Events(rows) > 0 ==> e == was.nextE + 1
    ensures RunAll(Reserve(was, rows), Pipe(rows, |rows|, a, e)) == AddAll(was, rows)
    ensures forall i :: 0 <= i < |rows| ==> IdAt(rows, i, a, e) == IdAt(rows, i, was.nextA + 1, was.nextE + 1)
  {
    PipeStarts(rows, |rows|, a, e, was.nextA + 1, was.nextE + 1);
    FlushIsSerial(was, rows);
    forall i | 0 <= i < |rows|
      ensures IdAt(rows, i, a, e) == IdAt(rows, i, was.nextA + 1, was.nextE + 1)
    {
      StartsMatter(rows, i);
    }
  }

  /** Only the start of a range that is used matters. */
  lemma StartsMatter(rows: seq<Row>, i: nat)
    requires i < |rows|
    ensures rows[i].AlertRow? ==> Alerts(rows) > 0
    ensures rows[i].EventRow? ==> Events(rows) > 0
    decreases |rows|
  {
    if i < |rows| - 1 {
      StartsMatter(rows[..|rows| - 1], i);
    }
  }

  lemma {:induction false} PipeStarts(rows: seq<Row>, n: nat, a: int, e: int, a': int, e': int)
    requires n <= |rows| && (Alerts(rows) > 0 ==> a == a') && (Events(rows) > 0 ==> e == e')
    ensures Pipe(rows, n, a, e) == Pipe(rows, n, a', e')
  {
    if n > 0 {
      PipeStarts(rows, n - 1, a, e, a', e');
      StartsMatter(rows, n - 1);
    }
  }
}
