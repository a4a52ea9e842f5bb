/** The store: records in Redis, and the cached snapshot of all of them. One caller at a time; see module
    Snapshot for callers that interleave. */
module Store {
  import opened Records
  import opened Scores

  // ---------- Redis ----------

  /** Record bodies, the timeline sorted set and the two id counters. */
  datatype Db = Db(bodies: map<Member, Row>, timeline: seq<Entry>, nextA: int, nextE: int)

  const EMPTY: Db := Db(map[], [], 0, 0)

  datatype Cmd = Set(member: Member, body: Row) | ZAdd(member: Member, score: int)

  function Remove(z: seq<Entry>, m: Member): seq<Entry> {
    if z == [] then []
    else
      var last := z[|z| - 1];
      Remove(z[..|z| - 1], m) + (if last.member == m then [] else [last])
  }

  /** ZADD moves a member that is there already. */
  function Run(db: Db, c: Cmd): Db {
    match c
    case Set(m, body) => db.(bodies := db.bodies[m := body])
    case ZAdd(m, score) => db.(timeline := Insert(Remove(db.timeline, m), Entry(score, m)))
  }

  function RunAll(db: Db, cs: seq<Cmd>): Db {
    if cs == [] then db else Run(RunAll(db, cs[..|cs| - 1]), cs[|cs| - 1])
  }

  lemma {:induction false} RunAllConcat(db: Db, a: seq<Cmd>, b: seq<Cmd>)
    ensures RunAll(db, a + b) == RunAll(RunAll(db, a), b)
  {
    if b == [] {
      assert a + b == a;
    } else {
      var init, last := b[..|b| - 1], b[|b| - 1];
      assert (a + b)[..|a + b| - 1] == a + init;
      RunAllConcat(db, a, init);
    }
  }

  // ---------- records ----------

  function WithId(r: Row, id: int): Row {
    match r
    case AlertRow(a, _) => AlertRow(a.(id := id), None)
    case EventRow(e, _) => EventRow(e.(id := id), None)
  }

  function MemberOf(r: Row, id: int): Member {
    if r.AlertRow? then A(id) else E(id)
  }

  /** The two commands that write a record: the body first. */
  function Writes(r: Row, id: int): seq<Cmd> {
    [Set(MemberOf(r, id), WithId(r, id)), ZAdd(MemberOf(r, id), Score(r.Ts()))]
  }

  /** INCR of the counter of the record's kind. */
  function Increment(db: Db, r: Row): Db {
    if r.AlertRow? then db.(nextA := db.nextA + 1) else db.(nextE := db.nextE + 1)
  }

  function Counter(db: Db, r: Row): int {
    if r.AlertRow? then db.nextA else db.nextE
  }

  /** One record written by AddAlert or AddEvent. */
  function AddOne(db: Db, r: Row): Db {
    var db' := Increment(db, r);
    RunAll(db', Writes(r, Counter(db', r)))
  }

  function AddAll(db: Db, rows: seq<Row>): Db {
    if rows == [] then db else AddOne(AddAll(db, rows[..|rows| - 1]), rows[|rows| - 1])
  }

  // ---------- reading ----------

  /** ZRANGE, then MGET: the bodies in timeline order, members without a body left out. */
  function Decode(z: seq<Entry>, bodies: map<Member, Row>): seq<Row> {
    if z == [] then []
    else
      var m := z[|z| - 1].member;
      Decode(z[..|z| - 1], bodies) + (if m in bodies then [bodies[m]] else [])
  }

  function Rows(db: Db): seq<Row> {
    Decode(db.timeline, db.bodies)
  }

  /** A record to be stored; the store writes its id into it. */
  class Record {
    const row: Row
    var id: int

    constructor (r: Row)
      ensures row == r && id == 0
    {
      row, id := r, 0;
    }
  }

  class Store {
    var db: Db
    var snap: Option<seq<Row>>

    constructor ()
      ensures db == EMPTY && snap == None
    {
      db, snap := EMPTY, None;
    }

    /** A snapshot, if there is one, is the current data. */
    ghost predicate Coherent()
      reads this
    {
      snap.Some? ==> snap.value == Rows(db)
    }

    method Invalidate()
      modifies this`snap
      ensures snap == None
    {
      snap := None;
    }

    method AddAlert(a: Record)
      requires a.row.AlertRow?
      modifies this, a
      ensures db == AddOne(old(db), a.row) && a.id == old(db.nextA) + 1
      ensures snap == None && Coherent()
    {
      hide RunAll, Run, Rows, Score, WithId;
      Invalidate();
      db := db.(nextA := db.nextA + 1);
      a.id := db.nextA;
      ghost var reserved := db;
      db := Run(db, Set(A(a.id), WithId(a.row, a.id)));
      db := Run(db, ZAdd(A(a.id), Score(a.row.Ts())));
      TwoCmds(reserved, Writes(a.row, a.id));
    }

    method AddEvent(e: Record)
      requires e.row.EventRow?
      modifies this, e
      ensures db == AddOne(old(db), e.row) && e.id == old(db.nextE) + 1
      ensures snap == None && Coherent()
    {
      hide RunAll, Run, Rows, Score, WithId;
      Invalidate();
      db := db.(nextE := db.nextE + 1);
      e.id := db.nextE;
      ghost var reserved := db;
      db := Run(db, Set(E(e.id), WithId(e.row, e.id)));
      db := Run(db, ZAdd(E(e.id), Score(e.row.Ts())));
      TwoCmds(reserved, Writes(e.row, e.id));
    }

    /** materializedRows, when nobody else is using the store. */
    method MaterializedRows() returns (rows: seq<Row>)
      requires Coherent()
      modifies this`snap
      ensures rows == Rows(db) && snap == Some(rows) && Coherent()
    {
      if snap.Some? {
        return snap.value;
      }
      rows := Decode(db.timeline, db.bodies);
      snap := Some(rows);
    }
  }

  lemma TwoCmds(db: Db, cs: seq<Cmd>)
    requires |cs| == 2
    ensures RunAll(db, cs) == Run(Run(db, cs[0]), cs[1])
  {
    hide Run;
    var one := cs[..1];
    assert one[..0] == [] && one[0] == cs[0];
    assert RunAll(db, one) == Run(RunAll(db, one[..0]), one[0]);
  }

  // ---------- what the store holds after any sequence of writes ----------

  function Alerts(rows: seq<Row>): nat {
    if rows == [] then 0 else Alerts(rows[..|rows| - 1]) + (if rows[|rows| - 1].AlertRow? then 1 else 0)
  }

  function Events(rows: seq<Row>): nat {
    if rows == [] then 0 else Events(rows[..|rows| - 1]) + (if rows[|rows| - 1].EventRow? then 1 else 0)
  }

  /** Ids of each kind run from 1 to the counter, without gaps. */
  ghost predicate IdsOk(db: Db) {
    && db.nextA >= 0 && db.nextE >= 0
    && (forall m :: m in db.bodies <==> 1 <= m.id <= (if m.A? then db.nextA else db.nextE))
    && (forall m :: m in db.bodies ==> db.bodies[m].Id() == m.id && (db.bodies[m].AlertRow? <==> m.A?))
  }

  ghost predicate Distinct(z: seq<Entry>) {
    forall i, j :: 0 <= i < j < |z| ==> z[i].member != z[j].member
  }

  ghost predicate Lists(z: seq<Entry>, m: Member) {
    exists e :: e in z && e.member == m
  }

  /** The timeline holds each record once, with its score, in order. */
  ghost predicate TimelineOk(db: Db) {
    && InOrder(db.timeline) && Distinct(db.timeline)
    && (forall e :: e in db.timeline ==> e.member in db.bodies && e.score == Score(db.bodies[e.member].Ts()))
    && (forall m :: m in db.bodies ==> Lists(db.timeline, m))
  }

  ghost predicate WellStored(db: Db) {
    IdsOk(db) && TimelineOk(db)
  }

  lemma {:induction false} RemoveAbsent(z: seq<Entry>, m: Member)
    requires forall i :: 0 <= i < |z| ==> z[i].member != m
    ensures Remove(z, m) == z
  {
    if z != [] {
      RemoveAbsent(z[..|z| - 1], m);
    }
  }

  lemma {:induction false} InsertDistinct(z: seq<Entry>, e: Entry)
    requires Distinct(z) && forall x :: x in z ==> x.member != e.member
    ensures Distinct(Insert(z, e))
  {
    if z != [] {
      var init, last := z[..|z| - 1], z[|z| - 1];
      InsertDistinct(init, e);
      InsertMembers(init, e);
      forall x | x in Insert(init, e)
        ensures x.member != last.member
      {
        if x != e {
          var i :| 0 <= i < |init| && init[i] == x;
          assert z[i] == x;
        }
      }
    }
  }

  lemma AddOneForm(db: Db, r: Row)
    requires forall i :: 0 <= i < |db.timeline| ==> db.timeline[i].member != MemberOf(r, Counter(db, r) + 1)
    ensures var id := Counter(db, r) + 1; var m := MemberOf(r, id);
            AddOne(db, r) == Increment(db, r).(bodies := db.bodies[m := WithId(r, id)],
                                               timeline := Insert(db.timeline, Entry(Score(r.Ts()), m)))
  {
    var id := Counter(db, r) + 1;
    TwoCmds(Increment(db, r), Writes(r, id));
    RemoveAbsent(db.timeline, MemberOf(r, id));
  }

  /** The record to come is not there yet. */
  lemma NextIsNew(db: Db, r: Row)
    requires WellStored(db)
    ensures var m := MemberOf(r, Counter(db, r) + 1); m !in db.bodies && forall x :: x in db.timeline ==> x.member != m
  {
  }

  lemma AddOneIds(db: Db, r: Row)
    requires IdsOk(db)
    ensures var id := Counter(db, r) + 1;
            IdsOk(Increment(db, r).(bodies := db.bodies[MemberOf(r, id) := WithId(r, id)]))
  {
  }

  lemma AddOneTimeline(db: Db, r: Row)
    requires TimelineOk(db)
    requires var m := MemberOf(r, Counter(db, r) + 1); m !in db.bodies && forall x :: x in db.timeline ==> x.member != m
    ensures TimelineOk(AddOne(db, r)) && |AddOne(db, r).timeline| == |db.timeline| + 1
  {
    hide Insert, InOrder, Distinct, AddOne, Score;
    var id := Counter(db, r) + 1;
    var e := Entry(Score(r.Ts()), MemberOf(r, id));
    AddOneForm(db, r);
    InsertMembers(db.timeline, e);
    InsertInOrder(db.timeline, e);
    InsertDistinct(db.timeline, e);
    var after := AddOne(db, r);
    forall x | x in after.bodies
      ensures Lists(after.timeline, x)
    {
      if x == e.member {
        assert e in after.timeline;
      } else {
        var f :| f in db.timeline && f.member == x;
        assert f in after.timeline;
      }
    }
  }

  lemma AddOneKeeps(db: Db, r: Row)
    requires WellStored(db)
    ensures WellStored(AddOne(db, r)) && |AddOne(db, r).timeline| == |db.timeline| + 1
  {
    hide Insert, AddOne, TimelineOk;
    NextIsNew(db, r);
    AddOneTimeline(db, r);
    AddOneForm(db, r);
    AddOneIds(db, r);
  }

  /** Serial writing: distinct ids from 1 without gaps in each kind, one timeline entry a record. */
  lemma {:induction false} AddAllStores(rows: seq<Row>)
    ensures var db := AddAll(EMPTY, rows);
            WellStored(db) && db.nextA == Alerts(rows) && db.nextE == Events(rows) && |db.timeline| == |rows|
  {
    if rows != [] {
      var init, last := rows[..|rows| - 1], rows[|rows| - 1];
      AddAllStores(init);
      AddOneKeeps(AddAll(EMPTY, init), last);
      AddOneForm(AddAll(EMPTY, init), last);
    }
  }

  /** Alerts and events are numbered apart: the first of each is number 1. */
  lemma FirstNumbers(a: Row, e: Row)
    requires a.AlertRow? && e.EventRow?
    ensures var bodies := AddAll(EMPTY, [a, e]).bodies;
            A(1) in bodies && E(1) in bodies && bodies[A(1)].Id() == bodies[E(1)].Id() == 1
  {
    hide AddAll, TimelineOk, Alerts, Events;
    AddAllStores([a, e]);
    OneOfEach(a, e);
  }

  lemma OneOfEach(a: Row, e: Row)
    requires a.AlertRow? && e.EventRow?
    ensures Alerts([a, e]) == 1 && Events([a, e]) == 1
  {
    assert [a, e][..1] == [a] && [a][..0] == [];
    assert Alerts([a]) == 1 && Events([a]) == 0;
  }

  /** The timeline after two alerts: in the order of their scores, and of their writing if the scores are equal. */
  lemma TwoAlerts(a: Row, b: Row)
    requires a.AlertRow? && b.AlertRow?
    ensures var db := AddAll(EMPTY, [a, b]); var e, f := Entry(Score(a.Ts()), A(1)), Entry(Score(b.Ts()), A(2));
            && db.bodies == map[A(1) := WithId(a, 1), A(2) := WithId(b, 2)]
            && db.timeline == if e.score <= f.score then [e, f] else [f, e]
  {
    hide AddOne, AddAll, Score, Insert;
    var e, f := Entry(Score(a.Ts()), A(1)), Entry(Score(b.Ts()), A(2));
    AddTwo(EMPTY, a, b);
    AddOneForm(EMPTY, a);
    var one := AddOne(EMPTY, a);
    assert one.nextA == 1 && one.bodies == map[A(1) := WithId(a, 1)];
    InsertFirst(e);
    AddOneForm(one, b);
    SmallKeys();
    InsertSecond(e, f);
  }

  lemma AddTwo(db: Db, a: Row, b: Row)
    ensures AddAll(db, [a, b]) == AddOne(AddOne(db, a), b)
  {
    hide AddOne;
    assert [a, b][..1] == [a] && [a][..0] == [];
    assert AddAll(db, [a]) == AddOne(AddAll(db, []), a);
  }

  lemma InsertFirst(e: Entry)
    ensures Insert([], e) == [e]
  {
  }

  lemma InsertSecond(e: Entry, f: Entry)
    requires LexLeq(e.member.Key(), f.member.Key()) && e.member.Key() != f.member.Key()
    ensures Insert([e], f) == if e.score <= f.score then [e, f] else [f, e]
  {
  }

  /** Two alerts written one after the other are read back in time order exactly when the first is not the later one
      or their scores differ. */
  lemma TwoAlertsSorted(a: Row, b: Row)
    requires a.AlertRow? && b.AlertRow?
    ensures Sorted(Rows(AddAll(EMPTY, [a, b]))) <==> a.Ts() <= b.Ts() || Score(a.Ts()) != Score(b.Ts())
  {
    hide AddAll, Score;
    var db := AddAll(EMPTY, [a, b]);
    TwoAlerts(a, b);
    DecodeAll(db.timeline, db.bodies);
    if a.Ts() <= b.Ts() {
      ScoreMonotone(a.Ts(), b.Ts());
    } else {
      ScoreMonotone(b.Ts(), a.Ts());
    }
  }

  /** So two alerts a nanosecond apart can come back reversed. */
  lemma ReversedExample()
    ensures var late, early := BareAlert(0, NANO_LATE, "rule", 7, 1), BareAlert(0, NANO_EARLY, "rule", 7, 1);
            late.Ts() == early.Ts() + 1 && !Sorted(Rows(AddAll(EMPTY, [late, early])))
  {
    NanosecondsTie();
    TwoAlertsSorted(BareAlert(0, NANO_LATE, "rule", 7, 1), BareAlert(0, NANO_EARLY, "rule", 7, 1));
  }

  /** Every row read is the body of the entry at the same place. */
  lemma {:induction false} DecodeAll(z: seq<Entry>, bodies: map<Member, Row>)
    requires forall i :: 0 <= i < |z| ==> z[i].member in bodies
    ensures |Decode(z, bodies)| == |z|
    ensures forall i :: 0 <= i < |z| ==> Decode(z, bodies)[i] == bodies[z[i].member]
  {
    if z != [] {
      DecodeAll(z[..|z| - 1], bodies);
    }
  }

  /** The snapshot is in time order exactly when its records that share a score are; records with microsecond times
      always are. */
  lemma RowsSorted(db: Db)
    requires WellStored(db)
    ensures |Rows(db)| == |db.timeline|
    ensures Sorted(Rows(db)) <==> TiesInOrder(db.timeline, Rows(db))
    ensures (forall m :: m in db.bodies ==> Microseconds(db.bodies[m].Ts())) ==> Sorted(Rows(db))
  {
    assert forall i :: 0 <= i < |db.timeline| ==> db.timeline[i] in db.timeline;
    DecodeAll(db.timeline, db.bodies);
    SetOrderIsTimeOrder(db.timeline, Rows(db));
    MicrosecondsSorted(db.timeline, Rows(db));
  }
}
