/** What is read back from the store is what was written: every field of every record but the id, once each. */
module StoreRecords {
  import opened Records
  import opened Scores
  import opened Store

  // ---------- records without their ids ----------

  /** Two records agree in everything but the id. */
  predicate SameRecord(r: Row, s: Row) {
    match (r, s)
    case (AlertRow(a, _), AlertRow(b, _)) =>
      && a.ts == b.ts && a.ruleName == b.ruleName && a.pid == b.pid && a.parentPid == b.parentPid
      && a.commandLine == b.commandLine && a.executable == b.executable && a.processName == b.processName
      && a.user == b.user && a.severity == b.severity && a.engine == b.engine
    case (EventRow(e, _), EventRow(f, _)) =>
      && e.ts == f.ts && e.category == f.category && e.eventId == f.eventId && e.opcode == f.opcode
      && e.fields == f.fields
    case _ => false
  }

  /** The record with the id blanked. */
  function NoId(r: Row): Row {
    match r
    case AlertRow(a, _) =>
      AlertRow(Alert(0, a.ts, a.ruleName, a.pid, a.parentPid, a.commandLine, a.executable, a.processName, a.user,
                     a.severity, a.engine), None)
    case EventRow(e, _) => EventRow(Event(0, e.ts, e.category, e.eventId, e.opcode, e.fields), None)
  }

  function NoIds(rows: seq<Row>): (blank: seq<Row>)
    ensures |blank| == |rows| && forall i :: 0 <= i < |rows| ==> blank[i] == NoId(rows[i])
  {
    seq(|rows|, i requires 0 <= i < |rows| => NoId(rows[i]))
  }

  lemma SameBlank(r: Row, s: Row)
    ensures SameRecord(r, s) <==> NoId(r) == NoId(s)
  {
  }

  /** What the store keeps of a record: everything, with the new id. */
  lemma KeptWhole(r: Row, id: int)
    ensures var body := WithId(r, id);
            SameRecord(body, r) && body.Id() == id && body.Ts() == r.Ts() && body.burst == None
    ensures MemberOf(r, id) == if r.AlertRow? then A(id) else E(id)
  {
  }

  // ---------- bodies ----------

  /** The member under which serial writing stores row i. */
  function SerialMember(base: Db, rows: seq<Row>, i: nat): Member
    requires i < |rows|
  {
    if rows[i].AlertRow? then A(base.nextA + 1 + Alerts(rows[..i])) else E(base.nextE + 1 + Events(rows[..i]))
  }

  lemma {:induction false} CountersOf(base: Db, rows: seq<Row>)
    requires WellStored(base)
    ensures var db := AddAll(base, rows);
            WellStored(db) && db.nextA == base.nextA + Alerts(rows) && db.nextE == base.nextE + Events(rows)
  {
    if rows != [] {
      hide WellStored, AddOne;
      var init, last := rows[..|rows| - 1], rows[|rows| - 1];
      CountersOf(base, init);
      AddOneKeeps(AddAll(base, init), last);
      Added(AddAll(base, init), last);
    }
  }

  /** One record more. */
  lemma Added(db: Db, r: Row)
    requires WellStored(db)
    ensures var id := Counter(db, r) + 1; var m := MemberOf(r, id);
            && m !in db.bodies
            && AddOne(db, r) == Increment(db, r).(bodies := db.bodies[m := WithId(r, id)],
                                                  timeline := Insert(db.timeline, Entry(Score(r.Ts()), m)))
  {
    hide AddOne;
    NextIsNew(db, r);
    AddOneForm(db, r);
  }

  /** The body of this member is the record, with the id of the member. */
  predicate HoldsWhole(db: Db, m: Member, r: Row) {
    m in db.bodies && SameRecord(db.bodies[m], r) && db.bodies[m].Id() == m.id
  }

  lemma OneWhole(db: Db, r: Row)
    requires WellStored(db)
    ensures HoldsWhole(AddOne(db, r), MemberOf(r, Counter(db, r) + 1), r)
    ensures KeepsBodies(db, AddOne(db, r))
  {
    hide AddOne, WellStored, Insert, WithId;
    Added(db, r);
    KeptWhole(r, Counter(db, r) + 1);
  }

  lemma MemberStays(base: Db, rows: seq<Row>, i: nat)
    requires i < |rows| - 1
    ensures rows[i] == rows[..|rows| - 1][i]
    ensures SerialMember(base, rows, i) == SerialMember(base, rows[..|rows| - 1], i)
  {
    assert rows[..i] == rows[..|rows| - 1][..i];
  }

  ghost predicate AllWhole(base: Db, db: Db, rows: seq<Row>) {
    forall i :: 0 <= i < |rows| ==> HoldsWhole(db, SerialMember(base, rows, i), rows[i])
  }

  ghost predicate KeepsBodies(db: Db, after: Db) {
    forall m :: m in db.bodies ==> m in after.bodies && after.bodies[m] == db.bodies[m]
  }

  lemma WholeStep(base: Db, rows: seq<Row>, before: Db, after: Db)
    requires rows != [] && AllWhole(base, before, rows[..|rows| - 1]) && KeepsBodies(before, after)
    requires HoldsWhole(after, SerialMember(base, rows, |rows| - 1), rows[|rows| - 1])
    ensures AllWhole(base, after, rows)
  {
    hide SerialMember, SameRecord;
    forall i | 0 <= i < |rows|
      ensures HoldsWhole(after, SerialMember(base, rows, i), rows[i])
    {
      if i < |rows| - 1 {
        MemberStays(base, rows, i);
        assert HoldsWhole(before, SerialMember(base, rows[..|rows| - 1], i), rows[..|rows| - 1][i]);
      }
    }
  }

  lemma LastMember(base: Db, rows: seq<Row>)
    requires WellStored(base) && rows != []
    ensures var init, last := rows[..|rows| - 1], rows[|rows| - 1];
            WellStored(AddAll(base, init))
            && SerialMember(base, rows, |rows| - 1) == MemberOf(last, Counter(AddAll(base, init), last) + 1)
  {
    hide WellStored, AddAll;
    CountersOf(base, rows[..|rows| - 1]);
  }

  /** Every record is stored whole, under its serial member, and no body that was there is touched. */
  lemma {:induction false} StoredWhole(base: Db, rows: seq<Row>)
    requires WellStored(base)
    ensures KeepsBodies(base, AddAll(base, rows)) && AllWhole(base, AddAll(base, rows), rows)
  {
    hide AddAll, AddOne, WellStored, HoldsWhole, SerialMember, AllWhole, KeepsBodies;
    if rows == [] {
      NothingAdded(base);
    } else {
      var init, last := rows[..|rows| - 1], rows[|rows| - 1];
      var before := AddAll(base, init);
      StoredWhole(base, init);
      LastMember(base, rows);
      OneWhole(before, last);
      AddLast(base, rows);
      WholeStep(base, rows, before, AddOne(before, last));
      KeepsThrough(base, before, AddOne(before, last));
    }
  }

  lemma NothingAdded(base: Db)
    ensures KeepsBodies(base, AddAll(base, [])) && AllWhole(base, AddAll(base, []), [])
  {
  }

  lemma AddLast(base: Db, rows: seq<Row>)
    requires rows != []
    ensures AddAll(base, rows) == AddOne(AddAll(base, rows[..|rows| - 1]), rows[|rows| - 1])
  {
  }

  lemma KeepsThrough(a: Db, b: Db, c: Db)
    requires KeepsBodies(a, b) && KeepsBodies(b, c)
    ensures KeepsBodies(a, c)
  {
  }

  // ---------- what is read back ----------

  lemma NoIdsJoin(a: seq<Row>, b: seq<Row>)
    ensures NoIds(a + b) == NoIds(a) + NoIds(b)
  {
  }

  ghost function Content(z: seq<Entry>, bodies: map<Member, Row>): multiset<Row> {
    multiset(NoIds(Decode(z, bodies)))
  }

  lemma ContentPush(z: seq<Entry>, e: Entry, bodies: map<Member, Row>)
    requires e.member in bodies
    ensures Content(z + [e], bodies) == Content(z, bodies) + multiset{NoId(bodies[e.member])}
  {
    assert (z + [e])[..|z|] == z;
    NoIdsJoin(Decode(z, bodies), [bodies[e.member]]);
    assert NoIds([bodies[e.member]]) == [NoId(bodies[e.member])];
  }

  /** An entry more is a record more, wherever it is put. */
  lemma {:induction false} ContentInsert(z: seq<Entry>, e: Entry, bodies: map<Member, Row>)
    requires e.member in bodies && forall x :: x in z ==> x.member in bodies
    ensures Content(Insert(z, e), bodies) == Content(z, bodies) + multiset{NoId(bodies[e.member])}
  {
    hide Content, NoId, NoIds, Leq;
    if z == [] || Leq(z[|z| - 1], e) {
      ContentPush(z, e, bodies);
    } else {
      var init, last := z[..|z| - 1], z[|z| - 1];
      assert z == init + [last];
      ContentInsert(init, e, bodies);
      ContentPush(init, last, bodies);
      ContentPush(Insert(init, e), last, bodies);
    }
  }

  /** Setting the body of a member that is not on the timeline changes nothing a reader sees. */
  lemma {:induction false} DecodeSame(z: seq<Entry>, bodies: map<Member, Row>, other: map<Member, Row>)
    requires forall e :: e in z ==> e.member in bodies && e.member in other && bodies[e.member] == other[e.member]
    ensures Decode(z, bodies) == Decode(z, other)
  {
    if z != [] {
      var init, last := z[..|z| - 1], z[|z| - 1];
      assert last in z && forall e :: e in init ==> e in z;
      DecodeSame(init, bodies, other);
    }
  }

  lemma OneMore(db: Db, r: Row)
    requires WellStored(db)
    ensures var after := AddOne(db, r);
            Content(after.timeline, after.bodies) == Content(db.timeline, db.bodies) + multiset{NoId(r)}
  {
    hide AddOne, Insert, NoIds, Decode, Content;
    Added(db, r);
    var id := Counter(db, r) + 1;
    var e, bodies := Entry(Score(r.Ts()), MemberOf(r, id)), db.bodies[MemberOf(r, id) := WithId(r, id)];
    ContentInsert(db.timeline, e, bodies);
    SameContent(db.timeline, db.bodies, bodies);
    KeptWhole(r, id);
    SameBlank(WithId(r, id), r);
  }

  lemma SameContent(z: seq<Entry>, bodies: map<Member, Row>, other: map<Member, Row>)
    requires forall e :: e in z ==> e.member in bodies && e.member in other && bodies[e.member] == other[e.member]
    ensures Content(z, bodies) == Content(z, other)
  {
    DecodeSame(z, bodies, other);
  }

  /** What is read back is what was there and what was written, each record once, and nothing else. */
  lemma {:induction false} ReadBack(base: Db, rows: seq<Row>)
    requires WellStored(base)
    ensures multiset(NoIds(Rows(AddAll(base, rows)))) == multiset(NoIds(Rows(base))) + multiset(NoIds(rows))
  {
    hide Decode, WellStored, AddOne;
    if rows == [] {
      assert NoIds(rows) == [];
    } else {
      var init, last := rows[..|rows| - 1], rows[|rows| - 1];
      ReadBack(base, init);
      CountersOf(base, init);
      OneMore(AddAll(base, init), last);
      assert rows == init + [last];
      NoIdsJoin(init, [last]);
      assert NoIds([last]) == [NoId(last)];
    }
  }

  lemma EmptyIsWell()
    ensures WellStored(EMPTY) && Rows(EMPTY) == []
  {
  }

  /** From the empty store: exactly the records written. */
  lemma ReadAll(rows: seq<Row>)
    ensures multiset(NoIds(Rows(AddAll(EMPTY, rows)))) == multiset(NoIds(rows))
    ensures |Rows(AddAll(EMPTY, rows))| == |rows|
  {
    hide AddAll, Decode, NoIds;
    EmptyIsWell();
    ReadBack(EMPTY, rows);
    NoIdsJoin([], []);
    assert |multiset(NoIds(rows))| == |rows|;
    assert |multiset(NoIds(Rows(AddAll(EMPTY, rows))))| == |Rows(AddAll(EMPTY, rows))|;
  }
}
