/** What the store holds while writes interleave: no id is lost, and whenever no write is under way the data are as
    good as after serial writing. */
module SnapshotStore {
  import opened Records
  import opened Scores
  import opened Store
  import opened Batch
  import opened Snapshot

  // ---------- the invariant ----------

  ghost predicate Fits(m: Member, body: Row) {
    body.Id() == m.id && (body.AlertRow? <==> m.A?)
  }

  /** The timeline is in order, holds no member twice, and every entry has the score of its body. */
  ghost predicate TimelineFits(db: Db) {
    && InOrder(db.timeline) && Distinct(db.timeline)
    && (forall e :: e in db.timeline ==> e.member in db.bodies && e.score == Score(db.bodies[e.member].Ts()))
  }

  ghost predicate BodiesFit(db: Db) {
    forall m :: m in db.bodies ==> Reserved(db, m) && Fits(m, db.bodies[m])
  }

  ghost predicate ItemsFit(x: Writer) {
    x.Sends? ==> forall i :: 0 <= i < |x.todo| ==> Fits(x.todo[i].member, x.todo[i].body)
  }

  ghost predicate Claimed(s: State, m: Member) {
    exists w :: Claims(WriterAt(s, w), m)
  }

  /** Every id handed out is on the timeline or still to be put there. */
  ghost predicate Accounted(s: State) {
    forall m :: Reserved(s.db, m) ==> Timed(s.db, m) || Claimed(s, m)
  }

  ghost predicate Filled(s: State) {
    TimelineFits(s.db) && BodiesFit(s.db) && Accounted(s) && forall w :: ItemsFit(WriterAt(s, w))
  }

  /** With no write under way, the data are what serial writing could have left. */
  lemma QuietIsWellStored(s: State)
    requires DataOk(s) && Filled(s) && !Writing(s)
    ensures WellStored(s.db)
  {
    hide InOrder, Distinct, Score;
    forall m | Reserved(s.db, m)
      ensures Timed(s.db, m) && m in s.db.bodies
    {
      assert forall w :: WriterAt(s, w).Resting?;
      assert !Claimed(s, m);
      var e :| e in s.db.timeline && e.member == m;
    }
    assert IdsOk(s.db) by {
      QuietIds(s.db);
    }
    forall m | m in s.db.bodies
      ensures Lists(s.db.timeline, m)
    {
      assert Timed(s.db, m);
    }
  }

  lemma QuietIds(db: Db)
    requires db.nextA >= 0 && db.nextE >= 0 && BodiesFit(db) && forall m :: Reserved(db, m) ==> m in db.bodies
    ensures IdsOk(db)
  {
    assert forall m :: m in db.bodies <==> Reserved(db, m);
  }

  // ---------- every id of a job is one of its items ----------

  /** The alert of a job that gets the k-th alert id. */
  lemma {:induction false} AlertAt(job: seq<Row>, k: int) returns (i: nat)
    requires 0 <= k < Alerts(job)
    ensures i < |job| && job[i].AlertRow? && Alerts(job[..i]) == k
  {
    var n := |job| - 1;
    if job[n].AlertRow? && k == Alerts(job[..n]) {
      i := n;
    } else {
      i := AlertAt(job[..n], k);
      assert job[..n][..i] == job[..i];
    }
  }

  lemma {:induction false} EventAt(job: seq<Row>, k: int) returns (i: nat)
    requires 0 <= k < Events(job)
    ensures i < |job| && job[i].EventRow? && Events(job[..i]) == k
  {
    var n := |job| - 1;
    if job[n].EventRow? && k == Events(job[..n]) {
      i := n;
    } else {
      i := EventAt(job[..n], k);
      assert job[..n][..i] == job[..i];
    }
  }

  lemma ItemsCover(job: seq<Row>, a: int, e: int, m: Member)
    requires if m.A? then a <= m.id < a + Alerts(job) else e <= m.id < e + Events(job)
    ensures Claims(Sends(Items(job, a, e), false), m)
  {
    hide Alerts, Events;
    if m.A? {
      var i := AlertAt(job, m.id - a);
      assert Items(job, a, e)[i].member == m;
    } else {
      var i := EventAt(job, m.id - e);
      assert Items(job, a, e)[i].member == m;
    }
  }

  // ---------- every step keeps it ----------

  /** A step that leaves the data alone and takes no claim away. */
  lemma SameData(s: State, t: State)
    requires Filled(s) && t.db == s.db && forall w :: ItemsFit(WriterAt(t, w))
    requires forall w, m :: Claims(WriterAt(s, w), m) ==> Claims(WriterAt(t, w), m)
    ensures Filled(t)
  {
    hide TimelineFits, BodiesFit, ItemsFit;
    forall m | Reserved(t.db, m)
      ensures Timed(t.db, m) || Claimed(t, m)
    {
      if Claimed(s, m) {
        var w :| Claims(WriterAt(s, w), m);
        assert Claims(WriterAt(t, w), m);
      }
    }
  }

  lemma FilledReserveAlerts(s: State, w: int)
    requires DataOk(s) && Filled(s) && Enabled(s, ReserveAlerts(w))
    ensures Filled(Next(s, ReserveAlerts(w)))
  {
    hide TimelineFits, Alerts;
    var t := Next(s, ReserveAlerts(w));
    assert TimelineFits(t.db) by {
      SameTimeline(s.db, t.db);
    }
    forall v
      ensures ItemsFit(WriterAt(t, v))
    {
      assert ItemsFit(WriterAt(s, v));
    }
    forall m | Reserved(t.db, m)
      ensures Timed(t.db, m) || Claimed(t, m)
    {
      if !Reserved(s.db, m) {
        assert Claims(WriterAt(t, w), m);
      } else if Timed(s.db, m) {
        assert Timed(t.db, m);
      } else {
        var v :| Claims(WriterAt(s, v), m);
        assert Claims(WriterAt(t, v), m);
      }
    }
  }

  lemma SameTimeline(db: Db, after: Db)
    requires TimelineFits(db) && after.timeline == db.timeline && after.bodies == db.bodies
    ensures TimelineFits(after)
  {
  }

  lemma FilledReserveEvents(s: State, w: int)
    requires DataOk(s) && Filled(s) && Enabled(s, ReserveEvents(w))
    ensures Filled(Next(s, ReserveEvents(w)))
  {
    hide TimelineFits, Alerts, Events, DataOk, IdAt;
    var t := Next(s, ReserveEvents(w));
    var x := WriterAt(s, w);
    assert TimelineFits(t.db) by {
      SameTimeline(s.db, t.db);
    }
    forall v
      ensures ItemsFit(WriterAt(t, v))
    {
      assert ItemsFit(WriterAt(s, v));
    }
    hide Items, ItemsFit;
    forall m | Reserved(t.db, m)
      ensures Timed(t.db, m) || Claimed(t, m)
    {
      if !Reserved(s.db, m) {
        ItemsCover(x.job, x.start, s.db.nextE + 1, m);
        assert Claims(WriterAt(t, w), m);
      } else if Timed(s.db, m) {
        assert Timed(t.db, m);
      } else {
        var v :| Claims(WriterAt(s, v), m);
        if v == w {
          ItemsCover(x.job, x.start, s.db.nextE + 1, m);
        }
        assert Claims(WriterAt(t, v), m);
      }
    }
  }

  lemma FilledSend(s: State, w: int)
    requires DataOk(s) && Filled(s) && Enabled(s, Send(w))
    ensures Filled(Next(s, Send(w)))
  {
    var it := WriterAt(s, w).todo[0];
    assert ItemsFit(WriterAt(s, w)) && WriterOk(s.db, WriterAt(s, w));
    assert Claims(WriterAt(s, w), it.member);
    if WriterAt(s, w).half {
      FilledTime(s, w, it);
    } else {
      FilledBody(s, w, it);
    }
  }

  lemma FilledBody(s: State, w: int, it: Item)
    requires Filled(s) && Enabled(s, Send(w)) && !WriterAt(s, w).half && it == WriterAt(s, w).todo[0]
    requires Fits(it.member, it.body) && Reserved(s.db, it.member) && !Timed(s.db, it.member)
    ensures Filled(Next(s, Send(w)))
  {
    hide InOrder, Distinct, Score, Rows;
    var t := Next(s, Send(w));
    assert t.db == s.db.(bodies := s.db.bodies[it.member := it.body]);
    assert forall m :: Timed(t.db, m) <==> Timed(s.db, m);
    forall v
      ensures ItemsFit(WriterAt(t, v))
    {
      assert ItemsFit(WriterAt(s, v)) && ItemsFit(WriterAt(s, w));
    }
    forall m | Reserved(t.db, m)
      ensures Timed(t.db, m) || Claimed(t, m)
    {
      if !Timed(s.db, m) {
        var v :| Claims(WriterAt(s, v), m);
        assert Claims(WriterAt(t, v), m);
      }
    }
  }

  lemma FilledTime(s: State, w: int, it: Item)
    requires Filled(s) && Enabled(s, Send(w)) && WriterAt(s, w).half && it == WriterAt(s, w).todo[0]
    requires !Timed(s.db, it.member) && it.member in s.db.bodies && s.db.bodies[it.member] == it.body
    ensures Filled(Next(s, Send(w)))
  {
    hide InOrder, Distinct, Score, Rows, Insert, Remove, Fits;
    var t := Next(s, Send(w));
    var e := Entry(Score(it.body.Ts()), it.member);
    TimedAfter(s.db, it.member, e.score);
    TimelineTakes(s.db, e);
    forall v
      ensures ItemsFit(WriterAt(t, v))
    {
      assert ItemsFit(WriterAt(s, v)) && ItemsFit(WriterAt(s, w));
    }
    forall m | Reserved(t.db, m)
      ensures Timed(t.db, m) || Claimed(t, m)
    {
      if m == it.member {
        assert e in t.db.timeline;
      } else if Timed(s.db, m) {
        var f :| f in s.db.timeline && f.member == m;
        assert f in t.db.timeline;
      } else {
        StillClaimed(s, w, m);
      }
    }
  }

  /** A writer gives up a claim only when it puts the member on the timeline. */
  lemma StillClaimed(s: State, w: int, m: Member)
    requires Enabled(s, Send(w)) && WriterAt(s, w).half && m != WriterAt(s, w).todo[0].member && Claimed(s, m)
    ensures Claimed(Next(s, Send(w)), m)
  {
    hide Rows;
    var t := Next(s, Send(w));
    var v :| Claims(WriterAt(s, v), m);
    if v == w {
      var todo := WriterAt(s, w).todo;
      var i :| 0 <= i < |todo| && todo[i].member == m;
      assert WriterAt(t, w).todo[i - 1].member == m;
    }
    assert Claims(WriterAt(t, v), m);
  }

  lemma TimelineTakes(db: Db, e: Entry)
    requires TimelineFits(db) && !Timed(db, e.member)
    requires e.member in db.bodies && e.score == Score(db.bodies[e.member].Ts())
    ensures TimelineFits(db.(timeline := Insert(db.timeline, e)))
  {
    hide InOrder, Distinct, Score, Insert;
    InsertMembers(db.timeline, e);
    InsertInOrder(db.timeline, e);
    InsertDistinct(db.timeline, e);
  }

  /** Every step, in any interleaving. */
  lemma FilledStep(s: State, a: Action)
    requires Inv(s) && Filled(s) && Enabled(s, a)
    ensures Filled(Next(s, a))
  {
    hide Filled, Inv, LockOk, LogOk, ReadersOk;
    assert DataOk(s) by {
      InvData(s);
    }
    if IsReaderStep(a) || a.StartWrite? {
      FilledQuiet(s, a);
    } else if a.ReserveAlerts? {
      FilledReserveAlerts(s, a.w);
    } else if a.ReserveEvents? {
      FilledReserveEvents(s, a.w);
    } else {
      FilledSend(s, a.w);
    }
  }

  lemma InvData(s: State)
    requires Inv(s)
    ensures DataOk(s)
  {
  }

  lemma FilledQuiet(s: State, a: Action)
    requires Filled(s) && Enabled(s, a) && (IsReaderStep(a) || a.StartWrite?)
    ensures Filled(Next(s, a))
  {
    hide Rows, Decode;
    var t := Next(s, a);
    forall w
      ensures ItemsFit(WriterAt(t, w))
      ensures forall m :: Claims(WriterAt(s, w), m) ==> Claims(WriterAt(t, w), m)
    {
      assert ItemsFit(WriterAt(s, w));
    }
    SameData(s, t);
  }
}
