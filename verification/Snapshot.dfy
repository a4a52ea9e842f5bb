/** The cached snapshot when readers and writers interleave: double-checked locking on one side, invalidation
    before the write on the other. Every access to the shared pointer, the mutex or Redis is one step. */
module Snapshot {
  import opened Records
  import opened Scores
  import opened Store
  import opened StoreRecords
  import opened Batch

  // ---------- states ----------

  /** Where a call of materializedRows stands. `clean` says that no write has been under way since it began;
      `at` says how many timeline writes the rows in hand contain. */
  datatype Reader =
    | Idle
    | Wants(clean: bool)
    | Holds(clean: bool)
    | Scans(clean: bool)
    | Fetches(clean: bool, found: seq<Entry>, at: int)
    | Stores(clean: bool, rows: seq<Row>, at: int)
    | Frees(clean: bool, rows: seq<Row>, at: int)
    | Got(clean: bool, rows: seq<Row>, at: int)

  /** A record on its way into the store. */
  datatype Item = Item(member: Member, body: Row)

  /** Where a write stands: AddAlert and AddEvent are jobs of one record, a batch flush one of many. With
      `half` the body of the first record is already set. */
  datatype Writer =
    | Resting
    | Began(job: seq<Row>)
    | HasAlertIds(job: seq<Row>, start: int)
    | Sends(todo: seq<Item>, half: bool)

  datatype Snap = Snap(rows: seq<Row>, at: int)

  /** `log` remembers what the timeline decoded to after every timeline write, `written` the records of all writes
      begun so far. */
  datatype State = State(
    db: Db, snap: Option<Snap>, lock: Option<int>,
    readers: map<int, Reader>, writers: map<int, Writer>,
    log: seq<seq<Row>>, written: seq<Row>)

  const START: State := State(EMPTY, None, None, map[], map[], [[]], [])

  function ReaderAt(s: State, p: int): Reader {
    if p in s.readers then s.readers[p] else Idle
  }

  function WriterAt(s: State, w: int): Writer {
    if w in s.writers then s.writers[w] else Resting
  }

  // ---------- steps ----------

  datatype Action =
    | StartRead(p: int)
    | Acquire(p: int)
    | LoadAgain(p: int)
    | Scan(p: int)
    | Fetch(p: int)
    | Publish(p: int)
    | Release(p: int)
    | EndRead(p: int)
    | StartWrite(w: int, rows: seq<Row>)
    | ReserveAlerts(w: int)
    | ReserveEvents(w: int)
    | Send(w: int)

  /** The records of a job with the ids they get. */
  function Items(job: seq<Row>, a: int, e: int): (items: seq<Item>)
    ensures |items| == |job|
  {
    seq(|job|, i requires 0 <= i < |job| =>
      Item(MemberOf(job[i], IdAt(job, i, a, e)), WithId(job[i], IdAt(job, i, a, e))))
  }

  predicate Enabled(s: State, a: Action) {
    match a
    case StartRead(p) => ReaderAt(s, p).Idle?
    case Acquire(p) => ReaderAt(s, p).Wants? && s.lock == None
    case LoadAgain(p) => ReaderAt(s, p).Holds?
    case Scan(p) => ReaderAt(s, p).Scans?
    case Fetch(p) => ReaderAt(s, p).Fetches?
    case Publish(p) => ReaderAt(s, p).Stores?
    case Release(p) => ReaderAt(s, p).Frees?
    case EndRead(p) => ReaderAt(s, p).Got?
    case StartWrite(w, rows) => WriterAt(s, w).Resting? && rows != []
    case ReserveAlerts(w) => WriterAt(s, w).Began?
    case ReserveEvents(w) => WriterAt(s, w).HasAlertIds?
    case Send(w) => WriterAt(s, w).Sends? && WriterAt(s, w).todo != []
  }

  predicate Writing(s: State) {
    exists w :: w in s.writers && !s.writers[w].Resting?
  }

  function SetReader(s: State, p: int, r: Reader): State {
    s.(readers := s.readers[p := r])
  }

  function SetWriter(s: State, w: int, x: Writer): State {
    s.(writers := s.writers[w := x])
  }

  function Dirty(r: Reader): Reader {
    match r
    case Idle => Idle
    case Wants(_) => Wants(false)
    case Holds(_) => Holds(false)
    case Scans(_) => Scans(false)
    case Fetches(_, f, at) => Fetches(false, f, at)
    case Stores(_, rows, at) => Stores(false, rows, at)
    case Frees(_, rows, at) => Frees(false, rows, at)
    case Got(_, rows, at) => Got(false, rows, at)
  }

  /** One command of a pipeline: the body of the first record, then its timeline entry. */
  function SendOne(s: State, w: int, todo: seq<Item>, half: bool): State
    requires todo != []
  {
    var it := todo[0];
    if !half then SetWriter(s, w, Sends(todo, true)).(db := Run(s.db, Set(it.member, it.body)))
    else
      var db := Run(s.db, ZAdd(it.member, Score(it.body.Ts())));
      SetWriter(s, w, if |todo| == 1 then Resting else Sends(todo[1..], false)).(db := db, log := s.log + [Rows(db)])
  }

  function Next(s: State, a: Action): State
    requires Enabled(s, a)
  {
    match a
    case StartRead(p) =>
      var clean := !Writing(s);
      SetReader(s, p, if s.snap.Some? then Got(clean, s.snap.value.rows, s.snap.value.at) else Wants(clean))
    case Acquire(p) => SetReader(s, p, Holds(ReaderAt(s, p).clean)).(lock := Some(p))
    case LoadAgain(p) =>
      var clean := ReaderAt(s, p).clean;
      SetReader(s, p, if s.snap.Some? then Frees(clean, s.snap.value.rows, s.snap.value.at) else Scans(clean))
    case Scan(p) =>
      SetReader(s, p, Fetches(ReaderAt(s, p).clean, s.db.timeline, |s.log| - 1))
    case Fetch(p) =>
      var r := ReaderAt(s, p);
      SetReader(s, p, Stores(r.clean, Decode(r.found, s.db.bodies), r.at))
    case Publish(p) =>
      var r := ReaderAt(s, p);
      SetReader(s, p, Frees(r.clean, r.rows, r.at)).(snap := Some(Snap(r.rows, r.at)))
    case Release(p) =>
      var r := ReaderAt(s, p);
      SetReader(s, p, Got(r.clean, r.rows, r.at)).(lock := None)
    case EndRead(p) => SetReader(s, p, Idle)
    case StartWrite(w, rows) =>
      var readers := map p | p in s.readers :: Dirty(s.readers[p]);
      SetWriter(s, w, Began(rows)).(snap := None, readers := readers, written := s.written + rows)
    case ReserveAlerts(w) =>
      var job := WriterAt(s, w).job;
      SetWriter(s, w, HasAlertIds(job, s.db.nextA + 1)).(db := s.db.(nextA := s.db.nextA + Alerts(job)))
    case ReserveEvents(w) =>
      var x := WriterAt(s, w);
      SetWriter(s, w, Sends(Items(x.job, x.start, s.db.nextE + 1), false))
      .(db := s.db.(nextE := s.db.nextE + Events(x.job)))
    case Send(w) => SendOne(s, w, WriterAt(s, w).todo, WriterAt(s, w).half)
  }

  // ---------- the data ----------

  ghost predicate Timed(db: Db, m: Member) {
    Lists(db.timeline, m)
  }

  /** The members a write has reserved and not yet put on the timeline. */
  ghost predicate Claims(x: Writer, m: Member) {
    match x
    case Resting => false
    case Began(_) => false
    case HasAlertIds(job, a) => m.A? && a <= m.id < a + Alerts(job)
    case Sends(todo, _) => exists i :: 0 <= i < |todo| && todo[i].member == m
  }

  ghost predicate Reserved(db: Db, m: Member) {
    1 <= m.id <= if m.A? then db.nextA else db.nextE
  }

  ghost predicate WriterOk(db: Db, x: Writer) {
    && (x.Began? || x.HasAlertIds? ==> x.job != [])
    && (forall m :: Claims(x, m) ==> Reserved(db, m) && !Timed(db, m))
    && (x.Sends? ==>
          && x.todo != []
          && (forall i, j :: 0 <= i < j < |x.todo| ==> x.todo[i].member != x.todo[j].member)
          && (x.half ==> x.todo[0].member in db.bodies && db.bodies[x.todo[0].member] == x.todo[0].body))
  }

  ghost predicate DbOk(db: Db) {
    && db.nextA >= 0 && db.nextE >= 0
    && (forall e :: e in db.timeline ==> e.member in db.bodies && Reserved(db, e.member))
  }

  /** Every timeline member has a body; no member is claimed twice. */
  ghost predicate DataOk(s: State) {
    && DbOk(s.db)
    && (forall w :: WriterOk(s.db, WriterAt(s, w)))
    && (forall v, w, m :: v != w && Claims(WriterAt(s, v), m) ==> !Claims(WriterAt(s, w), m))
  }

  lemma DecodeFull(db: Db)
    requires DbOk(db)
    ensures |Rows(db)| == |db.timeline|
  {
    assert forall i :: 0 <= i < |db.timeline| ==> db.timeline[i] in db.timeline;
    DecodeAll(db.timeline, db.bodies);
  }

  lemma IdsApart(job: seq<Row>, i: nat, j: nat, a: int, e: int)
    requires i < j < |job| && (job[i].AlertRow? <==> job[j].AlertRow?)
    ensures IdAt(job, i, a, e) < IdAt(job, j, a, e)
  {
    CountsGrow(job, i, j);
  }

  lemma {:induction false} CountsGrow(job: seq<Row>, i: nat, j: nat)
    requires i <= j <= |job|
    ensures Alerts(job[..i]) <= Alerts(job[..j]) && Events(job[..i]) <= Events(job[..j])
    ensures i < j && job[i].AlertRow? ==> Alerts(job[..i]) < Alerts(job[..j])
    ensures i < j && job[i].EventRow? ==> Events(job[..i]) < Events(job[..j])
    decreases j
  {
    if i < j {
      assert job[..j][..j - 1] == job[..j - 1];
      CountsGrow(job, i, j - 1);
    }
  }

  /** A job's members: its alert ids and its event ids, none twice. */
  lemma ItemsOk(job: seq<Row>, a: int, e: int)
    ensures var items := Items(job, a, e);
            && (forall i, j :: 0 <= i < j < |items| ==> items[i].member != items[j].member)
            && (forall i :: 0 <= i < |items| ==> var m := items[i].member;
                  if m.A? then a <= m.id < a + Alerts(job) else e <= m.id < e + Events(job))
  {
    var items := Items(job, a, e);
    forall i, j | 0 <= i < j < |items|
      ensures items[i].member != items[j].member
    {
      if job[i].AlertRow? <==> job[j].AlertRow? {
        IdsApart(job, i, j, a, e);
      }
    }
    forall i | 0 <= i < |items|
      ensures var m := items[i].member; if m.A? then a <= m.id < a + Alerts(job) else e <= m.id < e + Events(job)
    {
      CountsGrow(job, i, |job|);
      assert job[..|job|] == job;
    }
  }

  // ---------- the data survives every step ----------

  /** A writer that is not touched stays well-formed if the counters only grow and its claims stay off the timeline. */
  lemma DataReserveAlerts(s: State, w: int)
    requires DataOk(s) && Enabled(s, ReserveAlerts(w))
    ensures DataOk(Next(s, ReserveAlerts(w)))
  {
    var t := Next(s, ReserveAlerts(w));
    var job := WriterAt(s, w).job;
    forall v
      ensures WriterOk(t.db, WriterAt(t, v))
    {
      assert WriterOk(s.db, WriterAt(s, v));
      if v == w {
        forall m | Claims(WriterAt(t, w), m)
          ensures Reserved(t.db, m) && !Timed(t.db, m)
        {
        }
      }
    }
    forall u, v, m | u != v && Claims(WriterAt(t, u), m)
      ensures !Claims(WriterAt(t, v), m)
    {
      assert WriterOk(s.db, WriterAt(s, u)) && WriterOk(s.db, WriterAt(s, v));
      assert u != w ==> Claims(WriterAt(s, u), m) && Reserved(s.db, m);
    }
  }

  lemma DataReserveEvents(s: State, w: int)
    requires DataOk(s) && Enabled(s, ReserveEvents(w))
    ensures DataOk(Next(s, ReserveEvents(w)))
  {
    hide Items;
    var t := Next(s, ReserveEvents(w));
    var x := WriterAt(s, w);
    ItemsOk(x.job, x.start, s.db.nextE + 1);
    assert WriterOk(s.db, x);
    forall m | Claims(WriterAt(t, w), m)
      ensures Reserved(t.db, m) && !Timed(t.db, m)
      ensures Claims(x, m) || (m.E? && m.id > s.db.nextE)
    {
      if m.A? {
        assert Claims(x, m);
      }
    }
    forall v
      ensures WriterOk(t.db, WriterAt(t, v))
    {
      assert WriterOk(s.db, WriterAt(s, v));
    }
    forall u, v, m | u != v && Claims(WriterAt(t, u), m)
      ensures !Claims(WriterAt(t, v), m)
    {
      assert WriterOk(s.db, WriterAt(s, u)) && WriterOk(s.db, WriterAt(s, v));
      assert u != w ==> Claims(WriterAt(s, u), m) && Reserved(s.db, m);
    }
  }

  lemma TimedAfter(db: Db, m: Member, score: int)
    requires !Timed(db, m)
    ensures var after := Run(db, ZAdd(m, score));
            && after == db.(timeline := Insert(db.timeline, Entry(score, m)))
            && (forall e :: e in after.timeline <==> e == Entry(score, m) || e in db.timeline)
            && |after.timeline| == |db.timeline| + 1
  {
    forall i | 0 <= i < |db.timeline|
      ensures db.timeline[i].member != m
    {
      assert db.timeline[i] in db.timeline;
    }
    RemoveAbsent(db.timeline, m);
    InsertMembers(db.timeline, Entry(score, m));
  }

  lemma DataSend(s: State, w: int)
    requires DataOk(s) && Enabled(s, Send(w))
    ensures DataOk(Next(s, Send(w)))
  {
    hide Rows, Score, Insert, Remove;
    var t := Next(s, Send(w));
    var x := WriterAt(s, w);
    var it := x.todo[0];
    assert WriterOk(s.db, x) && Claims(x, it.member);
    if x.half {
      var score := Score(it.body.Ts());
      TimedAfter(s.db, it.member, score);
      SendTimes(s, w, t, it, score);
    } else {
      SendBody(s, w, t, it);
    }
  }

  lemma SendBody(s: State, w: int, t: State, it: Item)
    requires DataOk(s) && WriterAt(s, w).Sends? && WriterAt(s, w).todo != [] && WriterAt(s, w).todo[0] == it
    requires t.db == s.db.(bodies := s.db.bodies[it.member := it.body])
    requires t.writers == s.writers[w := Sends(WriterAt(s, w).todo, true)]
    ensures DataOk(t)
  {
    var x := WriterAt(s, w);
    assert Claims(x, it.member);
    assert forall m :: Timed(t.db, m) <==> Timed(s.db, m);
    assert forall m :: Claims(WriterAt(t, w), m) <==> Claims(x, m);
    forall v
      ensures WriterOk(t.db, WriterAt(t, v))
    {
      assert WriterOk(s.db, WriterAt(s, v));
      if v != w && WriterAt(s, v).Sends? {
        assert Claims(WriterAt(s, v), WriterAt(s, v).todo[0].member);
      }
    }
    forall u, v, m | u != v && Claims(WriterAt(t, u), m)
      ensures !Claims(WriterAt(t, v), m)
    {
      assert Claims(WriterAt(s, u), m);
      assert Claims(WriterAt(t, v), m) ==> Claims(WriterAt(s, v), m);
    }
  }

  lemma SendTimes(s: State, w: int, t: State, it: Item, score: int)
    requires DataOk(s) && WriterAt(s, w).Sends? && WriterAt(s, w).todo != [] && WriterAt(s, w).todo[0] == it
    requires WriterAt(s, w).half
    requires t.db.bodies == s.db.bodies && t.db.nextA == s.db.nextA && t.db.nextE == s.db.nextE
    requires forall e :: e in t.db.timeline <==> e == Entry(score, it.member) || e in s.db.timeline
    requires var todo := WriterAt(s, w).todo;
             t.writers == s.writers[w := if |todo| == 1 then Resting else Sends(todo[1..], false)]
    ensures DataOk(t)
  {
    var x := WriterAt(s, w);
    var y := WriterAt(t, w);
    assert WriterOk(s.db, x) && Claims(x, it.member);
    assert forall m :: Timed(t.db, m) ==> m == it.member || Timed(s.db, m);
    forall m | Claims(y, m)
      ensures Claims(x, m) && m != it.member
    {
      var i :| 0 <= i < |y.todo| && y.todo[i].member == m;
      assert x.todo[i + 1].member == m;
    }
    forall v
      ensures WriterOk(t.db, WriterAt(t, v))
    {
      assert WriterOk(s.db, WriterAt(s, v));
    }
    forall u, v, m | u != v && Claims(WriterAt(t, u), m)
      ensures !Claims(WriterAt(t, v), m)
    {
      assert Claims(WriterAt(s, u), m);
      assert Claims(WriterAt(t, v), m) ==> Claims(WriterAt(s, v), m);
    }
  }

  // ---------- the readers ----------

  predicate InRebuild(r: Reader) {
    r.Scans? || r.Fetches? || r.Stores?
  }

  predicate InLock(r: Reader) {
    r.Holds? || InRebuild(r) || r.Frees?
  }

  /** The lock is held by exactly the reader that is in the locked section. */
  ghost predicate LockOk(s: State) {
    forall p :: InLock(ReaderAt(s, p)) <==> s.lock == Some(p)
  }

  /** The log ends with the current data and grows by one row a timeline write. */
  ghost predicate LogOk(s: State) {
    && s.log != [] && s.log[|s.log| - 1] == Rows(s.db)
    && forall k :: 0 <= k < |s.log| ==> |s.log[k]| == k
  }

  ghost predicate IsPast(s: State, rows: seq<Row>, at: int) {
    0 <= at < |s.log| && rows == s.log[at]
  }

  ghost predicate ReaderOk(s: State, r: Reader) {
    && (r.Fetches? ==> IsPast(s, Decode(r.found, s.db.bodies), r.at) && forall e :: e in r.found ==> e in s.db.timeline)
    && (r.Stores? || r.Frees? || r.Got? ==> IsPast(s, r.rows, r.at))
    && (InRebuild(r) ==> s.snap == None)
  }

  ghost predicate ReadersOk(s: State) {
    && (forall p :: ReaderOk(s, ReaderAt(s, p)))
    && (s.snap.Some? ==> IsPast(s, s.snap.value.rows, s.snap.value.at))
  }

  ghost predicate Inv(s: State) {
    DataOk(s) && LockOk(s) && LogOk(s) && ReadersOk(s)
  }

  lemma StartOk()
    ensures Inv(START)
  {
    assert Rows(EMPTY) == [];
  }

  predicate IsReaderStep(a: Action) {
    a.StartRead? || a.Acquire? || a.LoadAgain? || a.Scan? || a.Fetch? || a.Publish? || a.Release? || a.EndRead?
  }

  lemma ReaderStepKeeps(s: State, a: Action)
    requires Inv(s) && Enabled(s, a) && IsReaderStep(a)
    ensures Inv(Next(s, a))
  {
    hide Decode, WriterOk, DbOk, Claims;
    var t := Next(s, a);
    var p := a.p;
    assert t.db == s.db && t.writers == s.writers && t.log == s.log;
    assert DataOk(t) by {
      assert forall w :: WriterAt(t, w) == WriterAt(s, w);
    }
    assert ReaderOk(s, ReaderAt(s, p));
    forall q
      ensures InLock(ReaderAt(t, q)) <==> t.lock == Some(q)
      ensures ReaderOk(t, ReaderAt(t, q))
    {
      assert ReaderOk(s, ReaderAt(s, q));
      assert InLock(ReaderAt(s, q)) <==> s.lock == Some(q);
      assert InLock(ReaderAt(s, p)) <==> s.lock == Some(p);
    }
  }

  lemma DirtySame(s: State, r: Reader)
    ensures InLock(Dirty(r)) == InLock(r) && InRebuild(Dirty(r)) == InRebuild(r)
    ensures ReaderOk(s, r) ==> ReaderOk(s, Dirty(r))
  {
  }

  lemma StartWriteKeeps(s: State, w: int, rows: seq<Row>)
    requires Inv(s) && Enabled(s, StartWrite(w, rows))
    ensures Inv(Next(s, StartWrite(w, rows)))
  {
    hide Rows, Decode;
    var t := Next(s, StartWrite(w, rows));
    forall v
      ensures WriterOk(t.db, WriterAt(t, v))
    {
      assert WriterOk(s.db, WriterAt(s, v));
    }
    forall u, v, m | u != v && Claims(WriterAt(t, u), m)
      ensures !Claims(WriterAt(t, v), m)
    {
      assert Claims(WriterAt(s, u), m);
      assert Claims(WriterAt(t, v), m) ==> Claims(WriterAt(s, v), m);
    }
    forall q
      ensures InLock(ReaderAt(t, q)) <==> t.lock == Some(q)
      ensures ReaderOk(t, ReaderAt(t, q))
    {
      assert ReaderOk(s, ReaderAt(s, q));
      assert InLock(ReaderAt(s, q)) <==> s.lock == Some(q);
      assert ReaderAt(t, q) == Dirty(ReaderAt(s, q));
      DirtySame(s, ReaderAt(s, q));
    }
  }

  /** A step that leaves bodies, timeline, log and readers alone. */
  lemma ReadersUntouched(s: State, t: State)
    requires LockOk(s) && LogOk(s) && ReadersOk(s)
    requires t.readers == s.readers && t.snap == s.snap && t.lock == s.lock && t.log == s.log
    requires t.db.bodies == s.db.bodies && t.db.timeline == s.db.timeline
    ensures LockOk(t) && LogOk(t) && ReadersOk(t)
  {
    hide Decode;
    forall q
      ensures InLock(ReaderAt(t, q)) <==> t.lock == Some(q)
      ensures ReaderOk(t, ReaderAt(t, q))
    {
      assert ReaderOk(s, ReaderAt(s, q));
      assert InLock(ReaderAt(s, q)) <==> s.lock == Some(q);
    }
  }

  /** What readers hold stays true when a body off the timeline is set or the timeline grows. */
  lemma ReadersSend(s: State, t: State, m: Member)
    requires LockOk(s) && ReadersOk(s) && DbOk(s.db)
    requires t.readers == s.readers && t.snap == s.snap && t.lock == s.lock
    requires s.log <= t.log && !Timed(s.db, m)
    requires forall e :: e in s.db.timeline ==> e in t.db.timeline
    requires forall x :: x in s.db.bodies && x != m ==> x in t.db.bodies && t.db.bodies[x] == s.db.bodies[x]
    ensures LockOk(t) && ReadersOk(t)
  {
    hide Decode;
    forall q
      ensures InLock(ReaderAt(t, q)) <==> t.lock == Some(q)
      ensures ReaderOk(t, ReaderAt(t, q))
    {
      var r := ReaderAt(s, q);
      assert ReaderOk(s, r);
      assert InLock(r) <==> s.lock == Some(q);
      if r.Fetches? {
        DecodeSame(r.found, s.db.bodies, t.db.bodies);
      }
    }
  }

  lemma SendKeeps(s: State, w: int)
    requires Inv(s) && Enabled(s, Send(w))
    ensures Inv(Next(s, Send(w)))
  {
    hide Decode, Score, DataOk, LockOk, ReadersOk;
    var t := Next(s, Send(w));
    DataSend(s, w);
    assert DbOk(s.db) && DbOk(t.db) && WriterOk(s.db, WriterAt(s, w)) by {
      SendFacts(s, w);
      SendFacts2(t);
    }
    var it := WriterAt(s, w).todo[0];
    assert Claims(WriterAt(s, w), it.member);
    if WriterAt(s, w).half {
      TimedAfter(s.db, it.member, Score(it.body.Ts()));
      DecodeFull(t.db);
      DecodeFull(s.db);
      assert Rows(s.db) == s.log[|s.log| - 1];
    } else {
      DecodeSame(s.db.timeline, s.db.bodies, t.db.bodies);
    }
    ReadersSend(s, t, it.member);
  }

  lemma SendFacts(s: State, w: int)
    requires DataOk(s)
    ensures DbOk(s.db) && WriterOk(s.db, WriterAt(s, w))
  {
  }

  lemma SendFacts2(t: State)
    requires DataOk(t)
    ensures DbOk(t.db)
  {
  }

  /** Every step keeps the invariant. */
  lemma StepKeeps(s: State, a: Action)
    requires Inv(s) && Enabled(s, a)
    ensures Inv(Next(s, a))
  {
    if IsReaderStep(a) {
      ReaderStepKeeps(s, a);
    } else if a.StartWrite? {
      StartWriteKeeps(s, a.w, a.rows);
    } else if a.ReserveAlerts? {
      DataReserveAlerts(s, a.w);
      ReadersUntouched(s, Next(s, a));
    } else if a.ReserveEvents? {
      DataReserveEvents(s, a.w);
      ReadersUntouched(s, Next(s, a));
    } else {
      SendKeeps(s, a.w);
    }
  }

  // ---------- the commands of a batch ----------

  function CmdsOf(items: seq<Item>): seq<Cmd> {
    if items == [] then []
    else
      var it := items[|items| - 1];
      CmdsOf(items[..|items| - 1]) + [Set(it.member, it.body), ZAdd(it.member, Score(it.body.Ts()))]
  }

  /** The steps of a write are the commands of the batch's pipeline, in order. */
  lemma {:induction false} ItemsArePipe(job: seq<Row>, n: nat, a: int, e: int)
    requires n <= |job|
    ensures CmdsOf(Items(job, a, e)[..n]) == Pipe(job, n, a, e)
  {
    if n > 0 {
      var items := Items(job, a, e);
      ItemsArePipe(job, n - 1, a, e);
      assert items[..n][..n - 1] == items[..n - 1];
    }
  }
}
