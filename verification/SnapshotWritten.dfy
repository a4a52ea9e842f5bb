/** Nothing is lost while writes interleave: what has been written is on the timeline or still to be put there, every
    record once and whole. */
module SnapshotWritten {
  import opened Records
  import opened Scores
  import opened Store
  import opened StoreRecords
  import opened Batch
  import opened Snapshot
  import opened SnapshotRuns

  // ---------- what a write still has to put on the timeline ----------

  function Bodies(todo: seq<Item>): (rows: seq<Row>)
    ensures |rows| == |todo| && forall i :: 0 <= i < |todo| ==> rows[i] == todo[i].body
  {
    seq(|todo|, i requires 0 <= i < |todo| => todo[i].body)
  }

  function Owed(x: Writer): multiset<Row> {
    match x
    case Resting => multiset{}
    case Began(job) => multiset(NoIds(job))
    case HasAlertIds(job, _) => multiset(NoIds(job))
    case Sends(todo, _) => multiset(NoIds(Bodies(todo)))
  }

  ghost function AllOwed(ws: map<int, Writer>, ks: set<int>): multiset<Row>
    requires ks <= ws.Keys
  {
    if exists k :: k in ks then
      var k :| k in ks;
      Owed(ws[k]) + AllOwed(ws, ks - {k})
    else multiset{}
  }

  lemma OwedSome(ws: map<int, Writer>, ks: set<int>) returns (k: int)
    requires ks <= ws.Keys && exists k :: k in ks
    ensures k in ks && AllOwed(ws, ks) == Owed(ws[k]) + AllOwed(ws, ks - {k})
  {
    hide Owed;
    k :| k in ks && AllOwed(ws, ks) == Owed(ws[k]) + AllOwed(ws, ks - {k});
  }

  lemma {:induction false} OwedTake(ws: map<int, Writer>, ks: set<int>, k: int)
    requires ks <= ws.Keys && k in ks
    ensures AllOwed(ws, ks) == Owed(ws[k]) + AllOwed(ws, ks - {k})
  {
    hide AllOwed, Owed;
    var j := OwedSome(ws, ks);
    if j != k {
      OwedTake(ws, ks - {j}, k);
      OwedTake(ws, ks - {k}, j);
      assert ks - {j} - {k} == ks - {k} - {j};
    }
  }

  lemma {:induction false} OwedSame(ws: map<int, Writer>, xs: map<int, Writer>, ks: set<int>)
    requires ks <= ws.Keys && ks <= xs.Keys && forall k :: k in ks ==> Owed(ws[k]) == Owed(xs[k])
    ensures AllOwed(ws, ks) == AllOwed(xs, ks)
  {
    hide Owed;
    if exists k :: k in ks {
      hide AllOwed;
      var k := OwedSome(ws, ks);
      OwedTake(xs, ks, k);
      OwedSame(ws, xs, ks - {k});
    }
  }

  /** One writer moves on. */
  lemma OwedUpdate(ws: map<int, Writer>, w: int, x: Writer)
    ensures var before := if w in ws then Owed(ws[w]) else multiset{};
            AllOwed(ws[w := x], ws.Keys + {w}) + before == AllOwed(ws, ws.Keys) + Owed(x)
  {
    hide AllOwed, Owed;
    var xs, others := ws[w := x], ws.Keys - {w};
    OwedTake(xs, ws.Keys + {w}, w);
    assert ws.Keys + {w} - {w} == others;
    OwedSame(ws, xs, others);
    if w in ws {
      OwedTake(ws, ws.Keys, w);
    } else {
      assert others == ws.Keys;
    }
  }

  lemma {:induction false} OwedNothing(ws: map<int, Writer>, ks: set<int>)
    requires ks <= ws.Keys && forall k :: k in ks ==> ws[k].Resting?
    ensures AllOwed(ws, ks) == multiset{}
  {
    if exists k :: k in ks {
      var k := OwedSome(ws, ks);
      OwedNothing(ws, ks - {k});
    }
  }

  // ---------- the balance ----------

  /** What can be read and what is still owed are what has been written. */
  ghost predicate Balanced(s: State) {
    multiset(NoIds(Rows(s.db))) + AllOwed(s.writers, s.writers.Keys) == multiset(NoIds(s.written))
  }

  /** A step of one writer that changes what it owes by as much as what can be read or is written. */
  lemma Balance(s: State, t: State, w: int, x: Writer, read: multiset<Row>, more: multiset<Row>)
    requires Balanced(s) && t.writers == s.writers[w := x]
    requires multiset(NoIds(Rows(t.db))) == multiset(NoIds(Rows(s.db))) + read
    requires multiset(NoIds(t.written)) == multiset(NoIds(s.written)) + more
    requires Owed(x) + read == Owed(WriterAt(s, w)) + more
    ensures Balanced(t)
  {
    OwedUpdate(s.writers, w, x);
    assert Owed(WriterAt(s, w)) == if w in s.writers then Owed(s.writers[w]) else multiset{};
    assert t.writers.Keys == s.writers.Keys + {w};
    hide AllOwed, Owed, Rows, NoIds;
    Bookkeep(multiset(NoIds(Rows(s.db))), AllOwed(s.writers, s.writers.Keys), multiset(NoIds(s.written)),
             AllOwed(t.writers, t.writers.Keys), Owed(WriterAt(s, w)), Owed(x), read, more);
  }

  lemma Bookkeep(r: multiset<Row>, o: multiset<Row>, w: multiset<Row>, o': multiset<Row>, was: multiset<Row>,
                 now: multiset<Row>, read: multiset<Row>, more: multiset<Row>)
    requires r + o == w && o' + was == o + now && now + read == was + more
    ensures (r + read) + o' == w + more
  {
    forall x: Row
      ensures ((r + read) + o')[x] == (w + more)[x]
    {
      assert (r + o)[x] == w[x] && (o' + was)[x] == (o + now)[x] && (now + read)[x] == (was + more)[x];
    }
  }

  lemma StartBalanced(s: State, w: int, rows: seq<Row>)
    requires Balanced(s) && Enabled(s, StartWrite(w, rows))
    ensures Balanced(Next(s, StartWrite(w, rows)))
  {
    hide Rows, NoIds;
    NoIdsJoin(s.written, rows);
    Balance(s, Next(s, StartWrite(w, rows)), w, Began(rows), multiset{}, multiset(NoIds(rows)));
  }

  lemma ReserveAlertsBalanced(s: State, w: int)
    requires Balanced(s) && Enabled(s, ReserveAlerts(w))
    ensures Balanced(Next(s, ReserveAlerts(w)))
  {
    hide NoIds, Decode;
    var t := Next(s, ReserveAlerts(w));
    Balance(s, t, w, t.writers[w], multiset{}, multiset{});
  }

  lemma ReserveEventsBalanced(s: State, w: int)
    requires Balanced(s) && Enabled(s, ReserveEvents(w))
    ensures Balanced(Next(s, ReserveEvents(w)))
  {
    hide NoIds, Decode, Items, Bodies, AllOwed, Owed, Balanced;
    var x := WriterAt(s, w);
    OwedItems(x.job, x.start, s.db.nextE + 1);
    var t := Next(s, ReserveEvents(w));
    assert Rows(t.db) == Rows(s.db);
    hide Rows;
    Balance(s, t, w, t.writers[w], multiset{}, multiset{});
  }

  lemma OwedItems(job: seq<Row>, a: int, e: int)
    ensures Owed(Sends(Items(job, a, e), false)) == Owed(HasAlertIds(job, a))
  {
    hide NoIds, Items, Bodies;
    ItemsWhole(job, a, e);
  }

  /** The items of a job are its records, with ids. */
  lemma ItemsWhole(job: seq<Row>, a: int, e: int)
    ensures NoIds(Bodies(Items(job, a, e))) == NoIds(job)
  {
    hide IdAt, WithId, NoId;
    forall i | 0 <= i < |job|
      ensures NoIds(Bodies(Items(job, a, e)))[i] == NoIds(job)[i]
    {
      KeptWhole(job[i], IdAt(job, i, a, e));
      SameBlank(WithId(job[i], IdAt(job, i, a, e)), job[i]);
    }
  }

  lemma SendBalanced(s: State, w: int)
    requires DataOk(s) && Balanced(s) && Enabled(s, Send(w))
    ensures Balanced(Next(s, Send(w)))
  {
    var it := WriterAt(s, w).todo[0];
    assert WriterOk(s.db, WriterAt(s, w)) && Claims(WriterAt(s, w), it.member);
    if WriterAt(s, w).half {
      TimeBalanced(s, w, it);
    } else {
      BodyBalanced(s, w, it);
    }
  }

  lemma BodyBalanced(s: State, w: int, it: Item)
    requires DbOk(s.db) && Balanced(s) && Enabled(s, Send(w)) && !WriterAt(s, w).half && it == WriterAt(s, w).todo[0]
    requires !Timed(s.db, it.member)
    ensures Balanced(Next(s, Send(w)))
  {
    var t := Next(s, Send(w));
    DecodeSame(s.db.timeline, s.db.bodies, t.db.bodies);
    hide NoIds, Decode;
    Balance(s, t, w, t.writers[w], multiset{}, multiset{});
  }

  lemma TimeBalanced(s: State, w: int, it: Item)
    requires DbOk(s.db) && Balanced(s) && Enabled(s, Send(w)) && WriterAt(s, w).half && it == WriterAt(s, w).todo[0]
    requires !Timed(s.db, it.member) && it.member in s.db.bodies && s.db.bodies[it.member] == it.body
    ensures Balanced(Next(s, Send(w)))
  {
    hide NoIds, NoId, Decode, Score, Insert, Remove;
    var t := Next(s, Send(w));
    var e := Entry(Score(it.body.Ts()), it.member);
    TimedAfter(s.db, it.member, e.score);
    ContentInsert(s.db.timeline, e, s.db.bodies);
    OwedHead(WriterAt(s, w).todo);
    Balance(s, t, w, t.writers[w], multiset{NoId(it.body)}, multiset{});
  }

  lemma OwedHead(todo: seq<Item>)
    requires todo != []
    ensures multiset(NoIds(Bodies(todo))) == multiset{NoId(todo[0].body)} + multiset(NoIds(Bodies(todo[1..])))
    ensures |todo| == 1 ==> multiset(NoIds(Bodies(todo[1..]))) == multiset{}
  {
    assert NoIds(Bodies(todo)) == [NoId(todo[0].body)] + NoIds(Bodies(todo[1..]));
  }

  lemma StepBalanced(s: State, a: Action)
    requires Inv(s) && Balanced(s) && Enabled(s, a)
    ensures Balanced(Next(s, a))
  {
    hide Balanced;
    if IsReaderStep(a) {
      ReaderBalanced(s, a);
    } else if a.StartWrite? {
      StartBalanced(s, a.w, a.rows);
    } else if a.ReserveAlerts? {
      ReserveAlertsBalanced(s, a.w);
    } else if a.ReserveEvents? {
      ReserveEventsBalanced(s, a.w);
    } else {
      SendBalanced(s, a.w);
    }
  }

  lemma ReaderBalanced(s: State, a: Action)
    requires Balanced(s) && Enabled(s, a) && IsReaderStep(a)
    ensures Balanced(Next(s, a))
  {
    hide Decode, NoIds, AllOwed;
    var t := Next(s, a);
    assert t.db == s.db && t.writers == s.writers && t.written == s.written;
  }

  // ---------- runs ----------

  lemma {:induction false} RunBalanced(run: seq<State>, n: nat)
    requires IsRun(run) && n < |run|
    ensures Balanced(run[n])
  {
    hide Balanced, Inv;
    if n == 0 {
      StartsBalanced();
    } else {
      RunBalanced(run, n - 1);
      RunInv(run, n - 1);
      assert Step(run[n - 1], run[n]);
      var a :| Enabled(run[n - 1], a) && run[n] == Next(run[n - 1], a);
      StepBalanced(run[n - 1], a);
    }
  }

  lemma StartsBalanced()
    ensures Balanced(START)
  {
    assert Rows(EMPTY) == [] && NoIds([]) == [];
    assert AllOwed(map[], {}) == multiset{};
  }

  /** However writes interleave, whenever none is under way the timeline reads as exactly the records written so far,
      each once and whole but for its id. */
  lemma QuietReads(run: seq<State>, n: nat)
    requires IsRun(run) && n < |run| && !Writing(run[n])
    ensures multiset(NoIds(Rows(run[n].db))) == multiset(NoIds(run[n].written))
  {
    hide NoIds, Decode, AllOwed;
    RunBalanced(run, n);
    OwedNothing(run[n].writers, run[n].writers.Keys);
  }

  /** The record of what was written grows by the records of each write as it begins, and by nothing else. */
  lemma WrittenGrows(s: State, a: Action)
    requires Enabled(s, a)
    ensures Next(s, a).written == s.written + (if a.StartWrite? then a.rows else [])
  {
    hide Rows, Decode, Items, Run;
  }
}
