/** Runs of the store: what holds at every point, when reads are current, and a run that ends stale. */
module SnapshotRuns {
  import opened Records
  import opened Store
  import opened Snapshot
  import opened SnapshotStore

  // ---------- runs ----------

  ghost predicate Step(s: State, t: State) {
    exists a :: Enabled(s, a) && t == Next(s, a)
  }

  ghost predicate IsRun(run: seq<State>) {
    run != [] && run[0] == START && forall i :: 0 < i < |run| ==> Step(run[i - 1], run[i])
  }

  lemma {:induction false} RunInv(run: seq<State>, n: nat)
    requires IsRun(run) && n < |run|
    ensures Inv(run[n])
  {
    if n == 0 {
      StartOk();
    } else {
      RunInv(run, n - 1);
      assert Step(run[n - 1], run[n]);
      var a :| Enabled(run[n - 1], a) && run[n] == Next(run[n - 1], a);
      StepKeeps(run[n - 1], a);
    }
  }

  /** In every run: one rebuild at a time, and it publishes into an empty slot; every timeline member has a
      body; every published snapshot, and everything a reader returns, is the exact decoded timeline as it
      was after some number of timeline writes; it is the current data exactly when there has been no timeline
      write since its scan. */
  lemma RunSafe(run: seq<State>, n: nat)
    requires IsRun(run) && n < |run|
    ensures var s := run[n];
            && (forall p, q :: InRebuild(ReaderAt(s, p)) && InRebuild(ReaderAt(s, q)) ==> p == q)
            && (forall p :: InRebuild(ReaderAt(s, p)) ==> s.snap == None)
            && (forall e :: e in s.db.timeline ==> e.member in s.db.bodies)
            && (forall p :: ReaderAt(s, p).Got? ==>
                  var r := ReaderAt(s, p);
                  IsPast(s, r.rows, r.at) && (r.rows == Rows(s.db) <==> r.at == |s.log| - 1))
            && (s.snap.Some? ==> IsPast(s, s.snap.value.rows, s.snap.value.at)
                                 && (s.snap.value.rows == Rows(s.db) <==> s.snap.value.at == |s.log| - 1))
  {
    hide Rows, Decode;
    RunInv(run, n);
    var s := run[n];
    assert DbOk(s.db);
    forall p, q | InRebuild(ReaderAt(s, p)) && InRebuild(ReaderAt(s, q))
      ensures p == q
    {
      assert InLock(ReaderAt(s, p)) <==> s.lock == Some(p);
      assert InLock(ReaderAt(s, q)) <==> s.lock == Some(q);
    }
    forall p
      ensures InRebuild(ReaderAt(s, p)) ==> s.snap == None
      ensures ReaderAt(s, p).Got? ==>
                var r := ReaderAt(s, p);
                IsPast(s, r.rows, r.at) && (r.rows == Rows(s.db) <==> r.at == |s.log| - 1)
    {
      assert ReaderOk(s, ReaderAt(s, p));
    }
  }

  /** What the log holds: the data right after each timeline write, in a run's order. A scan takes the last. */
  lemma ScanSeesNow(s: State, p: int)
    requires Inv(s) && Enabled(s, Scan(p))
    ensures var r := ReaderAt(Next(s, Scan(p)), p); r.Fetches? && 0 <= r.at < |s.log| && s.log[r.at] == Rows(s.db)
  {
  }

  lemma {:induction false} RunFilled(run: seq<State>, n: nat)
    requires IsRun(run) && n < |run|
    ensures Filled(run[n])
  {
    if n > 0 {
      RunFilled(run, n - 1);
      RunInv(run, n - 1);
      assert Step(run[n - 1], run[n]);
      var a :| Enabled(run[n - 1], a) && run[n] == Next(run[n - 1], a);
      FilledStep(run[n - 1], a);
    }
  }

  /** However writes interleave, whenever none is under way the ids of each kind run from 1 without gaps, and the
      timeline holds every record once, with its score, in order. */
  lemma QuietRun(run: seq<State>, n: nat)
    requires IsRun(run) && n < |run| && !Writing(run[n])
    ensures WellStored(run[n].db)
  {
    hide Filled, Inv, Writing, WellStored, LockOk, LogOk, ReadersOk;
    RunInv(run, n);
    RunFilled(run, n);
    InvData(run[n]);
    QuietIsWellStored(run[n]);
  }

  // ---------- freshness ----------

  /** No rebuild is under way while a write is. */
  ghost predicate Apart(s: State) {
    !Writing(s) || forall p :: !InRebuild(ReaderAt(s, p))
  }

  ghost predicate IsClean(r: Reader) {
    !r.Idle? && r.clean
  }

  ghost predicate ReaderFresh(s: State, r: Reader) {
    && (r.Fetches? || r.Stores? ==> r.at == |s.log| - 1)
    && (IsClean(r) ==> !Writing(s))
    && (IsClean(r) && (r.Frees? || r.Got?) ==> r.at == |s.log| - 1)
  }

  ghost predicate Fresh(s: State) {
    && (s.snap.Some? ==> !Writing(s) && s.snap.value.at == |s.log| - 1)
    && forall p :: ReaderFresh(s, ReaderAt(s, p))
  }

  lemma WriterWrites(s: State, w: int)
    requires !WriterAt(s, w).Resting?
    ensures Writing(s)
  {
  }

  lemma FreshStep(s: State, a: Action)
    requires Inv(s) && Fresh(s) && Apart(s) && Enabled(s, a) && Apart(Next(s, a))
    ensures Fresh(Next(s, a))
  {
    hide Rows, Decode, DataOk, Writing, Items, Run;
    var t := Next(s, a);
    if IsReaderStep(a) {
      SameWriting(s, t);
      assert ReaderFresh(s, ReaderAt(s, a.p));
      forall q
        ensures ReaderFresh(t, ReaderAt(t, q))
      {
        assert ReaderFresh(s, ReaderAt(s, q));
        RebuildAlone(s, a.p);
      }
    } else {
      NowWriting(s, a);
      forall q
        ensures ReaderFresh(t, ReaderAt(t, q))
      {
        assert ReaderFresh(s, ReaderAt(s, q));
        WriteStepReader(s, a, q);
      }
    }
  }

  lemma SameWriting(s: State, t: State)
    requires t.writers == s.writers
    ensures Writing(t) == Writing(s)
  {
  }

  /** In the course of a rebuild nothing is being written. */
  lemma RebuildAlone(s: State, p: int)
    requires Apart(s)
    ensures InRebuild(ReaderAt(s, p)) ==> !Writing(s)
  {
  }

  /** During a write, or as it begins, there is no snapshot. */
  lemma NowWriting(s: State, a: Action)
    requires Fresh(s) && Enabled(s, a) && !IsReaderStep(a)
    ensures Next(s, a).snap == None
    ensures !a.StartWrite? ==> Writing(s)
  {
    if !a.StartWrite? {
      WriterWrites(s, a.w);
    }
  }

  lemma WriteStepReader(s: State, a: Action, q: int)
    requires Fresh(s) && Apart(s) && Enabled(s, a) && !IsReaderStep(a) && Apart(Next(s, a))
    ensures ReaderFresh(Next(s, a), ReaderAt(Next(s, a), q))
  {
    hide Rows, Decode, Items, Run;
    var t := Next(s, a);
    var r := ReaderAt(s, q);
    assert ReaderFresh(s, r);
    NowWriting(s, a);
    if a.StartWrite? {
      assert ReaderAt(t, q) == Dirty(r);
      assert t.log == s.log;
    } else {
      RebuildAlone(s, q);
      assert ReaderAt(t, q) == r;
    }
  }

  ghost predicate ApartRun(run: seq<State>) {
    forall i :: 0 <= i < |run| ==> Apart(run[i])
  }

  lemma {:induction false} RunFresh(run: seq<State>, n: nat)
    requires IsRun(run) && ApartRun(run) && n < |run|
    ensures Fresh(run[n])
  {
    if n > 0 {
      RunFresh(run, n - 1);
      RunInv(run, n - 1);
      assert Step(run[n - 1], run[n]);
      var a :| Enabled(run[n - 1], a) && run[n] == Next(run[n - 1], a);
      FreshStep(run[n - 1], a);
    }
  }

  /** In a run in which no rebuild overlaps a write, every read that no write overlapped returns the current data. */
  lemma ReadsAreCurrent(run: seq<State>, n: nat, p: int)
    requires IsRun(run) && ApartRun(run) && n < |run|
    requires ReaderAt(run[n], p).Got? && ReaderAt(run[n], p).clean
    ensures ReaderAt(run[n], p).rows == Rows(run[n].db)
  {
    RunFresh(run, n);
    RunInv(run, n);
    assert ReaderFresh(run[n], ReaderAt(run[n], p));
    assert ReaderOk(run[n], ReaderAt(run[n], p));
  }

  // ---------- why the hypothesis is needed ----------

  /** Only a write takes a published snapshot away: a stale one stays until then. */
  lemma SnapshotStays(s: State, a: Action)
    requires Inv(s) && Enabled(s, a) && s.snap.Some? && !a.StartWrite?
    ensures Next(s, a).snap == s.snap
  {
    hide Rows, Decode, DataOk;
  }

  lemma ExtendRun(run: seq<State>, a: Action) returns (more: seq<State>)
    requires IsRun(run) && Enabled(run[|run| - 1], a)
    ensures more != [] && IsRun(more) && more[|more| - 1] == Next(run[|run| - 1], a)
  {
    hide Next, Enabled;
    more := run + [Next(run[|run| - 1], a)];
    assert Step(run[|run| - 1], more[|run|]);
    forall i | 0 < i < |more|
      ensures Step(more[i - 1], more[i])
    {
      if i < |run| {
        assert Step(run[i - 1], run[i]);
      }
    }
  }

  /** A reader starts a rebuild on the empty store and gets as far as its scan. */
  lemma ScanEmpty() returns (run: seq<State>)
    ensures IsRun(run)
    ensures var s := run[|run| - 1];
            && s.db == EMPTY && s.log == [[]] && s.snap == None && s.lock == Some(0)
            && ReaderAt(s, 0) == Fetches(true, [], 0) && s.writers == map[]
  {
    run := [START];
    run := ExtendRun(run, StartRead(0));
    run := ExtendRun(run, Acquire(0));
    run := ExtendRun(run, LoadAgain(0));
    run := ExtendRun(run, Scan(0));
  }

  lemma ReserveDuring(start: seq<State>, r: Row) returns (run: seq<State>)
    requires start != [] && IsRun(start)
    requires var s := start[|start| - 1];
             && s.log == [[]] && s.lock == Some(0) && ReaderAt(s, 0) == Fetches(true, [], 0) && s.writers == map[]
    ensures run != [] && IsRun(run)
    ensures var s := run[|run| - 1];
            && s.log == [[]] && s.lock == Some(0) && ReaderAt(s, 0) == Fetches(false, [], 0) && s.writers.Keys == {0}
            && WriterAt(s, 0).Sends? && !WriterAt(s, 0).half && |WriterAt(s, 0).todo| == 1
  {
    hide Rows, Run, IsRun;
    run := ExtendRun(start, StartWrite(0, [r]));
    run := ExtendRun(run, ReserveAlerts(0));
    run := ExtendRun(run, ReserveEvents(0));
  }

  /** Then one record is written from start to end. */
  lemma WriteDuring(start: seq<State>, r: Row) returns (run: seq<State>)
    requires start != [] && IsRun(start)
    requires var s := start[|start| - 1];
             && s.log == [[]] && s.lock == Some(0) && ReaderAt(s, 0) == Fetches(true, [], 0) && s.writers == map[]
    ensures run != [] && IsRun(run)
    ensures var s := run[|run| - 1];
            |s.log| == 2 && ReaderAt(s, 0) == Fetches(false, [], 0) && !Writing(s)
  {
    hide Rows, Run, IsRun;
    run := ReserveDuring(start, r);
    run := ExtendRun(run, Send(0));
    run := ExtendRun(run, Send(0));
  }

  /** A rebuild that scans before a write and publishes after it leaves a stale snapshot behind. */
  lemma StaleExample(r: Row) returns (run: seq<State>)
    ensures IsRun(run)
    ensures var s := run[|run| - 1]; !Writing(s) && s.snap.Some? && s.snap.value.rows != Rows(s.db)
  {
    hide Rows, Decode;
    run := ScanEmpty();
    run := WriteDuring(run, r);
    run := ExtendRun(run, Fetch(0));
    run := ExtendRun(run, Publish(0));
    RunSafe(run, |run| - 1);
  }
}
