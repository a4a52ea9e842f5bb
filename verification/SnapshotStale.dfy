/** When a snapshot is stale: exactly when a write was under way in the course of its rebuild. */
module SnapshotStale {
  import opened Records
  import opened Store
  import opened Snapshot
  import opened SnapshotRuns

  // ---------- rebuilds ----------

  predicate Between(r: Reader) {
    r.Fetches? || r.Stores?
  }

  /** Reader p scans in the step after state i and publishes in the step after state j. */
  ghost predicate Rebuild(run: seq<State>, p: int, i: nat, j: nat) {
    && i < j && j + 1 < |run|
    && Enabled(run[i], Scan(p)) && run[i + 1] == Next(run[i], Scan(p))
    && Enabled(run[j], Publish(p)) && run[j + 1] == Next(run[j], Publish(p))
    && forall k :: i < k <= j ==> Between(ReaderAt(run[k], p))
  }

  /** There is a snapshot at every point after state j, up to state n. */
  ghost predicate Cached(run: seq<State>, j: nat, n: nat) {
    n < |run| && forall k :: j < k <= n ==> run[k].snap.Some?
  }

  /** A write was under way at some point between scan and publication. */
  ghost predicate Overlapped(run: seq<State>, i: nat, j: nat) {
    j < |run| && exists k :: i < k <= j && Writing(run[k])
  }

  lemma StepOf(run: seq<State>, n: nat) returns (a: Action)
    requires IsRun(run) && 0 < n < |run|
    ensures Enabled(run[n - 1], a) && run[n] == Next(run[n - 1], a)
  {
    hide Enabled, Next;
    assert Step(run[n - 1], run[n]);
    a :| Enabled(run[n - 1], a) && run[n] == Next(run[n - 1], a);
  }

  // ---------- single steps ----------

  /** Between its scan and its publication a rebuild keeps its place in the log. */
  lemma StepBetween(s: State, a: Action, p: int)
    requires Enabled(s, a) && Between(ReaderAt(Next(s, a), p))
    ensures a == Scan(p) || Between(ReaderAt(s, p))
    ensures Between(ReaderAt(s, p)) ==> ReaderAt(Next(s, a), p).at == ReaderAt(s, p).at
  {
    hide Rows, Decode, Items, Run;
  }

  /** A snapshot comes from a publication, or was there before; it is not changed. */
  lemma StepSnap(s: State, a: Action)
    requires Enabled(s, a) && Next(s, a).snap.Some?
    ensures !a.StartWrite?
    ensures a.Publish? || Next(s, a).snap == s.snap
  {
    hide Rows, Decode, Items, Run;
  }

  /** A rebuild leaves the snapshot alone. */
  lemma NoPublish(s: State, a: Action)
    requires Inv(s) && Enabled(s, a) && s.snap.Some?
    ensures !a.Publish?
  {
    assert forall p :: ReaderOk(s, ReaderAt(s, p));
  }

  /** A write that ends, or begins, or adds to the log. */
  lemma StepWriter(s: State, a: Action, w: int)
    requires Enabled(s, a)
    ensures |s.log| <= |Next(s, a).log|
    ensures |s.log| < |Next(s, a).log| ==> Writing(s) && a.Send?
    ensures !WriterAt(s, w).Resting? && WriterAt(Next(s, a), w).Resting? ==> |s.log| < |Next(s, a).log|
    ensures !WriterAt(Next(s, a), w).Resting? ==> !WriterAt(s, w).Resting? || a.StartWrite?
  {
    hide Rows, Decode, Items, Run, Writing;
    if a.Send? {
      WriterWrites(s, a.w);
    }
  }

  // ---------- stretches of a run ----------

  lemma {:induction false} LogGrows(run: seq<State>, i: nat, n: nat)
    requires IsRun(run) && i <= n < |run|
    ensures |run[i].log| <= |run[n].log|
    decreases n
  {
    if i < n {
      LogGrows(run, i, n - 1);
      var a := StepOf(run, n);
      StepWriter(run[n - 1], a, 0);
    }
  }

  /** A write that ends has added to the log. */
  lemma {:induction false} EndedWrite(run: seq<State>, w: int, k: nat, n: nat)
    requires IsRun(run) && k <= n < |run|
    requires !WriterAt(run[k], w).Resting? && WriterAt(run[n], w).Resting?
    ensures |run[k].log| < |run[n].log|
    decreases n
  {
    hide Next, Enabled;
    var a := StepOf(run, n);
    StepWriter(run[n - 1], a, w);
    LogGrows(run, k, n - 1);
    if WriterAt(run[n - 1], w).Resting? {
      EndedWrite(run, w, k, n - 1);
    }
  }

  /** If the log has grown, some write was under way. */
  lemma {:induction false} GrownLog(run: seq<State>, i: nat, n: nat) returns (k: nat)
    requires IsRun(run) && i <= n < |run| && |run[i].log| < |run[n].log|
    ensures i <= k < n && Writing(run[k])
    decreases n
  {
    hide Next, Enabled, Writing;
    var a := StepOf(run, n);
    StepWriter(run[n - 1], a, 0);
    if |run[n - 1].log| < |run[n].log| {
      k := n - 1;
    } else {
      k := GrownLog(run, i, n - 1);
    }
  }

  /** While there is a snapshot, no write begins. */
  lemma {:induction false} NoNewWrite(run: seq<State>, w: int, j: nat, k: nat)
    requires IsRun(run) && Cached(run, j, k) && j <= k
    requires !WriterAt(run[k], w).Resting?
    ensures !WriterAt(run[j], w).Resting?
    decreases k
  {
    hide Next, Enabled;
    if j < k {
      var a := StepOf(run, k);
      StepWriter(run[k - 1], a, w);
      StepSnap(run[k - 1], a);
      NoNewWrite(run, w, j, k - 1);
    }
  }

  lemma {:induction false} SameSnap(run: seq<State>, j: nat, n: nat)
    requires IsRun(run) && j < n && Cached(run, j, n)
    ensures run[n].snap == run[j + 1].snap
    decreases n
  {
    hide Next, Enabled, Inv;
    if j + 1 < n {
      var a := StepOf(run, n);
      RunInv(run, n - 1);
      NoPublish(run[n - 1], a);
      StepSnap(run[n - 1], a);
      SameSnap(run, j, n - 1);
    }
  }

  lemma {:induction false} SamePlace(run: seq<State>, p: int, i: nat, j: nat, k: nat)
    requires IsRun(run) && Rebuild(run, p, i, j) && i < k <= j
    ensures ReaderAt(run[k], p).at == |run[i].log| - 1
    decreases k
  {
    if i + 1 < k {
      hide Next, Enabled, IsRun;
      assert Between(ReaderAt(run[k], p)) && Between(ReaderAt(run[k - 1], p));
      var a := StepOf(run, k);
      StepBetween(run[k - 1], a, p);
      SamePlace(run, p, i, j, k - 1);
    } else {
      hide Decode, Rows, IsRun;
    }
  }

  // ---------- every snapshot has its rebuild ----------

  lemma {:induction false} ScanOf(run: seq<State>, p: int, j: nat) returns (i: nat)
    requires IsRun(run) && j < |run| && Between(ReaderAt(run[j], p))
    ensures i < j && Enabled(run[i], Scan(p)) && run[i + 1] == Next(run[i], Scan(p))
    ensures forall k :: i < k <= j ==> Between(ReaderAt(run[k], p))
    decreases j
  {
    hide Next, Enabled;
    assert !Between(ReaderAt(START, p));
    var a := StepOf(run, j);
    StepBetween(run[j - 1], a, p);
    if a == Scan(p) {
      i := j - 1;
    } else {
      i := ScanOf(run, p, j - 1);
    }
  }

  lemma {:induction false} RebuildOf(run: seq<State>, n: nat) returns (p: int, i: nat, j: nat)
    requires IsRun(run) && n < |run| && run[n].snap.Some?
    ensures Rebuild(run, p, i, j) && j < n && Cached(run, j, n)
    decreases n
  {
    hide Next;
    var a := StepOf(run, n);
    StepSnap(run[n - 1], a);
    if a.Publish? {
      p, j := a.p, n - 1;
      i := ScanOf(run, p, j);
    } else {
      p, i, j := RebuildOf(run, n - 1);
    }
  }

  // ---------- the exact condition ----------

  lemma PlaceOfSnap(run: seq<State>, p: int, i: nat, j: nat, n: nat)
    requires IsRun(run) && Rebuild(run, p, i, j) && j < n && Cached(run, j, n)
    ensures run[n].snap.Some? && run[n].snap.value.at == |run[i].log| - 1 && run[i + 1].log == run[i].log
  {
    hide Decode, Rows, IsRun;
    SameSnap(run, j, n);
    SamePlace(run, p, i, j, j);
  }

  /** A published snapshot is stale, with no write under way any more, exactly when a write was under way between the
      scan and the publication of its rebuild. */
  lemma StaleIff(run: seq<State>, p: int, i: nat, j: nat, n: nat)
    requires IsRun(run) && Rebuild(run, p, i, j) && j < n && Cached(run, j, n) && !Writing(run[n])
    ensures run[n].snap.Some?
    ensures run[n].snap.value.rows != Rows(run[n].db) <==> Overlapped(run, i, j)
  {
    hide Next, Enabled, IsRun, Rows;
    RunSafe(run, n);
    PlaceOfSnap(run, p, i, j, n);
    LogGrows(run, i, n);
    if |run[i].log| < |run[n].log| {
      var k := GrownLog(run, i + 1, n);
      if k > j {
        var w :| w in run[k].writers && !run[k].writers[w].Resting?;
        NoNewWrite(run, w, j, k);
        WriterWrites(run[j], w);
      }
    }
    if Overlapped(run, i, j) {
      var k :| i < k <= j && Writing(run[k]);
      var w :| w in run[k].writers && !run[k].writers[w].Resting?;
      EndedWrite(run, w, k, n);
      LogGrows(run, i, k);
    }
  }

  /** So in every run the snapshot comes from one rebuild, and that rebuild tells whether it is stale. */
  lemma SnapshotTells(run: seq<State>, n: nat) returns (p: int, i: nat, j: nat)
    requires IsRun(run) && n < |run| && run[n].snap.Some? && !Writing(run[n])
    ensures Rebuild(run, p, i, j) && j < n && Cached(run, j, n)
    ensures run[n].snap.value.rows != Rows(run[n].db) <==> Overlapped(run, i, j)
  {
    p, i, j := RebuildOf(run, n);
    StaleIff(run, p, i, j, n);
  }

  // ---------- reads ----------

  /** A write dirties every read that is under way. */
  lemma CleanStep(s: State, a: Action, p: int)
    requires Enabled(s, a) && (IsClean(ReaderAt(s, p)) ==> !Writing(s))
    ensures IsClean(ReaderAt(Next(s, a), p)) ==> !Writing(Next(s, a))
  {
    hide Rows, Decode, Items, Run, Writing;
    if IsReaderStep(a) {
      SameWriting(s, Next(s, a));
    } else if !a.StartWrite? {
      WriterWrites(s, a.w);
    }
  }

  lemma {:induction false} CleanQuiet(run: seq<State>, p: int, n: nat)
    requires IsRun(run) && n < |run|
    ensures IsClean(ReaderAt(run[n], p)) ==> !Writing(run[n])
  {
    hide Writing, Next, Enabled;
    if n > 0 {
      var a := StepOf(run, n);
      CleanQuiet(run, p, n - 1);
      CleanStep(run[n - 1], a, p);
    }
  }

  predicate HasRows(r: Reader) {
    r.Frees? || r.Got?
  }

  /** A reader gets its rows from the snapshot, its own or another's. */
  lemma StepHasRows(s: State, a: Action, p: int)
    requires Enabled(s, a) && HasRows(ReaderAt(Next(s, a), p))
    ensures var r, before := ReaderAt(Next(s, a), p), ReaderAt(s, p);
            || Next(s, a).snap == Some(Snap(r.rows, r.at))
            || (HasRows(before) && before.rows == r.rows && before.at == r.at && (r.clean ==> before.clean))
  {
    hide Rows, Decode, Items, Run, Writing;
  }

  /** Where the rows of a read come from, if no write has been under way since it began. */
  lemma {:induction false} SourceOf(run: seq<State>, p: int, n: nat) returns (m: nat)
    requires IsRun(run) && n < |run| && HasRows(ReaderAt(run[n], p)) && ReaderAt(run[n], p).clean
    ensures m <= n && run[m].snap == Some(Snap(ReaderAt(run[n], p).rows, ReaderAt(run[n], p).at))
    ensures forall k :: m <= k <= n ==> IsClean(ReaderAt(run[k], p))
  {
    hide Next, Enabled;
    assert !HasRows(ReaderAt(START, p));
    var a := StepOf(run, n);
    StepHasRows(run[n - 1], a, p);
    if run[n].snap == Some(Snap(ReaderAt(run[n], p).rows, ReaderAt(run[n], p).at)) {
      m := n;
    } else {
      m := SourceOf(run, p, n - 1);
    }
  }

  lemma QuietLog(run: seq<State>, m: nat, n: nat)
    requires IsRun(run) && m <= n < |run| && forall k :: m <= k <= n ==> !Writing(run[k])
    ensures |run[m].log| == |run[n].log|
  {
    hide Writing, IsRun;
    LogGrows(run, m, n);
    if |run[m].log| < |run[n].log| {
      var k := GrownLog(run, m, n);
    }
  }

  /** A finished read that no write overlapped returns old data exactly when the rebuild that its rows come from, its
      own or an earlier one, overlapped a write. */
  lemma ReadTells(run: seq<State>, n: nat, p: int) returns (q: int, i: nat, j: nat)
    requires IsRun(run) && n < |run| && ReaderAt(run[n], p).Got? && ReaderAt(run[n], p).clean
    ensures Rebuild(run, q, i, j) && j < n && run[j + 1].snap.value.rows == ReaderAt(run[n], p).rows
    ensures ReaderAt(run[n], p).rows != Rows(run[n].db) <==> Overlapped(run, i, j)
  {
    hide Writing, IsRun, Next, Enabled, Rows, Overlapped;
    var m := SourceOf(run, p, n);
    forall k | m <= k <= n
      ensures !Writing(run[k])
    {
      CleanQuiet(run, p, k);
    }
    QuietLog(run, m, n);
    q, i, j := SnapshotTells(run, m);
    SameSnap(run, j, m);
    RunSafe(run, m);
    RunSafe(run, n);
  }
}
