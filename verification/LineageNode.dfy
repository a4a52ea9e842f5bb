/** One process of the lineage tree: its rows, its latest parent, and its node. */
module LineageNode {
  import opened LineageIndex
  import opened LineageProfile
  import opened Records

  // ---------- the rows of a process ----------

  predicate InRange(rows: seq<Row>, places: seq<int>) {
    forall k :: 0 <= k < |places| ==> 0 <= places[k] < |rows|
  }

  function RowsAt(rows: seq<Row>, places: seq<int>): seq<Row>
    requires InRange(rows, places)
  {
    seq(|places|, k requires 0 <= k < |places| => rows[places[k]])
  }

  /** The rows about a process, in order. */
  function RowsOf(rows: seq<Row>, pid: int): seq<Row> {
    if rows == [] then []
    else
      var last := rows[|rows| - 1];
      RowsOf(rows[..|rows| - 1], pid) + (if PidOf(last) == pid then [last] else [])
  }

  lemma {:induction false} PlacesAreRows(rows: seq<Row>, n: nat, pid: int)
    requires n <= |rows|
    ensures InRange(rows, PlacesOf(rows, n, pid))
    ensures RowsAt(rows, PlacesOf(rows, n, pid)) == RowsOf(rows[..n], pid)
  {
    if n > 0 {
      PlacesAreRows(rows, n - 1, pid);
      assert rows[..n][..n - 1] == rows[..n - 1];
    }
  }

  /** The index holds no rows for a PID that is not positive. */
  function Own(rows: seq<Row>, pid: int): seq<Row> {
    if pid > 0 then RowsOf(rows, pid) else []
  }

  // ---------- the latest parent ----------

  /** The place of the row that names the parent seen last, the first of several at that time. */
  function LatestPlace(own: seq<Row>): (r: int)
    ensures -1 <= r < |own|
    ensures r >= 0 ==> ParentPidOf(own[r]) > 0
  {
    if own == [] then -1
    else
      var r := LatestPlace(own[..|own| - 1]);
      var i := |own| - 1;
      if ParentPidOf(own[i]) <= 0 then r
      else if r == -1 || own[i].Ts() > own[r].Ts() then i
      else r
  }

  function LatestParent(own: seq<Row>): int {
    var r := LatestPlace(own);
    if r == -1 then 0 else ParentPidOf(own[r])
  }

  /** The parent is 0 exactly when no row names one. Otherwise no row that names one is later than the row it
      comes from, and none at that time comes before it. */
  lemma {:induction false} LatestIsLatest(own: seq<Row>)
    ensures LatestParent(own) == 0 <==> forall k :: 0 <= k < |own| ==> ParentPidOf(own[k]) <= 0
    ensures LatestParent(own) != 0 ==>
              exists m :: 0 <= m < |own| && ParentPidOf(own[m]) == LatestParent(own) && IsLatest(own, m)
  {
    PlaceIsLatest(own);
    var r := LatestPlace(own);
    if r >= 0 {
      assert IsLatest(own, r);
    }
  }

  lemma {:induction false} PlaceIsLatest(own: seq<Row>)
    ensures LatestPlace(own) == -1 <==> forall k :: 0 <= k < |own| ==> ParentPidOf(own[k]) <= 0
    ensures LatestPlace(own) >= 0 ==> IsLatest(own, LatestPlace(own))
  {
    if own != [] {
      var init := own[..|own| - 1];
      PlaceIsLatest(init);
      assert forall k :: 0 <= k < |init| ==> own[k] == init[k];
    }
  }

  ghost predicate IsLatest(own: seq<Row>, m: int)
    requires 0 <= m < |own|
  {
    && ParentPidOf(own[m]) > 0
    && (forall k :: 0 <= k < |own| && ParentPidOf(own[k]) > 0 ==> own[k].Ts() <= own[m].Ts())
    && (forall k :: 0 <= k < m && ParentPidOf(own[k]) > 0 ==> own[k].Ts() < own[m].Ts())
  }

  method MostRecentParentPid(rows: seq<Row>, places: seq<int>) returns (picked: int)
    requires InRange(rows, places)
    ensures picked == LatestParent(RowsAt(rows, places))
  {
    picked := 0;
    var pickedTs := 0;
    ghost var own := RowsAt(rows, places);
    for k := 0 to |places|
      invariant var r := LatestPlace(own[..k]);
                if r == -1 then picked == 0 else picked == ParentPidOf(own[r]) > 0 && pickedTs == own[r].Ts()
    {
      assert own[..k + 1][..k] == own[..k];
      var ppid := ParentPidOf(rows[places[k]]);
      if ppid <= 0 {
        continue;
      }
      var ts := rows[places[k]].Ts();
      if picked == 0 || ts > pickedTs {
        picked, pickedTs := ppid, ts;
      }
    }
    assert own[..|places|] == own;
  }

  // ---------- the node ----------

  /** A node of the tree. The fields that come from rows are kept together in `shown`. */
  class LinNode {
    const pid: int
    var shown: Profile
    var isOrigin: bool
    var isAncestor: bool
    var depth: int
    var children: seq<LinNode>
    var childrenTruncated: int

    constructor (pid: int)
      ensures this.pid == pid && shown == BLANK
      ensures !isOrigin && !isAncestor && depth == 0 && children == [] && childrenTruncated == 0
    {
      this.pid := pid;
      shown := BLANK;
      isOrigin, isAncestor, depth, children, childrenTruncated := false, false, 0, [], 0;
    }

    /** The times and the parent of a row. */
    method Touch(r: Row)
      modifies this`shown
      ensures shown == Touched(old(shown), pid, r)
    {
      var ts := r.Ts();
      if shown.firstSeen.None? || ts < shown.firstSeen.value {
        shown := shown.(firstSeen := Some(ts));
      }
      if shown.lastSeen.None? || ts > shown.lastSeen.value {
        shown := shown.(lastSeen := Some(ts));
      }
      if shown.parentPid == 0 {
        var pp := ParentPidOf(r);
        if pp > 0 && pp != pid {
          shown := shown.(parentPid := pp);
        }
      }
    }

    /** The part of a row that depends on its kind. */
    method Apply(r: Row)
      modifies this`shown
      ensures shown == Applied(old(shown), r)
    {
      hide ShownAlert, ShownEvent, SeverityRank, LinBaseName;
      match r
      case AlertRow(a, _) => ApplyAlert(a);
      case EventRow(e, _) => ApplyEvent(e);
    }

    method ApplyAlert(a: Alert)
      modifies this`shown
      ensures shown == Applied(old(shown), AlertRow(a, None))
    {
      hide ShownAlert, SeverityRank;
      IdentifyByAlert(a);
      ShowLine(a.commandLine);
      shown := shown.(alertCount := shown.alertCount + 1);
      shown := shown.(alerts := shown.alerts + [ShownAlert(a)]);
      if SeverityRank(a.severity) > SeverityRank(shown.maxSeverity) {
        shown := shown.(maxSeverity := a.severity);
      }
    }

    method IdentifyByAlert(a: Alert)
      modifies this`shown
      ensures var p := old(shown);
              shown == p.(image := if p.image == "" then a.executable else p.image,
                          processName := if p.processName == "" then a.processName else p.processName,
                          user := if p.user == "" then a.user else p.user)
    {
      if shown.image == "" && a.executable != "" {
        shown := shown.(image := a.executable);
      }
      if shown.processName == "" && a.processName != "" {
        shown := shown.(processName := a.processName);
      }
      if shown.user == "" && a.user != "" {
        shown := shown.(user := a.user);
      }
    }

    method ApplyEvent(e: Event)
      modifies this`shown
      ensures shown == Applied(old(shown), EventRow(e, None))
    {
      hide ShownEvent, LinBaseName;
      var img := FieldOf(e, "Image");
      if img != "" {
        shown := shown.(image := img);
        if shown.processName == "" {
          shown := shown.(processName := LinBaseName(img));
        }
      }
      ShowLine(FieldOf(e, "CommandLine"));
      var u := FieldOf(e, "User");
      if u != "" && shown.user == "" {
        shown := shown.(user := u);
      }
      shown := shown.(eventCounts := shown.eventCounts[e.category := CountOf(shown, e.category) + 1]);
      shown := shown.(events := shown.events[e.category := EventsOf(shown, e.category) + [ShownEvent(e)]]);
    }

    /** A command line replaces a shorter one. */
    method ShowLine(line: string)
      modifies this`shown
      ensures shown
           == old(shown).(commandLine := if |line| > |old(shown).commandLine| then line else old(shown).commandLine)
    {
      if line != "" && |line| > |shown.commandLine| {
        shown := shown.(commandLine := line);
      }
    }
  }

  method BuildLinNode(rows: seq<Row>, pid: int, places: seq<int>) returns (n: LinNode)
    requires InRange(rows, places)
    ensures fresh(n) && n.pid == pid && n.shown == ProfileOf(pid, RowsAt(rows, places))
    ensures !n.isOrigin && !n.isAncestor && n.depth == 0 && n.children == [] && n.childrenTruncated == 0
  {
    n := new LinNode(pid);
    ghost var own := RowsAt(rows, places);
    for k := 0 to |places|
      invariant n.shown == ProfileOf(pid, own[..k])
      invariant !n.isOrigin && !n.isAncestor && n.depth == 0 && n.children == [] && n.childrenTruncated == 0
    {
      hide Applied, Touched;
      assert own[..k + 1][..k] == own[..k];
      var r := rows[places[k]];
      n.Touch(r);
      n.Apply(r);
    }
    assert own[..|places|] == own;
  }
}
