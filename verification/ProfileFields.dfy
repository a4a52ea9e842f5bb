/** What a node of the lineage shows, in terms of record fields and texts. */
module ProfileFields {
  import opened Bytes
  import opened Records
  import opened LineageIndex
  import opened LineageProfile
  import Store

  // ---------- lists of records ----------

  lemma {:induction false} AlertsInSplit(a: seq<Row>, b: seq<Row>)
    ensures AlertsIn(a + b) == AlertsIn(a) + AlertsIn(b)
    ensures |AlertsIn(a)| == Store.Alerts(a)
    decreases |a|
  {
    if a == [] {
      assert a + b == b;
    } else {
      hide ShownAlert;
      assert (a + b)[1..] == a[1..] + b;
      AlertsInSplit(a[1..], b);
      AlertsFromFront(a);
    }
  }

  lemma {:induction false} AlertsFromFront(a: seq<Row>)
    requires a != []
    ensures Store.Alerts(a) == (if a[0].AlertRow? then 1 else 0) + Store.Alerts(a[1..])
  {
    if |a| > 1 {
      var init := a[..|a| - 1];
      AlertsFromFront(init);
      assert init[1..] == a[1..][..|a| - 2] && init[0] == a[0];
    }
  }

  /** An alert is shown at the place it has among the alerts, with its id, time, rule, severity and engine. */
  lemma AlertShown(pid: int, own: seq<Row>, k: nat)
    requires k < |own| && own[k].AlertRow?
    ensures var list, j, a := ProfileOf(pid, own).alerts, Store.Alerts(own[..k]), own[k].alert;
            && |list| == Store.Alerts(own) && j < |list|
            && list[j].id == a.id && list[j].ts == a.ts && list[j].ruleName == a.ruleName
            && list[j].severity == a.severity && list[j].engine == a.engine
  {
    ProfileRecords(pid, own);
    hide ProfileOf;
    assert own == own[..k] + ([own[k]] + own[k + 1..]);
    AlertsInSplit(own[..k], [own[k]] + own[k + 1..]);
    AlertsInSplit(own, []);
    assert ([own[k]] + own[k + 1..])[1..] == own[k + 1..];
  }

  lemma {:induction false} EventsInSplit(a: seq<Row>, b: seq<Row>, cat: string)
    ensures EventsIn(a + b, cat) == EventsIn(a, cat) + EventsIn(b, cat)
    decreases |a|
  {
    if a == [] {
      assert a + b == b;
    } else {
      hide ShownEvent;
      assert (a + b)[1..] == a[1..] + b;
      EventsInSplit(a[1..], b, cat);
    }
  }

  /** An event is shown in its category, after those of the category that come before it, with its id, time, category,
      action and summary. */
  lemma EventShownAt(pid: int, own: seq<Row>, k: nat)
    requires k < |own| && own[k].EventRow?
    ensures var e := own[k].event;
            var list, before := EventsOf(ProfileOf(pid, own), e.category), EventsIn(own[..k], e.category);
            && before <= list && |before| < |list|
            && var shown := list[|before|];
               && shown.id == e.id && shown.ts == e.ts && shown.category == e.category
               && shown.action == Action(e) && shown.summary == EventSummary(e)
  {
    ProfileRecords(pid, own);
    hide ProfileOf, EventSummary, Action;
    var cat := own[k].event.category;
    assert own == own[..k] + ([own[k]] + own[k + 1..]);
    EventsInSplit(own[..k], [own[k]] + own[k + 1..], cat);
    assert ([own[k]] + own[k + 1..])[1..] == own[k + 1..];
  }

  // ---------- texts ----------

  /** The actions that the event ids stand for. */
  lemma ActionTexts(e: Event)
    ensures e.category == "Process" && e.eventId == 1 ==> Action(e) == "PROCESS_CREATE"
    ensures e.category == "Process" && e.eventId == 5 ==> Action(e) == "PROCESS_TERMINATE"
    ensures e.category == "Process" && e.eventId !in {1, 5} && e.opcode == 1 ==> Action(e) == "PROCESS_EXEC"
    ensures e.category == "Process" && e.eventId !in {1, 5} && e.opcode == 2 ==> Action(e) == "PROCESS_EXIT"
    ensures e.category == "File" && e.eventId == 11 ==> Action(e) == "FILE_CREATE"
    ensures e.category == "File" && e.eventId == 23 ==> Action(e) == "FILE_DELETE"
    ensures e.category == "File" && e.eventId == 65 ==> Action(e) == "FILE_CHANGE"
    ensures e.category == "File" && e.eventId == 71 ==> Action(e) == "FILE_RENAME"
    ensures e.category == "Network" && e.eventId == 3 ==> Action(e) == "NETWORK_CONNECT"
    ensures e.category == "Dns" && e.eventId == 22 ==> Action(e) == "DNS_QUERY"
  {
  }

  /** An event of one of the four categories whose id has no name of its own. */
  predicate Nameless(e: Event) {
    || (e.category == "Process" && e.eventId !in {1, 5} && e.opcode !in {1, 2})
    || (e.category == "File" && e.eventId !in {11, 23, 65, 71})
    || (e.category == "Network" && e.eventId != 3)
    || (e.category == "Dns" && e.eventId != 22)
  }

  /** Other events of the four categories show the category in capitals; events of any other category show nothing.
      So an event without a name for its id shows the category in capitals exactly if it is one of the four. */
  lemma OtherActions(e: Event)
    ensures Nameless(e) ==> Action(e) == Upper(e.category)
    ensures e.category !in {"Process", "File", "Network", "Dns"} ==> Action(e) != Upper(e.category)
    ensures e.category !in {"Process", "File", "Network", "Dns", ""} ==> Action(e) == ""
    ensures e.category == "" ==> Action(e) == "EVENT"
  {
    assert |Upper(e.category)| == |e.category|;
    assert Upper("Process") == "PROCESS" && Upper("File") == "FILE";
    assert Upper("Network") == "NETWORK" && Upper("Dns") == "DNS";
  }

  function Text(e: Event, name: string): string {
    if name in e.fields then e.fields[name] else ""
  }

  /** A connection shows both ends, an arrow between them, and the protocol in capitals. */
  lemma ConnectionSummary(e: Event)
    requires e.category == "Network"
    ensures var left, right := Text(e, "SourceIp") + ":" + Text(e, "SourcePort"),
                               Text(e, "DestinationIp") + ":" + Text(e, "DestinationPort");
            EventSummary(e) == left + (" " + Utf8(0x2192) + " ") + (right + " " + Upper(Text(e, "Protocol")))
    ensures SameLetters(Text(e, "Protocol"), Upper(Text(e, "Protocol")))
  {
    assert Utf8(0x2192) == ARROW;
    CaseOnly(Text(e, "Protocol"));
    hide Upper;
    Regroup(Text(e, "SourceIp") + ":" + Text(e, "SourcePort"), ARROW, Text(e, "DestinationIp"),
            Text(e, "DestinationPort"), Upper(Text(e, "Protocol")));
  }

  lemma Regroup(left: string, arrow: string, ip: string, port: string, proto: string)
    ensures left + " " + arrow + " " + ip + ":" + port + " " + proto
         == left + (" " + arrow + " ") + (ip + ":" + port + " " + proto)
  {
    var l := left + " " + arrow + " ";
    Assoc(left, " ", arrow);
    Assoc(left, " " + arrow, " ");
    Assoc(l, ip, ":");
    Assoc(l, ip + ":", port);
    Assoc(l, ip + ":" + port, " ");
    Assoc(l, ip + ":" + port + " ", proto);
  }

  /** A query shows its name, and its type if both are known; a file event its path; a process event its command line,
      or its image if it has none; any other event its image. */
  lemma OtherSummaries(e: Event)
    ensures e.category == "Dns" ==>
              var name, kind := Text(e, "QueryName"), Text(e, "RecordType");
              && name <= EventSummary(e)
              && EventSummary(e)[|name|..] == if name == "" || kind == "" then "" else " (" + kind + ")"
    ensures e.category == "File" ==> EventSummary(e) == Text(e, "TargetFilename")
    ensures e.category == "Process" && Text(e, "CommandLine") != "" ==> EventSummary(e) == Text(e, "CommandLine")
    ensures e.category == "Process" && Text(e, "CommandLine") == "" ==> EventSummary(e) == Text(e, "Image")
    ensures e.category !in {"Dns", "Network", "File", "Process"} ==> EventSummary(e) == Text(e, "Image")
  {
    var name, kind := Text(e, "QueryName"), Text(e, "RecordType");
    assert name + " (" + kind + ")" == name + (" (" + kind + ")");
  }

  predicate Slashes(s: string) {
    forall i :: 0 <= i < |s| ==> s[i] == '/'
  }

  lemma {:induction false} AfterSlashMeans(dir: string, name: string)
    requires '/' !in name
    ensures AfterSlash(dir + ("/" + name)) == name
    decreases |dir|
  {
    var p := dir + ("/" + name);
    if dir == "" {
      assert p[0] == '/' && p[1..] == name;
    } else {
      assert p[|dir|] == '/' && p[1..] == dir[1..] + ("/" + name);
      AfterSlashMeans(dir[1..], name);
    }
  }

  lemma {:induction false} BaseStrips(p: string, slashes: string)
    requires Slashes(slashes)
    ensures Base(p + slashes) == Base(p)
    decreases |slashes|
  {
    if slashes == "" {
      assert p + slashes == p;
    } else {
      var init := slashes[..|slashes| - 1];
      assert (p + slashes)[|p + slashes| - 1] == '/' && (p + slashes)[..|p + slashes| - 1] == p + init;
      BaseStrips(p, init);
    }
  }

  /** The name of an image is what follows the last slash, slashes at the end aside. */
  lemma BaseNameMeans(dir: string, name: string, slashes: string)
    requires name != "" && '/' !in name && Slashes(slashes)
    ensures LinBaseName(dir + ("/" + name) + slashes) == name
    ensures LinBaseName(name + slashes) == name
    ensures slashes != "" ==> LinBaseName(slashes) == "/"
  {
    var p := dir + ("/" + name);
    assert p[|dir|] == '/' && (p + slashes)[|dir|] == '/';
    assert p[|p| - 1] == name[|name| - 1] && name[|name| - 1] in name;
    AfterSlashMeans(dir, name);
    BaseStrips(p, slashes);
    BaseStrips(name, slashes);
    BaseStrips("", slashes);
    assert "" + slashes == slashes;
    assert slashes != "" ==> slashes[0] == '/' && (name + slashes)[|name|] == '/';
    assert slashes == "" ==> name + slashes == name;
  }

  // ---------- severity ----------

  const SEVERITIES: seq<string> := ["critical", "high", "medium", "low", "info"]

  lemma RankMeans(s: string)
    ensures 0 <= SeverityRank(s) <= 5
    ensures forall i :: 0 <= i < 5 ==> (SeverityRank(s) == 5 - i <==> SameLetters(s, SEVERITIES[i]))
  {
    var w := SEVERITIES;
    assert Lower(w[0]) == w[0] && Lower(w[1]) == w[1] && Lower(w[2]) == w[2] && Lower(w[3]) == w[3]
           && Lower(w[4]) == w[4];
    assert |w[0]| == 8 && |w[1]| == 4 && |w[2]| == 6 && |w[3]| == 3 && |w[4]| == 4 && w[1][0] == 'h' && w[4][0] == 'i';
    forall i | 0 <= i < 5
      ensures Lower(s) == w[i] <==> SameLetters(s, w[i])
    {
      FoldMeans(s, w[i]);
    }
  }

  /** Some alert among the rows has this severity, in any case. */
  ghost predicate Says(own: seq<Row>, severity: string) {
    exists k :: 0 <= k < |own| && own[k].AlertRow? && SameLetters(own[k].alert.severity, severity)
  }

  /** The severity of a node is critical if an alert says so, else high, medium, low or info; else there is none. */
  lemma SeverityMeans(pid: int, own: seq<Row>)
    ensures var top := ProfileOf(pid, own).maxSeverity;
            && (forall i :: 0 <= i < 5 && Says(own, SEVERITIES[i])
                            && (forall j :: 0 <= j < i ==> !Says(own, SEVERITIES[j]))
                            ==> SameLetters(top, SEVERITIES[i]))
            && ((forall i :: 0 <= i < 5 ==> !Says(own, SEVERITIES[i])) ==> top == "")
  {
    var top := ProfileOf(pid, own).maxSeverity;
    ProfileSeverity(pid, own);
    hide ProfileOf, SeverityRank, SameLetters;
    RankMeans(top);
    forall k | 0 <= k < |own|
      ensures SeverityRank(SeverityOf(own[k])) > 0 ==>
                own[k].AlertRow? && Says(own, SEVERITIES[5 - SeverityRank(SeverityOf(own[k]))])
    {
      RankMeans(SeverityOf(own[k]));
      RankMeans("");
      Unranked();
      if own[k].AlertRow? && SeverityRank(SeverityOf(own[k])) > 0 {
        assert SameLetters(own[k].alert.severity, SEVERITIES[5 - SeverityRank(SeverityOf(own[k]))]);
      }
    }
    forall i | 0 <= i < 5 && Says(own, SEVERITIES[i])
      ensures SeverityRank(top) >= 5 - i
    {
      var k :| 0 <= k < |own| && own[k].AlertRow? && SameLetters(own[k].alert.severity, SEVERITIES[i]);
      RankMeans(own[k].alert.severity);
      assert SeverityOf(own[k]) == own[k].alert.severity;
    }
    Unranked();
    TopIsRanked(own, top);
    TopRank(pid, own);
  }

  lemma {:induction false} TopRank(pid: int, own: seq<Row>)
    ensures var top := ProfileOf(pid, own).maxSeverity; top == "" || SeverityRank(top) > 0
  {
    if own != [] {
      hide ProfileOf, SeverityRank;
      TopRank(pid, own[..|own| - 1]);
      SeverityStep(pid, own);
      RankMeans(ProfileOf(pid, own[..|own| - 1]).maxSeverity);
    }
  }

  lemma Unranked()
    ensures SeverityRank("") == 0
  {
  }

  lemma TopIsRanked(own: seq<Row>, top: string)
    requires IsGravest(own, top)
    ensures top != "" ==> exists k :: 0 <= k < |own| && SeverityOf(own[k]) == top
  {
  }

  // ---------- a node of one record ----------

  /** The node of a process with one event. */
  lemma OneEventShows(pid: int, e: Event)
    ensures var p := ProfileOf(pid, [EventRow(e, None)]);
            && p.image == Text(e, "Image") && p.user == Text(e, "User") && p.commandLine == Text(e, "CommandLine")
            && p.processName == (if Text(e, "Image") == "" then "" else LinBaseName(Text(e, "Image")))
            && p.alerts == [] && p.alertCount == 0 && p.maxSeverity == ""
            && p.eventCounts == map[e.category := 1] && p.firstSeen == p.lastSeen == Some(e.ts)
  {
    hide LinBaseName, ShownEvent;
    assert [EventRow(e, None)][..0] == [];
    assert ProfileOf(pid, []) == BLANK;
  }

  /** The node of a process with one alert. */
  lemma OneAlertShows(pid: int, a: Alert)
    ensures var p := ProfileOf(pid, [AlertRow(a, None)]);
            && p.image == a.executable && p.user == a.user && p.commandLine == a.commandLine
            && p.processName == a.processName && p.alertCount == 1 && p.events == map[]
            && p.firstSeen == p.lastSeen == Some(a.ts)
            && p.parentPid == (if a.parentPid > 0 && a.parentPid != pid then a.parentPid else 0)
  {
    hide ShownAlert, SeverityRank;
    assert [AlertRow(a, None)][..0] == [];
    assert ProfileOf(pid, []) == BLANK;
  }
}
