/** What the rows of a process say about it, as the lineage page shows it. */
module LineageProfile {
  import opened Bytes
  import opened LineageIndex
  import opened Records

  // ---------- one record ----------

  datatype LinAlert = LinAlert(id: int, ts: int, ruleName: string, severity: string, engine: string)

  datatype LinEvent = LinEvent(id: int, ts: int, category: string, action: string, summary: string)

  function ShownAlert(a: Alert): LinAlert {
    LinAlert(a.id, a.ts, a.ruleName, a.severity, a.engine)
  }

  function ShownEvent(e: Event): LinEvent {
    LinEvent(e.id, e.ts, e.category, Action(e), EventSummary(e))
  }

  /** The bytes of an arrow. */
  const ARROW: string := "\U{E2}\U{86}\U{92}"

  function EventSummary(e: Event): string {
    if e.category == "Dns" then
      var q, rt := FieldOf(e, "QueryName"), FieldOf(e, "RecordType");
      if rt != "" && q != "" then q + " (" + rt + ")" else q
    else if e.category == "Network" then
      FieldOf(e, "SourceIp") + ":" + FieldOf(e, "SourcePort") + " " + ARROW + " "
      + FieldOf(e, "DestinationIp") + ":" + FieldOf(e, "DestinationPort") + " " + Upper(FieldOf(e, "Protocol"))
    else if e.category == "File" then FieldOf(e, "TargetFilename")
    else if e.category == "Process" && FieldOf(e, "CommandLine") != "" then FieldOf(e, "CommandLine")
    else FieldOf(e, "Image")
  }

  function SeverityRank(s: string): int {
    var t := Lower(s);
    if t == "critical" then 5
    else if t == "high" then 4
    else if t == "medium" then 3
    else if t == "low" then 2
    else if t == "info" then 1
    else 0
  }

  /** path.Base of a path with a slash: trailing slashes go, then all up to the last slash. */
  function Base(p: string): string
    decreases |p|
  {
    if p == "" then "/"
    else if p[|p| - 1] == '/' then Base(p[..|p| - 1])
    else AfterSlash(p)
  }

  function AfterSlash(p: string): string {
    if '/' !in p then p else AfterSlash(p[1..])
  }

  function LinBaseName(p: string): string {
    if '/' !in p then p else Base(p)
  }

  lemma {:induction false} BaseNotEmpty(p: string)
    ensures Base(p) != ""
    decreases |p|
  {
    if p != "" {
      if p[|p| - 1] == '/' {
        BaseNotEmpty(p[..|p| - 1]);
      } else {
        AfterSlashNotEmpty(p);
      }
    }
  }

  lemma {:induction false} AfterSlashNotEmpty(p: string)
    requires p != "" && p[|p| - 1] != '/'
    ensures AfterSlash(p) != ""
  {
    if '/' in p && |p| > 1 {
      AfterSlashNotEmpty(p[1..]);
    }
  }

  // ---------- all rows ----------

  /** Image, names, times, parent, longest command line, alerts in order with the gravest severity, and events in
      order by category. */
  datatype Profile = Profile(image: string, processName: string, user: string, commandLine: string, parentPid: int,
                             firstSeen: Option<int>, lastSeen: Option<int>,
                             alerts: seq<LinAlert>, alertCount: int, maxSeverity: string,
                             events: map<string, seq<LinEvent>>, eventCounts: map<string, int>)

  const BLANK := Profile("", "", "", "", 0, None, None, [], 0, "", map[], map[])

  function CommandLineOf(r: Row): string {
    if r.AlertRow? then r.alert.commandLine else FieldOf(r.event, "CommandLine")
  }

  /** The process name that a row offers; "" if none. */
  function NameOf(r: Row): string {
    if r.AlertRow? then r.alert.processName
    else
      var img := FieldOf(r.event, "Image");
      if img == "" then "" else LinBaseName(img)
  }

  function UserOf(r: Row): string {
    if r.AlertRow? then r.alert.user else FieldOf(r.event, "User")
  }

  function EventsOf(p: Profile, cat: string): seq<LinEvent> {
    if cat in p.events then p.events[cat] else []
  }

  function CountOf(p: Profile, cat: string): int {
    if cat in p.eventCounts then p.eventCounts[cat] else 0
  }

  /** What a row adds apart from times and parent. */
  function Applied(p: Profile, r: Row): Profile {
    var line := CommandLineOf(r);
    var q := p.(processName := if p.processName == "" then NameOf(r) else p.processName,
                user := if p.user == "" then UserOf(r) else p.user,
                commandLine := if |line| > |p.commandLine| then line else p.commandLine);
    match r
    case AlertRow(a, _) =>
      q.(image := if p.image == "" then a.executable else p.image,
         alerts := p.alerts + [ShownAlert(a)], alertCount := p.alertCount + 1,
         maxSeverity := if SeverityRank(a.severity) > SeverityRank(p.maxSeverity) then a.severity else p.maxSeverity)
    case EventRow(e, _) =>
      q.(image := if FieldOf(e, "Image") != "" then FieldOf(e, "Image") else p.image,
         events := p.events[e.category := EventsOf(p, e.category) + [ShownEvent(e)]],
         eventCounts := p.eventCounts[e.category := CountOf(p, e.category) + 1])
  }

  function Touched(p: Profile, pid: int, r: Row): Profile {
    var ts := r.Ts();
    var pp := ParentPidOf(r);
    p.(firstSeen := if p.firstSeen.None? || ts < p.firstSeen.value then Some(ts) else p.firstSeen,
       lastSeen := if p.lastSeen.None? || ts > p.lastSeen.value then Some(ts) else p.lastSeen,
       parentPid := if p.parentPid == 0 && pp > 0 && pp != pid then pp else p.parentPid)
  }

  function ProfileOf(pid: int, own: seq<Row>): Profile {
    if own == [] then BLANK
    else
      var r := own[|own| - 1];
      Applied(Touched(ProfileOf(pid, own[..|own| - 1]), pid, r), r)
  }

  // ---------- what a profile means ----------

  /** The earliest and the latest time of any row; none without rows. */
  ghost predicate IsSpan(own: seq<Row>, first: Option<int>, last: Option<int>) {
    if own == [] then first == last == None
    else
      && first.Some? && (forall k :: 0 <= k < |own| ==> first.value <= own[k].Ts())
      && last.Some? && (forall k :: 0 <= k < |own| ==> own[k].Ts() <= last.value)
      && (exists k :: 0 <= k < |own| && own[k].Ts() == first.value)
      && (exists k :: 0 <= k < |own| && own[k].Ts() == last.value)
  }

  lemma SpanPush(own: seq<Row>, first: Option<int>, last: Option<int>, r: Row)
    requires IsSpan(own, first, last)
    ensures IsSpan(own + [r], if first.None? || r.Ts() < first.value then Some(r.Ts()) else first,
                   if last.None? || r.Ts() > last.value then Some(r.Ts()) else last)
  {
    var all := own + [r];
    assert all[|own|] == r;
    if own != [] {
      var j :| 0 <= j < |own| && own[j].Ts() == first.value;
      var k :| 0 <= k < |own| && own[k].Ts() == last.value;
      assert all[j] == own[j] && all[k] == own[k];
    }
  }

  lemma {:induction false} ProfileTimes(pid: int, own: seq<Row>)
    ensures IsSpan(own, ProfileOf(pid, own).firstSeen, ProfileOf(pid, own).lastSeen)
  {
    hide Applied, Touched, IsSpan;
    if own == [] {
      Unsaid(pid);
    } else {
      var init, r := own[..|own| - 1], own[|own| - 1];
      hide ProfileOf;
      ProfileTimes(pid, init);
      TimesStep(pid, own);
      assert own == init + [r];
      SpanPush(init, ProfileOf(pid, init).firstSeen, ProfileOf(pid, init).lastSeen, r);
    }
  }

  lemma TimesStep(pid: int, own: seq<Row>)
    requires own != []
    ensures var before, p, ts := ProfileOf(pid, own[..|own| - 1]), ProfileOf(pid, own), own[|own| - 1].Ts();
            var first, last := before.firstSeen, before.lastSeen;
            && p.firstSeen == (if first.None? || ts < first.value then Some(ts) else first)
            && p.lastSeen == (if last.None? || ts > last.value then Some(ts) else last)
  {
    hide ShownEvent, ShownAlert, SeverityRank, NameOf, UserOf, ParentPidOf;
  }

  /** The first of the longest command lines. */
  ghost predicate IsLongest(own: seq<Row>, line: string) {
    && (forall k :: 0 <= k < |own| ==> |CommandLineOf(own[k])| <= |line|)
    && (line == "" || exists m :: 0 <= m < |own| && CommandLineOf(own[m]) == line
                                  && forall k :: 0 <= k < m ==> |CommandLineOf(own[k])| < |line|)
  }

  lemma LongestPush(own: seq<Row>, before: string, r: Row)
    requires IsLongest(own, before)
    ensures IsLongest(own + [r], if |CommandLineOf(r)| > |before| then CommandLineOf(r) else before)
  {
    hide CommandLineOf;
    var all := own + [r];
    if |CommandLineOf(r)| > |before| {
      assert all[|own|] == r;
    } else if before != "" {
      var m :| 0 <= m < |own| && CommandLineOf(own[m]) == before
               && forall k :: 0 <= k < m ==> |CommandLineOf(own[k])| < |before|;
      assert all[m] == own[m];
    }
  }

  lemma LineStep(pid: int, own: seq<Row>)
    requires own != []
    ensures var before, line := ProfileOf(pid, own[..|own| - 1]).commandLine, CommandLineOf(own[|own| - 1]);
            ProfileOf(pid, own).commandLine == if |line| > |before| then line else before
  {
    hide ShownEvent, ShownAlert, SeverityRank, NameOf, UserOf;
  }

  lemma {:induction false} ProfileLine(pid: int, own: seq<Row>)
    ensures IsLongest(own, ProfileOf(pid, own).commandLine)
  {
    hide Applied, Touched, IsLongest;
    if own == [] {
      Unsaid(pid);
    } else {
      var init, r := own[..|own| - 1], own[|own| - 1];
      hide ProfileOf, CommandLineOf, IsLongest;
      ProfileLine(pid, init);
      LineStep(pid, own);
      assert own == init + [r];
      LongestPush(init, ProfileOf(pid, init).commandLine, r);
    }
  }

  predicate NamesParent(r: Row, pid: int) {
    ParentPidOf(r) > 0 && ParentPidOf(r) != pid
  }

  /** The first other process that a row names as the parent. */
  ghost predicate IsFirstParent(own: seq<Row>, pid: int, pp: int) {
    if pp == 0 then forall k :: 0 <= k < |own| ==> !NamesParent(own[k], pid)
    else exists m :: 0 <= m < |own| && NamesParent(own[m], pid) && ParentPidOf(own[m]) == pp
                     && forall k :: 0 <= k < m ==> !NamesParent(own[k], pid)
  }

  lemma FirstParentPush(own: seq<Row>, pid: int, before: int, r: Row)
    requires IsFirstParent(own, pid, before)
    ensures IsFirstParent(own + [r], pid, if before == 0 && NamesParent(r, pid) then ParentPidOf(r) else before)
  {
    assert NamesParent(r, pid) ==> ParentPidOf(r) != 0;
    hide NamesParent, ParentPidOf;
    var all := own + [r];
    if before != 0 {
      var m :| 0 <= m < |own| && NamesParent(own[m], pid) && ParentPidOf(own[m]) == before
               && forall k :: 0 <= k < m ==> !NamesParent(own[k], pid);
      assert all[m] == own[m];
    } else if NamesParent(r, pid) {
      assert all[|own|] == r;
    }
  }

  lemma ParentStep(pid: int, own: seq<Row>)
    requires own != []
    ensures var before, r := ProfileOf(pid, own[..|own| - 1]).parentPid, own[|own| - 1];
            ProfileOf(pid, own).parentPid == if before == 0 && NamesParent(r, pid) then ParentPidOf(r) else before
  {
    hide ShownEvent, ShownAlert, SeverityRank, NameOf, UserOf, ParentPidOf;
  }

  lemma {:induction false} ProfileParent(pid: int, own: seq<Row>)
    ensures IsFirstParent(own, pid, ProfileOf(pid, own).parentPid)
  {
    hide Applied, Touched, IsFirstParent;
    if own == [] {
      Unsaid(pid);
    } else {
      var init, r := own[..|own| - 1], own[|own| - 1];
      hide ProfileOf, NamesParent, ParentPidOf, IsFirstParent;
      ProfileParent(pid, init);
      ParentStep(pid, own);
      assert own == init + [r];
      FirstParentPush(init, pid, ProfileOf(pid, init).parentPid, r);
    }
  }

  /** The alerts, and the events of a category, in order. */
  function AlertsIn(own: seq<Row>): seq<LinAlert> {
    if own == [] then []
    else (if own[0].AlertRow? then [ShownAlert(own[0].alert)] else []) + AlertsIn(own[1..])
  }

  function EventsIn(own: seq<Row>, cat: string): seq<LinEvent> {
    if own == [] then []
    else
      var here := own[0].EventRow? && own[0].event.category == cat;
      (if here then [ShownEvent(own[0].event)] else []) + EventsIn(own[1..], cat)
  }

  lemma {:induction false} AlertsInPush(own: seq<Row>, r: Row)
    ensures AlertsIn(own + [r]) == AlertsIn(own) + (if r.AlertRow? then [ShownAlert(r.alert)] else [])
  {
    hide ShownAlert;
    if own != [] {
      AlertsInPush(own[1..], r);
      assert (own + [r])[1..] == own[1..] + [r];
    }
  }

  lemma {:induction false} EventsInPush(own: seq<Row>, r: Row, cat: string)
    ensures EventsIn(own + [r], cat) ==
              EventsIn(own, cat) + (if r.EventRow? && r.event.category == cat then [ShownEvent(r.event)] else [])
  {
    hide ShownEvent;
    if own != [] {
      EventsInPush(own[1..], r, cat);
      assert (own + [r])[1..] == own[1..] + [r];
    }
  }

  /** No record is left out, none is shown twice, and the counts are the lengths of the lists. */
  lemma {:induction false} ProfileRecords(pid: int, own: seq<Row>)
    ensures var p := ProfileOf(pid, own);
            && p.alerts == AlertsIn(own) && p.alertCount == |p.alerts|
            && (forall cat :: EventsOf(p, cat) == EventsIn(own, cat) && CountOf(p, cat) == |EventsOf(p, cat)|)
  {
    hide Applied, Touched, EventsOf, CountOf, ShownEvent, ShownAlert;
    if own == [] {
      NoRecords(pid);
    } else {
      hide ProfileOf, AlertsIn, EventsIn;
      var init, r := own[..|own| - 1], own[|own| - 1];
      ProfileRecords(pid, init);
      assert own == init + [r];
      AlertsInPush(init, r);
      RecordsStep(pid, own);
      var before, p := ProfileOf(pid, init), ProfileOf(pid, own);
      forall cat
        ensures EventsOf(p, cat) == EventsIn(own, cat) && CountOf(p, cat) == |EventsOf(p, cat)|
      {
        EventsInPush(init, r, cat);
        assert EventsOf(before, cat) == EventsIn(init, cat);
      }
    }
  }

  lemma NoRecords(pid: int)
    ensures var p := ProfileOf(pid, []);
            && p.alerts == AlertsIn([]) && p.alertCount == 0
            && (forall cat :: EventsOf(p, cat) == EventsIn([], cat) == [] && CountOf(p, cat) == 0)
  {
  }

  lemma RecordsStep(pid: int, own: seq<Row>)
    requires own != []
    ensures var before, p, r := ProfileOf(pid, own[..|own| - 1]), ProfileOf(pid, own), own[|own| - 1];
            && p.alerts == before.alerts + (if r.AlertRow? then [ShownAlert(r.alert)] else [])
            && p.alertCount == before.alertCount + (if r.AlertRow? then 1 else 0)
            && (forall cat ::
                  var here := r.EventRow? && r.event.category == cat;
                  && EventsOf(p, cat) == EventsOf(before, cat) + (if here then [ShownEvent(r.event)] else [])
                  && CountOf(p, cat) == CountOf(before, cat) + (if here then 1 else 0))
  {
    hide Applied, Touched, EventsOf, CountOf;
    AppliedRecords(ProfileOf(pid, own[..|own| - 1]), pid, own[|own| - 1]);
  }

  lemma AppliedRecords(before: Profile, pid: int, r: Row)
    ensures var p := Applied(Touched(before, pid, r), r);
            && p.alerts == before.alerts + (if r.AlertRow? then [ShownAlert(r.alert)] else [])
            && p.alertCount == before.alertCount + (if r.AlertRow? then 1 else 0)
            && (forall cat ::
                  var here := r.EventRow? && r.event.category == cat;
                  && EventsOf(p, cat) == EventsOf(before, cat) + (if here then [ShownEvent(r.event)] else [])
                  && CountOf(p, cat) == CountOf(before, cat) + (if here then 1 else 0))
  {
    hide ShownEvent, ShownAlert;
  }

  // ---------- names ----------

  /** The first text that any row offers. */
  ghost predicate FirstOffered(own: seq<Row>, offer: Row -> string, v: string) {
    if v == "" then forall k :: 0 <= k < |own| ==> offer(own[k]) == ""
    else exists m :: 0 <= m < |own| && offer(own[m]) == v && forall k :: 0 <= k < m ==> offer(own[k]) == ""
  }

  lemma FirstOfferedPush(own: seq<Row>, offer: Row -> string, v: string, r: Row)
    requires FirstOffered(own, offer, v)
    ensures FirstOffered(own + [r], offer, if v == "" then offer(r) else v)
  {
    var all := own + [r];
    if v != "" {
      var m :| 0 <= m < |own| && offer(own[m]) == v && forall k :: 0 <= k < m ==> offer(own[k]) == "";
      assert all[m] == own[m];
    } else if offer(r) != "" {
      assert all[|own|] == r;
    }
  }

  /** Process name and user are the first that a row names; an event names its image's base name. */
  lemma {:induction false} ProfileNames(pid: int, own: seq<Row>)
    ensures FirstOffered(own, NameOf, ProfileOf(pid, own).processName)
    ensures FirstOffered(own, UserOf, ProfileOf(pid, own).user)
  {
    hide Applied, Touched, FirstOffered;
    if own == [] {
      Unsaid(pid);
    } else {
      var init, r := own[..|own| - 1], own[|own| - 1];
      hide ProfileOf, FirstOffered, NameOf, UserOf;
      ProfileNames(pid, init);
      NamesStep(pid, own);
      assert own == init + [r];
      FirstOfferedPush(init, NameOf, ProfileOf(pid, init).processName, r);
      FirstOfferedPush(init, UserOf, ProfileOf(pid, init).user, r);
    }
  }

  lemma NamesStep(pid: int, own: seq<Row>)
    requires own != []
    ensures var before, p, r := ProfileOf(pid, own[..|own| - 1]), ProfileOf(pid, own), own[|own| - 1];
            && p.processName == (if before.processName == "" then NameOf(r) else before.processName)
            && p.user == (if before.user == "" then UserOf(r) else before.user)
  {
    hide ShownEvent, ShownAlert, SeverityRank, NameOf, UserOf;
  }

  function EventImage(r: Row): string {
    if r.EventRow? then FieldOf(r.event, "Image") else ""
  }

  function AlertImage(r: Row): string {
    if r.AlertRow? then r.alert.executable else ""
  }

  /** The image is the one of the last event that has one; without such an event, of the first alert that has one. */
  ghost predicate IsImage(own: seq<Row>, image: string) {
    if forall k :: 0 <= k < |own| ==> EventImage(own[k]) == "" then FirstOffered(own, AlertImage, image)
    else exists m :: 0 <= m < |own| && EventImage(own[m]) == image != ""
                     && forall k :: m < k < |own| ==> EventImage(own[k]) == ""
  }

  lemma ImagePush(own: seq<Row>, before: string, r: Row)
    requires IsImage(own, before)
    ensures IsImage(own + [r],
                    if EventImage(r) != "" then EventImage(r) else if before == "" then AlertImage(r) else before)
  {
    hide EventImage, AlertImage, FirstOffered;
    var all := own + [r];
    assert all[|own|] == r && forall k :: 0 <= k < |own| ==> all[k] == own[k];
    if EventImage(r) == "" {
      if forall k :: 0 <= k < |own| ==> EventImage(own[k]) == "" {
        FirstOfferedPush(own, AlertImage, before, r);
      } else {
        var m :| 0 <= m < |own| && EventImage(own[m]) == before != ""
                 && forall k :: m < k < |own| ==> EventImage(own[k]) == "";
        assert EventImage(all[m]) == before;
      }
    }
  }

  lemma {:induction false} ProfileImage(pid: int, own: seq<Row>)
    ensures IsImage(own, ProfileOf(pid, own).image)
  {
    hide Applied, Touched, IsImage;
    if own == [] {
      Unsaid(pid);
    } else {
      var init, r := own[..|own| - 1], own[|own| - 1];
      hide ProfileOf, EventImage, AlertImage, IsImage;
      ProfileImage(pid, init);
      ImageStep(pid, own);
      assert own == init + [r];
      ImagePush(init, ProfileOf(pid, init).image, r);
    }
  }

  lemma ImageStep(pid: int, own: seq<Row>)
    requires own != []
    ensures var before, image, r := ProfileOf(pid, own[..|own| - 1]).image, ProfileOf(pid, own).image, own[|own| - 1];
            image == if EventImage(r) != "" then EventImage(r) else if before == "" then AlertImage(r) else before
  {
    hide ShownEvent, ShownAlert, SeverityRank, NameOf, UserOf;
  }

  // ---------- severity ----------

  function SeverityOf(r: Row): string {
    if r.AlertRow? then r.alert.severity else ""
  }

  /** The first severity of the highest rank; none if no alert has a ranked severity. */
  ghost predicate IsGravest(own: seq<Row>, top: string) {
    && (forall k :: 0 <= k < |own| ==> SeverityRank(SeverityOf(own[k])) <= SeverityRank(top))
    && (top == "" || exists m :: 0 <= m < |own| && SeverityOf(own[m]) == top
                                 && forall k :: 0 <= k < m ==> SeverityRank(SeverityOf(own[k])) < SeverityRank(top))
  }

  lemma GravestPush(own: seq<Row>, before: string, r: Row)
    requires IsGravest(own, before)
    ensures IsGravest(own + [r], if SeverityRank(SeverityOf(r)) > SeverityRank(before) then SeverityOf(r) else before)
  {
    hide SeverityOf, SeverityRank;
    var all := own + [r];
    if SeverityRank(SeverityOf(r)) > SeverityRank(before) {
      assert all[|own|] == r;
    } else if before != "" {
      var m :| 0 <= m < |own| && SeverityOf(own[m]) == before
               && forall k :: 0 <= k < m ==> SeverityRank(SeverityOf(own[k])) < SeverityRank(before);
      assert all[m] == own[m];
    }
  }

  lemma {:induction false} ProfileSeverity(pid: int, own: seq<Row>)
    ensures IsGravest(own, ProfileOf(pid, own).maxSeverity)
  {
    hide Applied, Touched, IsGravest;
    if own == [] {
      Unsaid(pid);
    } else {
      var init, r := own[..|own| - 1], own[|own| - 1];
      hide ProfileOf, SeverityOf, SeverityRank, IsGravest;
      ProfileSeverity(pid, init);
      SeverityStep(pid, own);
      assert own == init + [r];
      GravestPush(init, ProfileOf(pid, init).maxSeverity, r);
    }
  }

  lemma SeverityStep(pid: int, own: seq<Row>)
    requires own != []
    ensures var before, r := ProfileOf(pid, own[..|own| - 1]).maxSeverity, own[|own| - 1];
            ProfileOf(pid, own).maxSeverity ==
              if SeverityRank(SeverityOf(r)) > SeverityRank(before) then SeverityOf(r) else before
  {
    hide ShownEvent, ShownAlert, NameOf, UserOf;
    RankNothing(ProfileOf(pid, own[..|own| - 1]).maxSeverity);
    hide SeverityRank;
  }

  // ---------- one row as the source of a node ----------

  function ImageOf(r: Row): string {
    if r.AlertRow? then AlertImage(r) else EventImage(r)
  }

  /** The first row with the longest command line. */
  ghost predicate MostInformative(own: seq<Row>, m: int) {
    && 0 <= m < |own|
    && (forall k :: 0 <= k < |own| ==> |CommandLineOf(own[k])| <= |CommandLineOf(own[m])|)
    && (forall k :: 0 <= k < m ==> |CommandLineOf(own[k])| < |CommandLineOf(own[m])|)
  }

  lemma {:induction false} SomeMostInformative(own: seq<Row>) returns (m: int)
    requires own != []
    ensures MostInformative(own, m)
  {
    m := 0;
    if |own| > 1 {
      var init := own[..|own| - 1];
      m := SomeMostInformative(init);
      assert forall k :: 0 <= k < |init| ==> own[k] == init[k];
      if |CommandLineOf(own[|own| - 1])| > |CommandLineOf(own[m])| {
        m := |own| - 1;
      }
    }
  }

  /** The node takes its command line from that row, and its image, process name and user too exactly when the last
      event with an image (without such an event, the first alert with one) has the image of the row, and the first
      rows that offer a name and a user offer what the row offers. */
  lemma FromOneRow(pid: int, own: seq<Row>, m: int)
    requires MostInformative(own, m)
    ensures var p, r := ProfileOf(pid, own), own[m];
            && p.commandLine == CommandLineOf(r)
            && (p.image == ImageOf(r) <==> IsImage(own, ImageOf(r)))
            && (p.processName == NameOf(r) <==> FirstOffered(own, NameOf, NameOf(r)))
            && (p.user == UserOf(r) <==> FirstOffered(own, UserOf, UserOf(r)))
  {
    hide ProfileOf, IsImage, FirstOffered, IsLongest, NameOf, UserOf, ImageOf, CommandLineOf;
    var p, r := ProfileOf(pid, own), own[m];
    ProfileLine(pid, own);
    OneLongest(own, m, p.commandLine);
    ProfileImage(pid, own);
    OneImage(own, p.image, ImageOf(r));
    ProfileNames(pid, own);
    OneFirst(own, NameOf, p.processName, NameOf(r));
    OneFirst(own, UserOf, p.user, UserOf(r));
  }

  /** If that row is an event with an image, the condition is on later images and earlier names only, and the node
      has a name. */
  lemma FromOneEvent(pid: int, own: seq<Row>, m: int)
    requires MostInformative(own, m) && EventImage(own[m]) != ""
    ensures var p, r := ProfileOf(pid, own), own[m];
            && p.processName != "" && NameOf(r) != ""
            && (p.image == ImageOf(r) && p.processName == NameOf(r) && p.user == UserOf(r) <==>
                && (exists k :: m <= k < |own| && EventImage(own[k]) == EventImage(r)
                                && forall j :: k < j < |own| ==> EventImage(own[j]) == "")
                && (exists k :: 0 <= k <= m && NameOf(own[k]) == NameOf(r)
                                && forall j :: 0 <= j < k ==> NameOf(own[j]) == "")
                && FirstOffered(own, UserOf, UserOf(r)))
  {
    hide ProfileOf, NameOf, UserOf, EventImage, AlertImage, CommandLineOf;
    var r := own[m];
    EventImages(r);
    FromOneRow(pid, own, m);
    ProfileNames(pid, own);
  }

  lemma EventImages(r: Row)
    requires EventImage(r) != ""
    ensures ImageOf(r) == EventImage(r) && NameOf(r) != ""
  {
    BaseNotEmpty(EventImage(r));
  }

  lemma OneLongest(own: seq<Row>, m: int, line: string)
    requires MostInformative(own, m) && IsLongest(own, line)
    ensures line == CommandLineOf(own[m])
  {
    hide CommandLineOf;
    if line != "" {
      var k :| 0 <= k < |own| && CommandLineOf(own[k]) == line
               && forall j :: 0 <= j < k ==> |CommandLineOf(own[j])| < |line|;
      assert k == m;
    }
  }

  lemma OneFirst(own: seq<Row>, offer: Row -> string, v: string, w: string)
    requires FirstOffered(own, offer, v)
    ensures v == w <==> FirstOffered(own, offer, w)
  {
  }

  lemma OneImage(own: seq<Row>, v: string, w: string)
    requires IsImage(own, v)
    ensures v == w <==> IsImage(own, w)
  {
    hide EventImage, AlertImage, FirstOffered;
    if forall k :: 0 <= k < |own| ==> EventImage(own[k]) == "" {
      OneFirst(own, AlertImage, v, w);
    }
  }

  function Runs(id: int, image: string, line: string): Row {
    EventRow(Event(id, id, "Process", 1, 0, map["Image" := image, "CommandLine" := line]), None)
  }

  /** Image and command line need not come from one event: here the later event names the image and the earlier one,
      with the longer command line, the command line. */
  lemma MixedExample(pid: int)
    ensures var p := ProfileOf(pid, [Runs(1, "/bin/a", "a --all"), Runs(2, "/bin/b", "b")]);
            p.image == "/bin/b" && p.commandLine == "a --all"
  {
    hide ProfileOf, Applied, Touched;
    var own := [Runs(1, "/bin/a", "a --all"), Runs(2, "/bin/b", "b")];
    ProfileImage(pid, own);
    ProfileLine(pid, own);
    assert EventImage(own[1]) == "/bin/b";
    assert CommandLineOf(own[0]) == "a --all" && CommandLineOf(own[1]) == "b";
  }

  lemma RankNothing(s: string)
    ensures SeverityRank("") == 0 <= SeverityRank(s)
  {
  }

  /** Without rows nothing is said. */
  lemma Unsaid(pid: int)
    ensures IsLongest([], "") && IsFirstParent([], pid, 0) && IsImage([], "") && IsGravest([], "")
    ensures FirstOffered([], NameOf, "") && FirstOffered([], UserOf, "") && IsSpan([], None, None)
  {
  }
}
