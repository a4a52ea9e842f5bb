/** Folding in terms of record fields: which two rows become one, and what that one shows. */
module CollapseFields {
  import opened Bytes
  import opened Decimal
  import opened Records
  import opened CollapseKey
  import opened CollapseSpec
  import Collapse

  // ---------- the keys of the four categories ----------

  /** The texts of these fields hold no separator. */
  predicate Separate(e: Event, names: seq<string>) {
    forall i :: 0 <= i < |names| ==> SEP !in FieldOf(e, names[i])
  }

  predicate IsEvent(r: Row, category: string) {
    r.EventRow? && r.event.category == category
  }

  /** Both events have this text in this field, or none. */
  predicate Agree(r: Row, s: Row, name: string)
    requires r.EventRow? && s.EventRow?
  {
    FieldOf(r.event, name) == FieldOf(s.event, name)
  }

  predicate Lacks(r: Row, name: string)
    requires r.EventRow?
  {
    FieldOf(r.event, name) == ""
  }

  /** Which rows never fold, field by field. */
  lemma NeverFolds(r: Row, dir: string -> string)
    ensures r.AlertRow? ==> (Key(r, dir) == "" <==> r.alert.ruleName == "")
    ensures IsEvent(r, "Dns") ==> (Key(r, dir) == "" <==> Lacks(r, "QueryName") && Lacks(r, "RecordType"))
    ensures IsEvent(r, "Network") ==> (Key(r, dir) == "" <==> Lacks(r, "SourceIp") && Lacks(r, "DestinationIp"))
    ensures IsEvent(r, "File") ==>
              (Key(r, dir) == "" <==> Lacks(r, "Image") && Lacks(r, "ProcessId")
                                      && ParentDir(dir, FieldOf(r.event, "TargetFilename")) == "")
    ensures IsEvent(r, "Process") ==> (Key(r, dir) == "" <==> Lacks(r, "Image") && Lacks(r, "CommandLine"))
    ensures r.EventRow? && r.event.category !in {"Dns", "Network", "File", "Process"} ==> Key(r, dir) == ""
  {
    EmptyKey(r, dir);
    hide Join;
  }

  lemma DnsKey(r: Row, s: Row, dir: string -> string)
    requires IsEvent(r, "Dns") && IsEvent(s, "Dns") && Key(r, dir) != "" && Key(s, dir) != ""
    requires Separate(r.event, ["QueryName", "RecordType"]) && Separate(s.event, ["QueryName", "RecordType"])
    ensures Key(r, dir) == Key(s, dir) <==> Agree(r, s, "QueryName") && Agree(r, s, "RecordType")
  {
    var names := ["QueryName", "RecordType"];
    var a, b := Texts(r.event, names), Texts(s.event, names);
    PartsOf(r, dir);
    PartsOf(s, dir);
    assert KeyParts(r, dir) == ["e/d"] + a && KeyParts(s, dir) == ["e/d"] + b;
    SameTexts(r, s, dir, names, "e/d", a, b);
    assert names[0] == "QueryName" && names[1] == "RecordType";
  }

  const NETWORK_FIELDS: seq<string> := ["SourceIp", "SourcePort", "DestinationIp", "DestinationPort", "Protocol"]

  lemma NetworkKey(r: Row, s: Row, dir: string -> string)
    requires IsEvent(r, "Network") && IsEvent(s, "Network") && Key(r, dir) != "" && Key(s, dir) != ""
    requires Separate(r.event, NETWORK_FIELDS) && Separate(s.event, NETWORK_FIELDS)
    ensures Key(r, dir) == Key(s, dir) <==>
              && Agree(r, s, "SourceIp") && Agree(r, s, "SourcePort")
              && Agree(r, s, "DestinationIp") && Agree(r, s, "DestinationPort") && Agree(r, s, "Protocol")
  {
    var names := NETWORK_FIELDS;
    var a, b := Texts(r.event, names), Texts(s.event, names);
    NetworkParts(r, dir);
    NetworkParts(s, dir);
    hide KeyParts;
    SameTexts(r, s, dir, names, "e/n", a, b);
    assert names[0] == "SourceIp" && names[1] == "SourcePort" && names[2] == "DestinationIp";
    assert names[3] == "DestinationPort" && names[4] == "Protocol";
  }

  lemma NetworkParts(r: Row, dir: string -> string)
    requires IsEvent(r, "Network") && Key(r, dir) != ""
    ensures KeyParts(r, dir) == ["e/n"] + Texts(r.event, NETWORK_FIELDS)
  {
    PartsOf(r, dir);
  }

  /** File events: the image, the process, the action and the directory. */
  lemma FileKey(r: Row, s: Row, dir: string -> string)
    requires IsEvent(r, "File") && IsEvent(s, "File") && Key(r, dir) != "" && Key(s, dir) != ""
    requires Separate(r.event, ["Image", "ProcessId"]) && Separate(s.event, ["Image", "ProcessId"])
    requires SEP !in ParentDir(dir, FieldOf(r.event, "TargetFilename"))
    requires SEP !in ParentDir(dir, FieldOf(s.event, "TargetFilename"))
    ensures Key(r, dir) == Key(s, dir) <==>
              && Agree(r, s, "Image") && Agree(r, s, "ProcessId") && SameAction(r.event, s.event)
              && ParentDir(dir, FieldOf(r.event, "TargetFilename"))
                 == ParentDir(dir, FieldOf(s.event, "TargetFilename"))
  {
    var a, b := KeyParts(r, dir), KeyParts(s, dir);
    PartsOf(r, dir);
    PartsOf(s, dir);
    SeparateAt(r.event, ["Image", "ProcessId"]);
    SeparateAt(s.event, ["Image", "ProcessId"]);
    ActionApart(r.event);
    ActionApart(s.event);
    ActionsTell(r.event, s.event);
    assert a[0] == b[0] == "e/f" && |a| == |b| == 5;
    FiveSeparate(a);
    FiveSeparate(b);
    hide KeyParts, Action, SameAction, ParentDir;
    KeyInjective(r, s, dir);
    assert a == b <==> a[1] == b[1] && a[2] == b[2] && a[3] == b[3] && a[4] == b[4];
  }

  lemma ProcessKey(r: Row, s: Row, dir: string -> string)
    requires IsEvent(r, "Process") && IsEvent(s, "Process") && Key(r, dir) != "" && Key(s, dir) != ""
    requires Separate(r.event, ["Image", "CommandLine"]) && Separate(s.event, ["Image", "CommandLine"])
    ensures Key(r, dir) == Key(s, dir) <==>
              Agree(r, s, "Image") && Agree(r, s, "CommandLine") && SameAction(r.event, s.event)
  {
    var a, b := KeyParts(r, dir), KeyParts(s, dir);
    PartsOf(r, dir);
    PartsOf(s, dir);
    SeparateAt(r.event, ["Image", "CommandLine"]);
    SeparateAt(s.event, ["Image", "CommandLine"]);
    ActionApart(r.event);
    ActionApart(s.event);
    ActionsTell(r.event, s.event);
    assert a[0] == b[0] == "e/p" && |a| == |b| == 4;
    FourSeparate(a);
    FourSeparate(b);
    hide KeyParts, Action, SameAction;
    KeyInjective(r, s, dir);
    assert a == b <==> a[1] == b[1] && a[2] == b[2] && a[3] == b[3];
  }

  /** Two File or two Process events show the same action: the same event id, or both an id without a name of its own
      and, for processes, the same opcode or two opcodes without a name. */
  predicate SameAction(e: Event, f: Event) {
    if e.category == "File" then e.eventId == f.eventId || (e.eventId !in FILE_IDS && f.eventId !in FILE_IDS)
    else
      || (e.eventId == f.eventId && e.eventId in {1, 5})
      || (e.eventId !in {1, 5} && f.eventId !in {1, 5}
          && (e.opcode == f.opcode || (e.opcode !in {1, 2} && f.opcode !in {1, 2})))
  }

  const FILE_IDS: set<int> := {11, 23, 65, 71}

  lemma ActionsTell(e: Event, f: Event)
    requires e.category == f.category && (e.category == "File" || e.category == "Process")
    ensures Action(e) == Action(f) <==> SameAction(e, f)
  {
    assert |"FILE"| == 4 && |"FILE_CREATE"| == |"FILE_DELETE"| == |"FILE_CHANGE"| == |"FILE_RENAME"| == 11;
    assert "FILE_CREATE"[5] == 'C' && "FILE_DELETE"[5] == 'D' && "FILE_CHANGE"[6] == 'H' && "FILE_RENAME"[5] == 'R';
    assert "FILE_CREATE"[6] == 'R' && "FILE_CHANGE"[5] == 'C';
    assert |"PROCESS"| == 7 && |"PROCESS_CREATE"| == 14 && |"PROCESS_TERMINATE"| == 17;
    assert |"PROCESS_EXEC"| == |"PROCESS_EXIT"| == 12;
    assert "PROCESS_EXEC"[10] == 'E' && "PROCESS_EXIT"[10] == 'I';
  }

  lemma ActionApart(e: Event)
    ensures SEP !in Action(e)
  {
  }

  /** The directory does not depend on blanks around the path, and a blank path has none. */
  lemma ParentDirMeans(dir: string -> string, a: string, path: string, b: string)
    requires Blanks(a) && Blanks(b)
    ensures Solid(path) ==> ParentDir(dir, a + path + b) == dir(path)
    ensures ParentDir(dir, a) == ""
  {
    hide TrimSpace, Solid, Blanks;
    if Solid(path) {
      TrimMeans(a, path, b);
      assert path != "" by {
        SolidIsText(path);
      }
    }
    TrimMeans(a, "", "") by {
      NoBlanks();
    }
    assert a + "" + "" == a;
  }

  lemma SolidIsText(s: string)
    requires Solid(s)
    ensures s != ""
  {
  }

  lemma NoBlanks()
    ensures Blanks("")
  {
  }

  // ---------- two rows ----------

  /** The row for two: the first, with the count, the span, the last time and the number of the second. */
  function Both(r: Row, s: Row): Row {
    r.(burst := Some(Burst(2, s.Ts() - r.Ts(), s.Ts(), [s.Id()])))
  }

  /** How long a burst of this kind waits for the next row: nanoseconds. */
  predicate Waits(r: Row, limit: int) {
    match r
    case AlertRow(_, _) => limit == 10_000_000_000
    case EventRow(e, _) =>
      if e.category == "Dns" || e.category == "Network" then limit == 5_000_000_000
      else if e.category == "File" || e.category == "Process" then limit == 2_000_000_000
      else limit == 10_000_000_000
  }

  /** Two rows become one exactly when they have one key and the second comes within the time its kind waits. */
  lemma PairFolds(r: Row, s: Row, dir: string -> string, limit: int)
    requires Waits(s, limit)
    ensures Folded([r, s], Collapse.KeyOf(dir)) ==
              if Key(r, dir) == Key(s, dir) != "" && s.Ts() - r.Ts() <= limit then multiset{Both(r, s)}
              else multiset{r} + multiset{s}
  {
    assert Window(s) == limit;
    hide Folded, Key, Window, Waits;
    PairOf(r, s, Collapse.KeyOf(dir));
  }

  lemma PairOf(r: Row, s: Row, key: Keying)
    ensures Folded([r, s], key) ==
              if key(r) == key(s) != "" && s.Ts() - r.Ts() <= Window(s) then multiset{Both(r, s)}
              else multiset{r} + multiset{s}
  {
    hide Folded, Extends, Window, LastSeg, Both, Summary;
    OneRow(r, key);
    JoinsOne(r, s, key);
    assert [r] + [s] == [r, s];
    if Extends([r], s, key) {
      var rest, was, now := Joined(r, s, key);
      assert rest == multiset{};
    } else {
      FoldedNew([r], s, key);
    }
  }

  lemma OneRow(r: Row, key: Keying)
    ensures Folded([r], key) == multiset{r}
  {
    hide Folded, Extends;
    FoldedNothing(key);
    NothingExtends(r, key);
    FoldedNew([], r, key);
    assert [] + [r] == [r];
  }

  lemma JoinsOne(r: Row, s: Row, key: Keying)
    ensures Extends([r], s, key) <==> key(r) == key(s) != "" && s.Ts() - r.Ts() <= Window(s)
  {
    OneSub(r, key, key(s));
    hide Sub, Segments, Window;
  }

  lemma Joined(r: Row, s: Row, key: Keying) returns (rest: multiset<Row>, was: Row, now: Row)
    requires Extends([r], s, key)
    ensures Folded([r], key) == rest + multiset{was} && Folded([r] + [s], key) == rest + multiset{now}
    ensures was == r && now == Both(r, s)
  {
    hide Folded, Window;
    rest := FoldedExtend([r], s, key);
    OneSub(r, key, key(s));
    BothIsSummary(r, s);
    var seg := LastSeg([r], key, key(s));
    assert seg == Seg(r, []);
    was, now := Summary(seg), Summary(seg.With(s));
  }

  lemma OneSub(r: Row, key: Keying, k: string)
    ensures Sub([r], key, k) == if key(r) == k then [r] else []
    ensures Segments([r]) == [Seg(r, [])]
  {
    assert [r][..0] == [];
    assert Segments([]) == [];
  }

  lemma BothIsSummary(r: Row, s: Row)
    ensures Summary(Seg(r, []).With(s)) == Both(r, s) && Summary(Seg(r, [])) == r
  {
    assert [] + [s] == [s];
    assert MemberIDs([s]) == [s.Id()];
  }

  /** What a burst shows: the first row as it is, how many there are, the time from the first to the last, the time of
      the last, and the numbers of the rows after the first, up to 50. */
  lemma BurstMeans(seg: Seg)
    requires seg.rest != []
    ensures var shown, last := Summary(seg), seg.rest[|seg.rest| - 1];
            && shown.burst.Some? && shown == seg.head.(burst := shown.burst)
            && var b := shown.burst.value;
               && b.count == 1 + |seg.rest| && b.span == last.Ts() - seg.head.Ts() && b.lastSeen == last.Ts()
               && |b.memberIDs| == (if |seg.rest| <= 50 then |seg.rest| else 50)
               && forall i :: 0 <= i < |b.memberIDs| ==> b.memberIDs[i] == seg.rest[i].Id()
  {
  }

  /** Two connections of one client to two ports of one server stay two rows; to one port, they are one. */
  function Connection(id: int, ts: int, port: string): Row {
    EventRow(Event(id, ts, "Network", 3, 0,
                   map["SourceIp" := "10.0.0.5", "SourcePort" := "40000", "DestinationIp" := "10.0.0.9",
                       "DestinationPort" := port, "Protocol" := "TCP"]), None)
  }

  lemma PortsApart(dir: string -> string, port: string, other: string)
    requires SEP !in port && SEP !in other
    ensures var r, s := Connection(1, 0, port), Connection(2, 1_000_000_000, other);
            Folded([r, s], Collapse.KeyOf(dir)) ==
              if port == other then multiset{Both(r, s)} else multiset{r} + multiset{s}
  {
    hide Folded, Key;
    var r, s := Connection(1, 0, port), Connection(2, 1_000_000_000, other);
    NeverFolds(r, dir);
    NeverFolds(s, dir);
    NetworkKey(r, s, dir);
    PairFolds(r, s, dir, 5_000_000_000);
  }

  // ---------- helpers ----------

  function Texts(e: Event, names: seq<string>): (texts: seq<string>)
    ensures |texts| == |names| && forall i :: 0 <= i < |names| ==> texts[i] == FieldOf(e, names[i])
  {
    seq(|names|, i requires 0 <= i < |names| => FieldOf(e, names[i]))
  }

  lemma PartsOf(r: Row, dir: string -> string)
    requires Key(r, dir) != ""
    ensures KeyParts(r, dir) != []
  {
    EmptyKey(r, dir);
  }

  lemma SameTexts(r: Row, s: Row, dir: string -> string, names: seq<string>, tag: string,
                  a: seq<string>, b: seq<string>)
    requires r.EventRow? && s.EventRow? && Separate(r.event, names) && Separate(s.event, names) && SEP !in tag
    requires a == Texts(r.event, names) && b == Texts(s.event, names)
    requires KeyParts(r, dir) == [tag] + a && KeyParts(s, dir) == [tag] + b
    ensures Key(r, dir) == Key(s, dir) <==> forall i :: 0 <= i < |names| ==> Agree(r, s, names[i])
  {
    hide KeyParts, Texts;
    assert NoSeparator([tag] + a) && NoSeparator([tag] + b);
    KeyInjective(r, s, dir);
    if [tag] + a == [tag] + b {
      assert a == ([tag] + a)[1..] == ([tag] + b)[1..] == b;
    }
    assert a == b <==> forall i :: 0 <= i < |names| ==> a[i] == b[i];
  }

  lemma SeparateAt(e: Event, names: seq<string>)
    requires Separate(e, names) && |names| == 2
    ensures SEP !in FieldOf(e, names[0]) && SEP !in FieldOf(e, names[1])
  {
  }

  lemma FourSeparate(parts: seq<string>)
    requires |parts| == 4
    requires SEP !in parts[0] && SEP !in parts[1] && SEP !in parts[2] && SEP !in parts[3]
    ensures NoSeparator(parts)
  {
  }

  lemma FiveSeparate(parts: seq<string>)
    requires |parts| == 5 && SEP !in parts[4]
    requires SEP !in parts[0] && SEP !in parts[1] && SEP !in parts[2] && SEP !in parts[3]
    ensures NoSeparator(parts)
  {
  }
}
