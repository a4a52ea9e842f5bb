/** The key under which rows fold into one burst, and the time window that goes with it. */
module CollapseKey {
  import opened Bytes
  import opened Decimal
  import opened Records

  const SECOND: int := 1_000_000_000
  const SEP: char := 0x1F as char

  /** windowFor. */
  function Window(r: Row): int {
    if r.AlertRow? then 10 * SECOND
    else if r.event.category == "Dns" then 5 * SECOND
    else if r.event.category == "Network" then 5 * SECOND
    else if r.event.category == "File" then 2 * SECOND
    else if r.event.category == "Process" then 2 * SECOND
    else 10 * SECOND
  }

  /** parentDir; `dir` stands for path.Dir. */
  function ParentDir(dir: string -> string, p: string): string {
    if TrimSpace(p) == "" then "" else dir(TrimSpace(p))
  }

  /** A tag for the kind of row, then the key fields; no parts at all for a row that never folds. */
  function KeyParts(r: Row, dir: string -> string): (parts: seq<string>)
    ensures parts != [] ==> |parts| >= 2 && SEP !in parts[0]
  {
    if r.AlertRow? then
      if r.alert.ruleName == "" then [] else ["a", r.alert.ruleName, Itoa(r.alert.pid)]
    else
      var e := r.event;
      if e.category == "Dns" then
        var q, rt := FieldOf(e, "QueryName"), FieldOf(e, "RecordType");
        if q == "" && rt == "" then [] else ["e/d", q, rt]
      else if e.category == "Network" then
        var sip, dip := FieldOf(e, "SourceIp"), FieldOf(e, "DestinationIp");
        if sip == "" && dip == "" then []
        else ["e/n", sip, FieldOf(e, "SourcePort"), dip, FieldOf(e, "DestinationPort"), FieldOf(e, "Protocol")]
      else if e.category == "File" then
        var img, pid := FieldOf(e, "Image"), FieldOf(e, "ProcessId");
        var parent := ParentDir(dir, FieldOf(e, "TargetFilename"));
        if img == "" && pid == "" && parent == "" then [] else ["e/f", img, pid, Action(e), parent]
      else if e.category == "Process" then
        var img, cmd := FieldOf(e, "Image"), FieldOf(e, "CommandLine");
        if img == "" && cmd == "" then [] else ["e/p", img, cmd, Action(e)]
      else []
  }

  function Join(parts: seq<string>): string {
    if parts == [] then "" else if |parts| == 1 then parts[0] else parts[0] + [SEP] + Join(parts[1..])
  }

  /** collapseKey. */
  function Key(r: Row, dir: string -> string): string {
    Join(KeyParts(r, dir))
  }

  // ---------- keys and their fields ----------

  lemma FirstByte(a: string, x: string)
    requires SEP !in a
    ensures a == "" <==> (a + [SEP] + x)[0] == SEP
    ensures a != "" ==> (a + [SEP] + x)[0] == a[0]
  {
    assert a != "" ==> a[0] in a;
  }

  /** The text before the first separator is determined by the whole text. */
  lemma {:induction false} FirstPart(a: string, b: string, x: string, y: string)
    requires SEP !in a && SEP !in b && a + [SEP] + x == b + [SEP] + y
    ensures a == b && x == y
    decreases |a|
  {
    var s := a + [SEP] + x;
    FirstByte(a, x);
    FirstByte(b, y);
    if a == "" {
      assert s[1..] == x && (b + [SEP] + y)[1..] == y;
    } else {
      assert s[1..] == a[1..] + [SEP] + x;
      assert (b + [SEP] + y)[1..] == b[1..] + [SEP] + y;
      FirstPart(a[1..], b[1..], x, y);
    }
  }

  ghost predicate NoSeparator(parts: seq<string>) {
    forall i :: 0 <= i < |parts| ==> SEP !in parts[i]
  }

  lemma JoinStart(parts: seq<string>)
    requires |parts| >= 2
    ensures SEP in Join(parts) && Join(parts) == parts[0] + [SEP] + Join(parts[1..])
  {
    assert Join(parts)[|parts[0]|] == SEP;
  }

  lemma {:induction false} JoinInjective(a: seq<string>, b: seq<string>)
    requires |a| >= 1 && |b| >= 1 && NoSeparator(a) && NoSeparator(b) && Join(a) == Join(b)
    ensures a == b
    decreases |a|
  {
    if |a| == 1 || |b| == 1 {
      if |a| > 1 {
        JoinStart(a);
      }
      if |b| > 1 {
        JoinStart(b);
      }
      assert a == [a[0]] && b == [b[0]];
    } else {
      FirstPart(a[0], b[0], Join(a[1..]), Join(b[1..]));
      JoinInjective(a[1..], b[1..]);
      assert a == [a[0]] + a[1..] && b == [b[0]] + b[1..];
    }
  }

  /** Rows of one key agree on every key field, if no field holds the separator. */
  lemma KeyInjective(r: Row, s: Row, dir: string -> string)
    requires KeyParts(r, dir) != [] && KeyParts(s, dir) != []
    requires NoSeparator(KeyParts(r, dir)) && NoSeparator(KeyParts(s, dir))
    ensures Key(r, dir) == Key(s, dir) <==> KeyParts(r, dir) == KeyParts(s, dir)
  {
    if Key(r, dir) == Key(s, dir) {
      JoinInjective(KeyParts(r, dir), KeyParts(s, dir));
    }
  }

  lemma EmptyKey(r: Row, dir: string -> string)
    ensures Key(r, dir) == "" <==> KeyParts(r, dir) == []
  {
    if KeyParts(r, dir) != [] {
      JoinStart(KeyParts(r, dir));
    }
  }

  predicate SameKind(r: Row, s: Row) {
    r.AlertRow? == s.AlertRow? && (r.EventRow? ==> r.event.category == s.event.category)
  }

  /** Whatever the fields hold, rows of one key are of the same kind and category and have the same window. */
  lemma KeyFixesKind(r: Row, s: Row, dir: string -> string)
    requires Key(r, dir) == Key(s, dir) != ""
    ensures SameKind(r, s) && Window(r) == Window(s)
  {
    EmptyKey(r, dir);
    EmptyKey(s, dir);
    var a, b := KeyParts(r, dir), KeyParts(s, dir);
    JoinStart(a);
    JoinStart(b);
    FirstPart(a[0], b[0], Join(a[1..]), Join(b[1..]));
    assert a[0] == b[0];
    TagFixesKind(r, s, dir);
  }

  lemma TagFixesKind(r: Row, s: Row, dir: string -> string)
    requires KeyParts(r, dir) != [] && KeyParts(s, dir) != [] && KeyParts(r, dir)[0] == KeyParts(s, dir)[0]
    ensures SameKind(r, s)
  {
    assert |"a"| == 1 && "e/d"[2] == 'd' && "e/n"[2] == 'n' && "e/f"[2] == 'f' && "e/p"[2] == 'p';
  }

  /** On alerts the key is exactly the rule and the process. */
  lemma AlertKey(r: Row, s: Row, dir: string -> string)
    requires r.AlertRow? && s.AlertRow? && r.alert.ruleName != "" && s.alert.ruleName != ""
    requires SEP !in r.alert.ruleName && SEP !in s.alert.ruleName
    requires MIN_INT64 <= r.alert.pid <= MAX_INT64 && MIN_INT64 <= s.alert.pid <= MAX_INT64
    ensures Key(r, dir) == Key(s, dir) <==> r.alert.ruleName == s.alert.ruleName && r.alert.pid == s.alert.pid
  {
    var a, b := KeyParts(r, dir), KeyParts(s, dir);
    assert SEP !in a[2] && SEP !in b[2];
    assert NoSeparator(a) && NoSeparator(b);
    KeyInjective(r, s, dir);
    if a == b {
      assert a[1] == b[1] && a[2] == b[2];
      ItoaInjective(r.alert.pid, s.alert.pid);
    }
  }
}
