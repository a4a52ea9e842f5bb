/** Which rows a query shows, field by field and toggle by toggle. */
module TimelineFields {
  import opened Records
  import opened Timeline

  lemma {:induction false} WhereBag(rows: seq<Row>, p: Choice, r: Row)
    ensures multiset(Where(rows, p))[r] == if p(r) then multiset(rows)[r] else 0
  {
    if rows != [] {
      var init, last := rows[..|rows| - 1], rows[|rows| - 1];
      assert rows == init + [last];
      WhereBag(init, p, r);
    }
  }

  // ---------- what is selected ----------

  /** The kind is asked for: both kinds when both toggles are the same, else the one whose toggle is set. */
  predicate KindAsked(f: Filters, r: Row) {
    f.includeAlerts == f.includeEvents || (if f.includeAlerts then r.AlertRow? else r.EventRow?)
  }

  /** Not before the start and not after the end, where there is one. */
  predicate Inside(f: Filters, t: int) {
    (f.from == None || t >= f.from.value) && (f.to == None || t <= f.to.value)
  }

  /** A query selects the rows of the kinds asked for, inside the window, that meet its other filters: as often as
      they are there, and in their order. */
  lemma Selects(rows: seq<Row>, f: Filters, r: Row)
    ensures multiset(Matching(rows, f))[r] ==
              if Inside(f, r.Ts()) && KindAsked(f, r) && f.matches(r) then multiset(rows)[r] else 0
    ensures Sorted(rows) ==> Sorted(Matching(rows, f))
  {
    WhereBag(rows, r => InWindow(f, r) && Wanted(f, r), r);
    if Sorted(rows) {
      WhereSorted(rows, r => InWindow(f, r) && Wanted(f, r));
    }
  }

  /** With only one toggle set, rows of the other kind are not shown, and all of this kind that meet the other filters
      are. */
  lemma OneKind(rows: seq<Row>, f: Filters, r: Row)
    requires f.includeAlerts != f.includeEvents
    ensures f.includeAlerts && r.EventRow? ==> r !in Matching(rows, f)
    ensures f.includeEvents && r.AlertRow? ==> r !in Matching(rows, f)
    ensures (f.includeAlerts <==> r.AlertRow?) && r in rows && Inside(f, r.Ts()) && f.matches(r) ==>
              r in Matching(rows, f)
  {
    Selects(rows, f, r);
    InBag(rows, r);
    InBag(Matching(rows, f), r);
  }

  lemma InBag(rows: seq<Row>, r: Row)
    ensures r in rows <==> multiset(rows)[r] > 0
  {
    assert r in rows <==> r in multiset(rows);
  }

  // ---------- one page ----------

  /** A page starts after the cursor, if there is one. */
  lemma StartMeans(rows: seq<Row>, f: Filters, r: Row)
    ensures var left := After(Matching(rows, f), f.cursor);
            multiset(left)[r] ==
              if Inside(f, r.Ts()) && KindAsked(f, r) && f.matches(r) && (f.cursor > 0 ==> r.Ts() > f.cursor)
              then multiset(rows)[r] else 0
  {
    hide Where;
    Selects(rows, f, r);
    if f.cursor > 0 {
      WhereBag(Matching(rows, f), (x: Row) => x.Ts() > f.cursor, r);
    }
  }

  /** It holds the first of these rows, up to the limit, says that there is more exactly when it is full, and gives the
      time of its last row. */
  lemma PageMeans(rows: seq<Row>, f: Filters)
    ensures var left, page, n := After(Matching(rows, f), f.cursor), PageOf(rows, f), PageLimit(f.limit);
            && page.rows == left[..if |left| < n then |left| else n]
            && page.hasMore == (|page.rows| == n)
            && page.next == if page.rows == [] then 0 else page.rows[|page.rows| - 1].Ts()
  {
    hide After, Matching;
  }

  /** The default and the cap of a page. */
  lemma LimitMeans(limit: int)
    ensures PageLimit(limit) == if limit <= 0 then 500 else if limit > 5000 then 5000 else limit
  {
  }

  /** The limits that the filters document, 200 and 1000, are the ones that apply exactly for limits up to 1000. */
  lemma LimitDiffers(limit: int)
    ensures PageLimit(limit) == (if limit <= 0 then 200 else if limit > 1000 then 1000 else limit) <==>
              1 <= limit <= 1000
  {
  }

  // ---------- noise ----------

  const SIGNAL_FIELDS: set<string> :=
    {"Image", "ProcessId", "CommandLine", "TargetFilename", "QueryName", "SourceIp", "DestinationIp"}

  /** No text in any of the seven fields that count. */
  predicate Silent(e: Event) {
    forall name :: name in SIGNAL_FIELDS ==> name !in e.fields || e.fields[name] == ""
  }

  /** A query for nothing or for the root, or one that the sensor could not classify. */
  predicate NoiseQuery(e: Event) {
    || "QueryName" !in e.fields || e.fields["QueryName"] in {"", "."}
    || ("RecordType" in e.fields && e.fields["RecordType"] == "OTHER")
  }

  /** What dropping garbage keeps: every alert, every Dns event that is no noise query, and every other event with a
      text in one of the seven fields; as often as it is there. */
  lemma KeepMeans(rows: seq<Row>, r: Row)
    ensures multiset(Keep(rows))[r] ==
              if r.AlertRow? || (if r.event.category == "Dns" then !NoiseQuery(r.event) else !Silent(r.event))
              then multiset(rows)[r] else 0
  {
    WhereBag(rows, x => !IsGarbage(x), r);
    if r.EventRow? {
      var e := r.event;
      SilentMeans(e);
    }
  }

  lemma SilentMeans(e: Event)
    ensures Silent(e) <==>
              && FieldOf(e, "Image") == "" && FieldOf(e, "ProcessId") == "" && FieldOf(e, "CommandLine") == ""
              && FieldOf(e, "TargetFilename") == "" && FieldOf(e, "QueryName") == "" && FieldOf(e, "SourceIp") == ""
              && FieldOf(e, "DestinationIp") == ""
    ensures !NoiseQuery(e) ==> !Silent(e)
  {
    if Silent(e) {
      assert "Image" !in e.fields || e.fields["Image"] == "";
      assert "ProcessId" !in e.fields || e.fields["ProcessId"] == "";
      assert "CommandLine" !in e.fields || e.fields["CommandLine"] == "";
      assert "TargetFilename" !in e.fields || e.fields["TargetFilename"] == "";
      assert "QueryName" !in e.fields || e.fields["QueryName"] == "";
      assert "SourceIp" !in e.fields || e.fields["SourceIp"] == "";
      assert "DestinationIp" !in e.fields || e.fields["DestinationIp"] == "";
    }
  }
}
