/**
 * The execution graph's window pass, re-run on every clock tick: segments
 * outside the trailing window [now - WindowMs, now] are dropped, the others
 * are clipped to it with a minimum visible width, grouped by core, and each
 * core's list is ordered by clipped start; cores come in ascending id order.
 */
module ExecutionWindow {
  import opened Wrappers
  import opened Sorting
  import opened ExecutionGraph
  import opened TraceTypes

  function Max(a: int, b: int): int { if a >= b then a else b }
  function Min(a: int, b: int): int { if a <= b then a else b }

  /** Sort key of the per-core lists. */
  function StartOf(s: Segment): int { s.start }

  /** Sort key of the list of cores. */
  function CoreOf(entry: (int, seq<Segment>)): int { entry.0 }

  /**
   * `seg` as the window ending at `now` shows it, or None when it lies wholly
   * outside. A shown segment starts inside the window and is at least
   * MinSegmentMs wide; it reaches past `now` only by that minimum width.
   */
  function Clip(seg: Segment, now: int): (r: Option<Segment>)
    ensures r.Some? <==> seg.end >= now - WindowMs && seg.start <= now
    ensures r.Some? ==> now - WindowMs <= r.value.start <= now
    ensures r.Some? ==> r.value.start >= seg.start
    ensures r.Some? ==> r.value.end - r.value.start >= MinSegmentMs
    ensures r.Some? ==> r.value.end <= Max(r.value.start + MinSegmentMs, now)
    ensures r.Some? ==> r.value.end >= Min(seg.end, now)
    ensures r.Some? ==> r.value == seg.(start := r.value.start, end := r.value.end)
    // A segment straddling the window start is cut there; one inside keeps its start.
    ensures r.Some? && seg.start < now - WindowMs ==> r.value.start == now - WindowMs
    ensures r.Some? && seg.start >= now - WindowMs ==> r.value.start == seg.start
    // It ends at its own end or at `now`, whichever comes first, unless that
    // would make it narrower than MinSegmentMs; then it is exactly that wide.
    ensures r.Some? && Min(seg.end, now) >= r.value.start + MinSegmentMs ==> r.value.end == Min(seg.end, now)
    ensures r.Some? && Min(seg.end, now) < r.value.start + MinSegmentMs ==> r.value.end == r.value.start + MinSegmentMs
  {
    var windowStart := now - WindowMs;
    if seg.end < windowStart || seg.start > now then None
    else
      var clippedStart := Max(seg.start, windowStart);
      Some(seg.(start := clippedStart, end := Max(clippedStart + MinSegmentMs, Min(seg.end, now))))
  }

  /** The clipped segments the window keeps, in input order. */
  function Kept(segs: seq<Segment>, now: int): seq<Segment> {
    if segs == [] then []
    else
      Kept(segs[..|segs| - 1], now) +
        (match Clip(segs[|segs| - 1], now) case Some(c) => [c] case None => [])
  }

  /** The segments of `segs` drawn on core `c`, in order. */
  function OnCore(segs: seq<Segment>, c: int): seq<Segment> {
    if segs == [] then []
    else OnCore(segs[..|segs| - 1], c) + (if segs[|segs| - 1].coreId == c then [segs[|segs| - 1]] else [])
  }

  /** The cores of `segs`, each once, in the order their first segment comes. */
  function FirstSeenCores(segs: seq<Segment>): seq<int> {
    if segs == [] then []
    else
      var earlier := FirstSeenCores(segs[..|segs| - 1]);
      var c := segs[|segs| - 1].coreId;
      if c in earlier then earlier else earlier + [c]
  }

  /** The cores some segment of `segs` is drawn on. */
  function CoreIds(segs: seq<Segment>): set<int> {
    if segs == [] then {} else CoreIds(segs[..|segs| - 1]) + {segs[|segs| - 1].coreId}
  }

  /**
   * What the window pass promises of its per-core output: cores in strictly
   * ascending order, exactly the cores of the kept segments, and for each core
   * its kept segments sorted by clipped start.
   */
  ghost predicate WindowedBy(cores: seq<(int, seq<Segment>)>, segments: seq<Segment>, now: int) {
    && (forall i, j :: 0 <= i < j < |cores| ==> cores[i].0 < cores[j].0)
    && (set i | 0 <= i < |cores| :: cores[i].0) == CoreIds(Kept(segments, now))
    && (forall i :: 0 <= i < |cores| ==> cores[i].1 == SortBy(OnCore(Kept(segments, now), cores[i].0), StartOf))
  }

  /**
   * The window memo. With no segments it returns no cores and no legend;
   * otherwise it clips, groups by core (remembering first-seen core order as a
   * JavaScript Map does), sorts each group, then sorts the groups by core id.
   */
  method Window(segments: seq<Segment>, functionColorMap: seq<ColorEntry>, now: int)
    returns (cores: seq<(int, seq<Segment>)>, windowStart: int, windowEnd: int, legendItems: seq<ColorEntry>)
    ensures windowEnd == now && windowStart == now - WindowMs
    ensures legendItems == if segments == [] then [] else functionColorMap
    ensures WindowedBy(cores, segments, now)
  {
    windowEnd := now;
    windowStart := windowEnd - WindowMs;
    if |segments| == 0 {
      return [], windowStart, windowEnd, [];
    }

    var grouped, order := GroupKept(segments, now);
    var byCore := SortEachGroup(grouped, order, Kept(segments, now));
    assert forall c :: c in byCore <==> c in grouped;
    var entries := seq(|order|, k requires 0 <= k < |order| => (order[k], byCore[order[k]]));
    cores := SortBy(entries, CoreOf);
    legendItems := functionColorMap;
    assert forall k :: 0 <= k < |order| ==> entries[k] == (order[k], byCore[order[k]]);
    SortedCoresAreWindowed(order, byCore, entries, cores, segments, now);
  }

  /**
   * The window pass's first loop: clip each segment, drop those outside the
   * window, and push the others onto their core's list, remembering the order
   * in which cores first appear.
   */
  method GroupKept(segments: seq<Segment>, now: int) returns (byCore: map<int, seq<Segment>>, order: seq<int>)
    ensures Grouped(byCore, order, Kept(segments, now))
  {
    var windowEnd := now;
    var windowStart := windowEnd - WindowMs;
    byCore, order := map[], [];
    for i := 0 to |segments|
      invariant Grouped(byCore, order, Kept(segments[..i], now))
    {
      var seg := segments[i];
      assert segments[..i + 1][..i] == segments[..i];
      if seg.end < windowStart || seg.start > windowEnd {
        assert Kept(segments[..i + 1], now) == Kept(segments[..i], now);
        continue;
      }
      var clippedStart := Max(seg.start, windowStart);
      var clippedEnd := Max(clippedStart + MinSegmentMs, Min(seg.end, windowEnd));
      assert Kept(segments[..i + 1], now) == Kept(segments[..i], now) + [seg.(start := clippedStart, end := clippedEnd)];
      ghost var (byCore0, order0) := (byCore, order);
      if seg.coreId !in byCore {
        byCore := byCore[seg.coreId := []];
        order := order + [seg.coreId];
      }
      byCore := byCore[seg.coreId := byCore[seg.coreId] + [seg.(start := clippedStart, end := clippedEnd)]];
      GroupedExtend(byCore0, order0, Kept(segments[..i], now), seg.(start := clippedStart, end := clippedEnd),
                    byCore, order);
    }
    assert segments[..|segments|] == segments;
  }

  /** The window pass's second loop: sort every core's list by clipped start. */
  method SortEachGroup(byCore: map<int, seq<Segment>>, order: seq<int>, ghost kept: seq<Segment>)
    returns (sorted: map<int, seq<Segment>>)
    requires Grouped(byCore, order, kept)
    ensures sorted.Keys == byCore.Keys == CoreIds(kept)
    ensures forall k :: 0 <= k < |order| ==> order[k] in sorted && sorted[order[k]] == SortBy(OnCore(kept, order[k]), StartOf)
  {
    GroupedInOrder(byCore, order, kept);
    sorted := byCore;
    for j := 0 to |order|
      invariant Distinct(order) && sorted.Keys == byCore.Keys
      invariant forall k :: 0 <= k < j ==> order[k] in sorted && sorted[order[k]] == SortBy(OnCore(kept, order[k]), StartOf)
      invariant forall k :: j <= k < |order| ==> order[k] in sorted && sorted[order[k]] == OnCore(kept, order[k])
    {
      ghost var before := sorted;
      sorted := sorted[order[j] := SortBy(sorted[order[j]], StartOf)];
      forall k | 0 <= k < |order| && k != j
        ensures sorted[order[k]] == before[order[k]]
      {
        assert order[k] != order[j];
      }
    }
  }

  /**
   * The grouping map after some kept segments: one list per core that has a
   * segment, holding that core's segments in order; `order` lists the cores
   * in the order they were first added.
   */
  ghost predicate Grouped(byCore: map<int, seq<Segment>>, order: seq<int>, kept: seq<Segment>) {
    && order == FirstSeenCores(kept)
    && Distinct(order)
    && (forall c :: c in byCore <==> c in order)
    && byCore.Keys == CoreIds(kept)
    && (forall c :: c in byCore ==> byCore[c] == OnCore(kept, c))
  }

  /** Every core of the first-seen order has its list of kept segments. */
  lemma GroupedInOrder(byCore: map<int, seq<Segment>>, order: seq<int>, kept: seq<Segment>)
    requires Grouped(byCore, order, kept)
    ensures forall k :: 0 <= k < |order| ==> order[k] in byCore && byCore[order[k]] == OnCore(kept, order[k])
  {
    forall k | 0 <= k < |order|
      ensures order[k] in byCore && byCore[order[k]] == OnCore(kept, order[k])
    {
      var c := order[k];
      assert c in order;
      assert c in byCore;
    }
  }

  /** Pushing one more kept segment onto its core's list keeps the grouping exact. */
  lemma GroupedExtend(byCore: map<int, seq<Segment>>, order: seq<int>, kept: seq<Segment>, s: Segment,
                      byCore': map<int, seq<Segment>>, order': seq<int>)
    requires Grouped(byCore, order, kept)
    requires s.coreId in byCore ==> order' == order && byCore' == byCore[s.coreId := byCore[s.coreId] + [s]]
    requires s.coreId !in byCore ==> order' == order + [s.coreId] && byCore' == byCore[s.coreId := [] + [s]]
    ensures Grouped(byCore', order', kept + [s])
  {
    var all := kept + [s];
    assert all[..|all| - 1] == kept;
    if s.coreId !in byCore {
      OnCoreAbsent(kept, s.coreId);
    }
  }

  /** A core with no segment yet has an empty list. */
  lemma {:induction false} OnCoreAbsent(segs: seq<Segment>, c: int)
    requires c !in CoreIds(segs)
    ensures OnCore(segs, c) == []
  {
    if segs != [] {
      OnCoreAbsent(segs[..|segs| - 1], c);
    }
  }

  /** Every segment is on its own core's list and on no other. */
  lemma {:induction false} OnCoreMembership(segs: seq<Segment>, s: Segment, c: int)
    ensures s in OnCore(segs, c) <==> s in segs && s.coreId == c
  {
    if segs != [] {
      var prefix := segs[..|segs| - 1];
      OnCoreMembership(prefix, s, c);
      assert segs == prefix + [segs[|segs| - 1]];
    }
  }

  /** The cores of `segs` are exactly the cores its segments are drawn on. */
  lemma {:induction false} CoreIdsMembership(segs: seq<Segment>, c: int)
    ensures c in CoreIds(segs) <==> exists s :: s in segs && s.coreId == c
  {
    if segs != [] {
      var prefix := segs[..|segs| - 1];
      CoreIdsMembership(prefix, c);
      assert segs == prefix + [segs[|segs| - 1]];
      if c in CoreIds(prefix) {
        var s :| s in prefix && s.coreId == c;
        assert s in segs;
      }
    }
  }

  /**
   * Sorting entries whose keys are all different orders them strictly by key
   * and keeps exactly the same entries.
   */
  lemma SortedUniqueKeys(entries: seq<(int, seq<Segment>)>, cores: seq<(int, seq<Segment>)>)
    requires forall a, b :: 0 <= a < b < |entries| ==> entries[a].0 != entries[b].0
    requires cores == SortBy(entries, CoreOf)
    ensures forall i, j :: 0 <= i < j < |cores| ==> cores[i].0 < cores[j].0
    ensures forall i :: 0 <= i < |cores| ==> cores[i] in entries
    ensures forall k :: 0 <= k < |entries| ==> entries[k] in cores
  {
    assert DistinctKeys(entries, CoreOf);
    PermutationSameMembers(entries, cores);
    PermutationKeepsDistinctKeys(entries, cores, CoreOf);
    SortedDistinctKeysAscend(cores, CoreOf);
  }

  /** The groups, sorted by core id, satisfy what the window pass promises. */
  lemma SortedCoresAreWindowed(order: seq<int>, byCore: map<int, seq<Segment>>,
                               entries: seq<(int, seq<Segment>)>, cores: seq<(int, seq<Segment>)>,
                               segments: seq<Segment>, now: int)
    requires Distinct(order) && forall c :: c in byCore <==> c in order
    requires byCore.Keys == CoreIds(Kept(segments, now))
    requires forall k :: 0 <= k < |order| ==>
               order[k] in byCore && byCore[order[k]] == SortBy(OnCore(Kept(segments, now), order[k]), StartOf)
    requires |entries| == |order| && forall k :: 0 <= k < |order| ==> entries[k] == (order[k], byCore[order[k]])
    requires cores == SortBy(entries, CoreOf)
    ensures WindowedBy(cores, segments, now)
  {
    SortedUniqueKeys(entries, cores);
    SortedCoreIds(order, entries, cores, CoreIds(Kept(segments, now)));
    forall i | 0 <= i < |cores|
      ensures cores[i].1 == SortBy(OnCore(Kept(segments, now), cores[i].0), StartOf)
    {
      assert cores[i] in entries;
    }
  }

  /** The sorted groups name exactly the cores the grouping map has. */
  lemma SortedCoreIds(order: seq<int>, entries: seq<(int, seq<Segment>)>,
                      cores: seq<(int, seq<Segment>)>, ids: set<int>)
    requires forall c :: c in ids <==> c in order
    requires |entries| == |order| && forall k :: 0 <= k < |order| ==> entries[k].0 == order[k]
    requires forall i :: 0 <= i < |cores| ==> cores[i] in entries
    requires forall k :: 0 <= k < |entries| ==> entries[k] in cores
    ensures (set i | 0 <= i < |cores| :: cores[i].0) == ids
  {
    var got := set i | 0 <= i < |cores| :: cores[i].0;
    forall c | c in ids
      ensures c in got
    {
      var k :| 0 <= k < |order| && order[k] == c;
      assert entries[k] in cores;
      var i :| 0 <= i < |cores| && cores[i] == entries[k];
    }
    forall c | c in got
      ensures c in ids
    {
      var i :| 0 <= i < |cores| && cores[i].0 == c;
      assert cores[i] in entries;
    }
  }

  /**
   * Every kept segment is in the list of its own core and in no other list;
   * every list holds only its core's kept segments, ordered by clipped start.
   */
  lemma KeptSegmentInItsCoreList(cores: seq<(int, seq<Segment>)>, segments: seq<Segment>, now: int, s: Segment)
    requires WindowedBy(cores, segments, now)
    ensures s in Kept(segments, now) ==>
              exists i :: 0 <= i < |cores| && cores[i].0 == s.coreId && s in cores[i].1
    ensures forall i :: 0 <= i < |cores| && s in cores[i].1 ==>
              s in Kept(segments, now) && s.coreId == cores[i].0
    ensures forall i :: 0 <= i < |cores| ==> SortedBy(cores[i].1, StartOf)
  {
    var kept := Kept(segments, now);
    forall i | 0 <= i < |cores| && s in cores[i].1
      ensures s in kept && s.coreId == cores[i].0
    {
      assert s in multiset(SortBy(OnCore(kept, cores[i].0), StartOf));
      OnCoreMembership(kept, s, cores[i].0);
    }
    if s in kept {
      CoreIdsMembership(kept, s.coreId);
      assert s.coreId in (set i | 0 <= i < |cores| :: cores[i].0);
      var i :| 0 <= i < |cores| && cores[i].0 == s.coreId;
      OnCoreMembership(kept, s, s.coreId);
      assert s in multiset(OnCore(kept, s.coreId));
      assert s in cores[i].1;
    }
  }

  /**
   * A nested call on core 0: the outer call (trace 1, call 1) spans 0..40 and
   * the inner one (trace 1, call 2) spans 5..15. Correlation yields the inner
   * call first, then the outer, colored by first appearance. At `now` = 100
   * the window keeps both, but the inner one is widened to the 30 ms minimum.
   */
  lemma NestedCallScenario()
    ensures var es := [Tracked(Enter(0, 0, 1, 1, 0, [], "outer", "p1"), 0),
                       Tracked(Enter(0, 5, 1, 2, 0, [], "inner", "p2"), 5),
                       Tracked(Exit(0, 15, 1, 2, 0, "inner", "p3"), 15),
                       Tracked(Exit(0, 40, 1, 1, 0, "outer", "p4"), 40)];
            var segs := CorrelateEvents(es).segments;
            && segs == [Segment(0, "inner", 5, 15, ExitSegment, "bg-cyan-400"),
                        Segment(0, "outer", 0, 40, ExitSegment, "bg-emerald-400")]
            && Clip(segs[0], 100) == Some(Segment(0, "inner", 5, 35, ExitSegment, "bg-cyan-400"))
            && Clip(segs[1], 100) == Some(segs[1])
  {
    var es := [Tracked(Enter(0, 0, 1, 1, 0, [], "outer", "p1"), 0),
               Tracked(Enter(0, 5, 1, 2, 0, [], "inner", "p2"), 5),
               Tracked(Exit(0, 15, 1, 2, 0, "inner", "p3"), 15),
               Tracked(Exit(0, 40, 1, 1, 0, "outer", "p4"), 40)];
    var c1 := CorrelateEvents(es[..1]);
    assert es[..1] == [es[0]] && es[..1][..0] == [];
    assert c1 == Step(CorrelateEvents(es[..1][..0]), es[..1][0]);
    assert CorrelateEvents([]) == Correlation(map[], [], []);
    assert c1 == Step(Correlation(map[], [], []), es[0]);
    assert c1.openCalls == map[CallKey(0, 1, 1) := es[0]] && c1.segments == [] && c1.functionColorMap == [];
    var c2 := CorrelateEvents(es[..2]);
    assert es[..2][..1] == es[..1];
    assert c2 == Step(c1, es[1]);
    assert c2.openCalls == map[CallKey(0, 1, 1) := es[0], CallKey(0, 1, 2) := es[1]] && c2.segments == [];
    var c3 := CorrelateEvents(es[..3]);
    assert es[..3][..2] == es[..2];
    assert c3 == Step(c2, es[2]);
    assert c3.segments == [Segment(0, "inner", 5, 15, ExitSegment, "bg-cyan-400")];
    assert c3.functionColorMap == [ColorEntry("inner", "bg-cyan-400")];
    assert c3.openCalls == map[CallKey(0, 1, 1) := es[0]];
    assert es[..4][..3] == es[..3];
    assert es[..4] == es;
    assert CorrelateEvents(es) == Step(c3, es[3]);
    assert "inner" != "outer";
    assert ColorOf(c3.functionColorMap, "outer") == None;
    assert FunctionPalette[1 % |FunctionPalette|] == "bg-emerald-400";
  }
}
