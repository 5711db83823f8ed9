/**
 * The execution graph's correlation pass: received trace events, in arrival
 * order, become call segments. An ENTER opens a call under its
 * (core, trace, call) key, the EXIT with the same key closes it into a
 * segment, and PANIC and RESTART events become fixed-width markers. Function
 * names get palette colors in the order they are first seen.
 */
module ExecutionGraph {
  import opened Wrappers
  import opened Sorting
  import opened TraceTypes

  /** Length of the trailing window of the live view, in milliseconds. */
  const WindowMs: int := 2000
  /** Minimum visual width of a segment, in milliseconds. */
  const MinSegmentMs: int := 30

  /** The colors handed out to function names, in this order, cyclically. */
  const FunctionPalette: seq<string> := [
    "bg-cyan-400", "bg-emerald-400", "bg-violet-400",
    "bg-amber-400", "bg-pink-400", "bg-sky-400",
    "bg-lime-400", "bg-rose-400", "bg-fuchsia-400"
  ]
  const PanicColor: string := "bg-red-500"
  const RestartColor: string := "bg-orange-400"
  /** The core id under which restarts are drawn: a lane of their own. */
  const RestartCoreId: int := -1

  datatype SegmentKind = ExitSegment | PanicSegment | RestartSegment

  /** One bar of the timeline: a finished call, a panic or a restart. */
  datatype Segment = Segment(coreId: int, funcName: string, start: int, end: int,
                             traceType: SegmentKind, colorClass: string)

  /** The key that pairs an ENTER with its EXIT. */
  datatype CallKey = CallKey(coreId: int, traceId: int, funcCallId: int)

  /** One entry of the function-to-color map, which keeps insertion order. */
  datatype ColorEntry = ColorEntry(name: string, colorClass: string)

  /** What the correlation loop carries from one event to the next. */
  datatype Correlation = Correlation(openCalls: map<CallKey, TrackedTraceEntry>,
                                     segments: seq<Segment>,
                                     functionColorMap: seq<ColorEntry>)

  function KeyOf(e: TraceEntry): CallKey
    requires !e.Restart?
  {
    CallKey(e.coreId, e.traceId, e.funcCallId)
  }

  /** The color a name already has in the map, if any. */
  function ColorOf(colors: seq<ColorEntry>, name: string): Option<string> {
    if colors == [] then None
    else if colors[0].name == name then Some(colors[0].colorClass)
    else ColorOf(colors[1..], name)
  }

  /**
   * Looks `name` up, first giving it the next palette color (by the number of
   * names already in the map) when it has none; returns the map and the color.
   */
  function GetColorForFunction(colors: seq<ColorEntry>, name: string): (r: (seq<ColorEntry>, string))
    ensures ColorOf(r.0, name) == Some(r.1)
    ensures colors <= r.0
    ensures ColorOf(colors, name).Some? ==> r == (colors, ColorOf(colors, name).value)
    ensures ColorOf(colors, name).None? ==>
              r.0 == colors + [ColorEntry(name, r.1)] && r.1 == FunctionPalette[|colors| % |FunctionPalette|]
  {
    match ColorOf(colors, name)
    case Some(c) => (colors, c)
    case None =>
      var c := FunctionPalette[|colors| % |FunctionPalette|];
      ColorOfAppended(colors, name, c);
      (colors + [ColorEntry(name, c)], c)
  }


  /** How the correlation pass handles one event. */
  function Step(c: Correlation, e: TrackedTraceEntry): (r: Correlation)
    ensures |r.segments| == |c.segments| + (if e.entry.Enter? then 0 else 1)
    ensures r.segments[..|c.segments|] == c.segments
    ensures c.functionColorMap <= r.functionColorMap
  {
    match e.entry
    case Enter(_, _, _, _, _, _, _, _) =>
      c.(openCalls := c.openCalls[KeyOf(e.entry) := e])
    case Exit(coreId, _, _, _, _, funcName, _) =>
      var key := KeyOf(e.entry);
      var start := if key in c.openCalls then c.openCalls[key].receivedAt else e.receivedAt;
      var (colors, colorClass) := GetColorForFunction(c.functionColorMap, funcName);
      Correlation(c.openCalls - {key},
                  c.segments + [Segment(coreId, funcName, start, e.receivedAt, ExitSegment, colorClass)],
                  colors)
    case Panic(coreId, _, _, _, _, _, _) =>
      c.(segments := c.segments +
           [Segment(coreId, "PANIC", e.receivedAt, e.receivedAt + MinSegmentMs, PanicSegment, PanicColor)])
    case Restart(_, _, _, _) =>
      c.(segments := c.segments +
           [Segment(RestartCoreId, "RESTART", e.receivedAt, e.receivedAt + MinSegmentMs, RestartSegment, RestartColor)])
  }

  /** The correlation pass over `es`, taken in the order given. */
  function CorrelateEvents(es: seq<TrackedTraceEntry>): Correlation {
    if es == [] then Correlation(map[], [], [])
    else Step(CorrelateEvents(es[..|es| - 1]), es[|es| - 1])
  }

  /**
   * The correlation memo: an empty log gives nothing; otherwise a sorted copy
   * of the log is walked once, pairing ENTER and EXIT through the open-call
   * map. Because the walk is in arrival order, no segment ends before it starts.
   */
  method Correlate(executionLog: seq<TrackedTraceEntry>)
    returns (segments: seq<Segment>, functionColorMap: seq<ColorEntry>)
    ensures var c := CorrelateEvents(SortBy(executionLog, ReceivedAt));
            segments == c.segments && functionColorMap == c.functionColorMap
    ensures executionLog == [] ==> segments == [] && functionColorMap == []
    ensures forall s :: s in segments ==> s.start <= s.end
  {
    if |executionLog| == 0 {
      return [], [];
    }
    var sorted := SortBy(executionLog, ReceivedAt);
    var openCalls: map<CallKey, TrackedTraceEntry> := map[];
    segments, functionColorMap := [], [];
    for i := 0 to |sorted|
      invariant Correlation(openCalls, segments, functionColorMap) == CorrelateEvents(sorted[..i])
    {
      var entry := sorted[i];
      assert sorted[..i + 1][..i] == sorted[..i];
      match entry.entry {
        case Enter(_, _, _, _, _, _, _, _) =>
          openCalls := openCalls[KeyOf(entry.entry) := entry];
        case Exit(coreId, _, _, _, _, funcName, _) =>
          var key := KeyOf(entry.entry);
          var startTime := if key in openCalls then openCalls[key].receivedAt else entry.receivedAt;
          var pair := GetColorForFunction(functionColorMap, funcName);
          var colorClass := pair.1;
          functionColorMap := pair.0;
          segments := segments + [Segment(coreId, funcName, startTime, entry.receivedAt, ExitSegment, colorClass)];
          openCalls := openCalls - {key};
        case Panic(coreId, _, _, _, _, _, _) =>
          segments := segments +
            [Segment(coreId, "PANIC", entry.receivedAt, entry.receivedAt + MinSegmentMs, PanicSegment, PanicColor)];
        case Restart(_, _, _, _) =>
          segments := segments +
            [Segment(RestartCoreId, "RESTART", entry.receivedAt, entry.receivedAt + MinSegmentMs, RestartSegment, RestartColor)];
      }
    }
    assert sorted[..|sorted|] == sorted;
    SegmentsNeverEndBeforeStart(sorted);
  }

  // ---------------------------------------------------------------------
  // Pairing: the open-call map, described key by key.

  /** An event that touches the open-call map under `key`. */
  predicate TouchesKey(e: TrackedTraceEntry, key: CallKey) {
    (e.entry.Enter? || e.entry.Exit?) && KeyOf(e.entry) == key
  }

  /**
   * Reference definition of the call open under `key` after `es`: the last
   * ENTER or EXIT with that key decides — an ENTER is open, an EXIT closed it.
   */
  function LastOpenEnter(es: seq<TrackedTraceEntry>, key: CallKey): Option<TrackedTraceEntry> {
    if es == [] then None
    else
      var e := es[|es| - 1];
      if TouchesKey(e, key) then (if e.entry.Enter? then Some(e) else None)
      else LastOpenEnter(es[..|es| - 1], key)
  }

  function Lookup(m: map<CallKey, TrackedTraceEntry>, key: CallKey): Option<TrackedTraceEntry> {
    if key in m then Some(m[key]) else None
  }

  /**
   * The open-call map holds, for every key, exactly the last ENTER not yet
   * followed by an EXIT with that key: a later ENTER replaces an earlier one,
   * and an EXIT removes the key whether or not it was open.
   */
  lemma {:induction false} OpenCallsAreLastOpenEnter(es: seq<TrackedTraceEntry>, key: CallKey)
    ensures Lookup(CorrelateEvents(es).openCalls, key) == LastOpenEnter(es, key)
  {
    if es != [] {
      OpenCallsAreLastOpenEnter(es[..|es| - 1], key);
    }
  }

  /**
   * An EXIT appends exactly one segment, which starts when the matching open
   * ENTER was received, or at the EXIT itself when none is open, and ends
   * when the EXIT was received; afterwards the key is no longer open.
   */
  lemma ExitClosesCall(es: seq<TrackedTraceEntry>, e: TrackedTraceEntry)
    requires e.entry.Exit?
    ensures var before := CorrelateEvents(es);
            var after := CorrelateEvents(es + [e]);
            var key := KeyOf(e.entry);
            |after.segments| == |before.segments| + 1
            && after.segments[..|before.segments|] == before.segments
            && after.segments[|before.segments|].start
               == (match LastOpenEnter(es, key) case Some(o) => o.receivedAt case None => e.receivedAt)
            && after.segments[|before.segments|].end == e.receivedAt
            && after.segments[|before.segments|].coreId == e.entry.coreId
            && after.segments[|before.segments|].funcName == e.entry.funcName
            && after.segments[|before.segments|].traceType == ExitSegment
            && key !in after.openCalls
  {
    assert (es + [e])[..|es + [e]| - 1] == es;
    OpenCallsAreLastOpenEnter(es, KeyOf(e.entry));
  }

  /**
   * An ENTER produces no segment and leaves itself open under its key,
   * replacing any call still open there.
   */
  lemma EnterOpensCall(es: seq<TrackedTraceEntry>, e: TrackedTraceEntry)
    requires e.entry.Enter?
    ensures var after := CorrelateEvents(es + [e]);
            after.segments == CorrelateEvents(es).segments
            && after.functionColorMap == CorrelateEvents(es).functionColorMap
            && Lookup(after.openCalls, KeyOf(e.entry)) == Some(e)
  {
    assert (es + [e])[..|es + [e]| - 1] == es;
  }

  // ---------------------------------------------------------------------
  // One segment per EXIT, PANIC and RESTART, in order.

  /** The events that produce a segment: all but ENTER. */
  function Emitting(es: seq<TrackedTraceEntry>): (r: seq<TrackedTraceEntry>)
    ensures forall e :: e in r ==> !e.entry.Enter?
  {
    if es == [] then []
    else Emitting(es[..|es| - 1]) + (if es[|es| - 1].entry.Enter? then [] else [es[|es| - 1]])
  }

  /** The lane a segment of this event is drawn on. */
  function LaneOf(e: TraceEntry): int {
    if e.Restart? then RestartCoreId else e.coreId
  }

  function KindOf(e: TraceEntry): SegmentKind
    requires !e.Enter?
  {
    match e
    case Exit(_, _, _, _, _, _, _) => ExitSegment
    case Panic(_, _, _, _, _, _, _) => PanicSegment
    case Restart(_, _, _, _) => RestartSegment
  }

  /**
   * The j-th segment comes from the j-th non-ENTER event: on its lane, of its
   * kind, ending at its arrival (EXIT) or MinSegmentMs after it (PANIC,
   * RESTART); PANIC and RESTART segments start at their own arrival and are
   * named and colored by their kind, EXIT segments carry the function's name.
   */
  lemma {:induction false} SegmentPerEvent(es: seq<TrackedTraceEntry>)
    ensures var segs := CorrelateEvents(es).segments;
            var em := Emitting(es);
            |segs| == |em|
            && forall j :: 0 <= j < |segs| ==>
                 && segs[j].coreId == LaneOf(em[j].entry)
                 && segs[j].traceType == KindOf(em[j].entry)
                 && segs[j].end == (if em[j].entry.Exit? then em[j].receivedAt
                                    else em[j].receivedAt + MinSegmentMs)
                 && (!em[j].entry.Exit? ==> segs[j].start == em[j].receivedAt)
                 && (em[j].entry.Exit? ==> segs[j].funcName == em[j].entry.funcName)
                 && (em[j].entry.Panic? ==> segs[j].funcName == "PANIC" && segs[j].colorClass == PanicColor)
                 && (em[j].entry.Restart? ==> segs[j].funcName == "RESTART" && segs[j].colorClass == RestartColor)
  {
    if es != [] {
      SegmentPerEvent(es[..|es| - 1]);
    }
  }

  // ---------------------------------------------------------------------
  // Ordering: with events in arrival order, every segment has start <= end.

  /**
   * Every call still open was received among `es`, and, when `es` is in
   * arrival order, no segment ends before it starts.
   */
  lemma {:induction false} SegmentsNeverEndBeforeStart(es: seq<TrackedTraceEntry>)
    requires SortedBy(es, ReceivedAt)
    ensures forall k :: k in CorrelateEvents(es).openCalls ==> CorrelateEvents(es).openCalls[k] in es
    ensures forall s :: s in CorrelateEvents(es).segments ==> s.start <= s.end
  {
    if es != [] {
      var prefix := es[..|es| - 1];
      var last := es[|es| - 1];
      assert es == prefix + [last];
      assert SortedBy(prefix, ReceivedAt);
      SegmentsNeverEndBeforeStart(prefix);
      var before := CorrelateEvents(prefix);
      var after := CorrelateEvents(es);
      assert after == Step(before, last);
      OpenCallsReceivedEarlier(es, before);
      match last.entry {
        case Enter(_, _, _, _, _, _, _, _) =>
          assert after.segments == before.segments;
          assert after.openCalls.Keys <= before.openCalls.Keys + {KeyOf(last.entry)};
        case Exit(_, _, _, _, _, _, _) =>
          var key := KeyOf(last.entry);
          assert after.segments[..|before.segments|] == before.segments;
          assert after.segments[|before.segments|].start <= last.receivedAt;
          assert forall s :: s in after.segments ==> s in before.segments || s == after.segments[|before.segments|];
          assert after.openCalls == before.openCalls - {key};
        case Panic(_, _, _, _, _, _, _) =>
          assert after.openCalls == before.openCalls;
        case Restart(_, _, _, _) =>
          assert after.openCalls == before.openCalls;
      }
    }
  }

  /** In arrival order, every call still open was received no later than the next event. */
  lemma OpenCallsReceivedEarlier(es: seq<TrackedTraceEntry>, before: Correlation)
    requires es != [] && SortedBy(es, ReceivedAt)
    requires forall k :: k in before.openCalls ==> before.openCalls[k] in es[..|es| - 1]
    ensures forall k :: k in before.openCalls ==> before.openCalls[k].receivedAt <= es[|es| - 1].receivedAt
  {
    forall k | k in before.openCalls
      ensures before.openCalls[k].receivedAt <= es[|es| - 1].receivedAt
    {
      var m :| 0 <= m < |es| - 1 && es[..|es| - 1][m] == before.openCalls[k];
      assert es[m] == before.openCalls[k];
    }
  }

  // ---------------------------------------------------------------------
  // Colors: first-seen order, cyclic palette, never reassigned.

  /** The function names of the EXIT events, in order. */
  function ExitNames(es: seq<TrackedTraceEntry>): seq<string> {
    if es == [] then []
    else ExitNames(es[..|es| - 1]) + (if es[|es| - 1].entry.Exit? then [es[|es| - 1].entry.funcName] else [])
  }

  /** `names` without repetitions, each kept where it first occurs. */
  function FirstSeen(names: seq<string>): seq<string> {
    if names == [] then []
    else
      var earlier := FirstSeen(names[..|names| - 1]);
      if names[|names| - 1] in earlier then earlier else earlier + [names[|names| - 1]]
  }

  /** Looking a name up in a map of distinct names finds its own entry. */
  lemma {:induction false} ColorOfFindsEntry(colors: seq<ColorEntry>, i: nat)
    requires i < |colors|
    requires forall a, b :: 0 <= a < b < |colors| ==> colors[a].name != colors[b].name
    ensures ColorOf(colors, colors[i].name) == Some(colors[i].colorClass)
  {
    if i > 0 {
      ColorOfFindsEntry(colors[1..], i - 1);
    }
  }

  /** Looking up a name that is in no entry finds nothing. */
  lemma {:induction false} ColorOfMissing(colors: seq<ColorEntry>, name: string)
    requires forall a :: 0 <= a < |colors| ==> colors[a].name != name
    ensures ColorOf(colors, name) == None
  {
    if colors != [] {
      ColorOfMissing(colors[1..], name);
    }
  }

  /** `colors` lists `names` in order, the i-th colored with palette entry i mod 9. */
  ghost predicate ColorsFollow(colors: seq<ColorEntry>, names: seq<string>) {
    |colors| == |names|
    && forall i :: 0 <= i < |colors| ==> colors[i] == ColorEntry(names[i], FunctionPalette[i % |FunctionPalette|])
  }

  /** Looking up one more name keeps the map in step with the names seen so far. */
  lemma ColorsFollowStep(colors: seq<ColorEntry>, names: seq<string>, name: string)
    requires ColorsFollow(colors, names) && Distinct(names)
    ensures var seen := if name in names then names else names + [name];
            ColorsFollow(GetColorForFunction(colors, name).0, seen) && Distinct(seen)
  {
    if name in names {
      ColorsFollowSeen(colors, names, name);
    } else {
      ColorsFollowNew(colors, names, name);
    }
  }

  /** A name seen before keeps the map as it is. */
  lemma ColorsFollowSeen(colors: seq<ColorEntry>, names: seq<string>, name: string)
    requires ColorsFollow(colors, names) && Distinct(names) && name in names
    ensures GetColorForFunction(colors, name).0 == colors
  {
    assert forall a, b :: 0 <= a < b < |colors| ==> colors[a].name != colors[b].name;
    var i :| 0 <= i < |names| && names[i] == name;
    ColorOfFindsEntry(colors, i);
  }

  /** A new name is appended with the next palette color. */
  lemma ColorsFollowNew(colors: seq<ColorEntry>, names: seq<string>, name: string)
    requires ColorsFollow(colors, names) && Distinct(names) && name !in names
    ensures ColorsFollow(GetColorForFunction(colors, name).0, names + [name]) && Distinct(names + [name])
  {
    assert forall a :: 0 <= a < |colors| ==> colors[a].name == names[a];
    ColorOfMissing(colors, name);
  }

  /**
   * The color map lists the EXIT function names in first-seen order, the
   * i-th of them colored with palette entry i mod 9.
   */
  lemma {:induction false} ColorsInFirstSeenOrder(es: seq<TrackedTraceEntry>)
    ensures var colors := CorrelateEvents(es).functionColorMap;
            var names := FirstSeen(ExitNames(es));
            |colors| == |names|
            && forall i :: 0 <= i < |colors| ==>
                 colors[i] == ColorEntry(names[i], FunctionPalette[i % |FunctionPalette|])
    ensures Distinct(FirstSeen(ExitNames(es)))
  {
    ColorsFollowAll(es);
  }

  lemma {:induction false} ColorsFollowAll(es: seq<TrackedTraceEntry>)
    ensures ColorsFollow(CorrelateEvents(es).functionColorMap, FirstSeen(ExitNames(es)))
    ensures Distinct(FirstSeen(ExitNames(es)))
  {
    if es != [] {
      var prefix := es[..|es| - 1];
      var last := es[|es| - 1];
      ColorsFollowAll(prefix);
      if last.entry.Exit? {
        var name := last.entry.funcName;
        assert ExitNames(es) == ExitNames(prefix) + [name];
        assert ExitNames(es)[..|ExitNames(es)| - 1] == ExitNames(prefix);
        ColorsFollowStep(CorrelateEvents(prefix).functionColorMap, FirstSeen(ExitNames(prefix)), name);
      } else {
        assert ExitNames(es) == ExitNames(prefix);
      }
    }
  }

  /** A name found in a map is found with the same color in any extension of it. */
  lemma {:induction false} ColorOfPrefix(a: seq<ColorEntry>, b: seq<ColorEntry>, name: string)
    requires a <= b && ColorOf(a, name).Some?
    ensures ColorOf(b, name) == ColorOf(a, name)
  {
    if a[0].name != name {
      ColorOfPrefix(a[1..], b[1..], name);
    }
  }

  /** Later events only ever append to the color map. */
  lemma {:induction false} ColorMapGrows(es: seq<TrackedTraceEntry>, more: seq<TrackedTraceEntry>)
    ensures CorrelateEvents(es).functionColorMap <= CorrelateEvents(es + more).functionColorMap
  {
    if more == [] {
      assert es + more == es;
    } else {
      var init := more[..|more| - 1];
      ColorMapGrows(es, init);
      assert (es + more)[..|es + more| - 1] == es + init;
      var before := CorrelateEvents(es + init);
      var after := Step(before, more[|more| - 1]);
      assert CorrelateEvents(es + more) == after;
      if more[|more| - 1].entry.Exit? {
        var name := more[|more| - 1].entry.funcName;
        assert after.functionColorMap == GetColorForFunction(before.functionColorMap, name).0;
      }
      assert before.functionColorMap <= after.functionColorMap;
      var a := CorrelateEvents(es).functionColorMap;
      assert a == before.functionColorMap[..|a|];
      assert a == after.functionColorMap[..|a|];
    }
  }

  /**
   * A name keeps its color for the whole pass: every EXIT segment carries the
   * color its name has in the final map.
   */
  lemma {:induction false} ExitSegmentsKeepTheirColor(es: seq<TrackedTraceEntry>)
    ensures var c := CorrelateEvents(es);
            forall s :: s in c.segments && s.traceType == ExitSegment ==>
              ColorOf(c.functionColorMap, s.funcName) == Some(s.colorClass)
  {
    if es != [] {
      var prefix := es[..|es| - 1];
      var last := es[|es| - 1];
      ExitSegmentsKeepTheirColor(prefix);
      assert es == prefix + [last];
      ColorMapGrows(prefix, [last]);
      var before := CorrelateEvents(prefix);
      var after := CorrelateEvents(es);
      forall s | s in before.segments && s.traceType == ExitSegment
        ensures ColorOf(after.functionColorMap, s.funcName) == Some(s.colorClass)
      {
        ColorOfPrefix(before.functionColorMap, after.functionColorMap, s.funcName);
      }
      if last.entry.Exit? {
        var name := last.entry.funcName;
        if ColorOf(before.functionColorMap, name).None? {
          ColorOfAppended(before.functionColorMap, name,
                          FunctionPalette[|before.functionColorMap| % |FunctionPalette|]);
        }
      }
    }
  }

  /** A name absent from a map is found in the entry appended for it. */
  lemma {:induction false} ColorOfAppended(colors: seq<ColorEntry>, name: string, c: string)
    requires ColorOf(colors, name).None?
    ensures ColorOf(colors + [ColorEntry(name, c)], name) == Some(c)
  {
    if colors != [] {
      assert (colors + [ColorEntry(name, c)])[1..] == colors[1..] + [ColorEntry(name, c)];
      ColorOfAppended(colors[1..], name, c);
    }
  }
}
