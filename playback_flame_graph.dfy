/**
 * The playback flame graph's viewport engine. Pre-correlated call-stack
 * entries are drawn as rectangles, one row per stack depth, through a camera
 * made of a time offset (the time at the left edge, an unbounded integer) and
 * a zoom (pixels per time unit, a positive real). Keyboard commands pan, zoom
 * around the screen center and jump to the previous or next entry; cursor
 * hit testing looks up the rectangles recorded by the last draw.
 */
module PlaybackFlameGraph {
  import opened Wrappers

  const RowHeight: int := 40
  /** Height of a drawn rectangle: a row less a two-pixel gap. */
  const BarHeight: int := RowHeight - 2
  const MinZoom: real := 0.00001
  const MaxZoom: real := 100.0
  /** The factor the keyboard handler zooms by. */
  const ZoomFactor: real := 1.2
  /** Fraction of the visible time span one pan step moves. */
  const PanFraction: real := 0.15
  /** The initial fit shows the whole trace set in this fraction of the width ... */
  const FitFraction: real := 0.95
  /** ... after a left margin of this fraction of its duration. */
  const FitMargin: real := 0.025
  /** Drawn rectangles are never narrower than one pixel. */
  const MinBarWidth: real := 1.0
  /** Rectangles narrower than this are not drawn. */
  const MinDrawnWidth: real := 0.2

  /** One pre-correlated call: its name, its time span and its stack depth. */
  datatype CallStackEntry = CallStackEntry(funcName: string, startTime: int, endTime: int, depth: nat)

  /** First start, last end and their distance over all entries. */
  datatype Bounds = Bounds(start: int, end: int, duration: int)

  /** A rectangle by its corners, in pixels; the key of a recorded shape. */
  datatype Rect = Rect(x1: real, y1: real, x2: real, y2: real)

  /** One entry of the hit map: a drawn rectangle and the entry drawn in it. */
  datatype Shape = Shape(rect: Rect, trace: CallStackEntry)

  /** The camera: time at the left edge and pixels per time unit. */
  datatype ViewState = ViewState(offsetTime: int, zoom: real)

  /** The keyboard commands. */
  datatype Command = PanLeft | PanRight | ZoomIn | ZoomOut | JumpPrevious | JumpNext | Other

  // ---------------------------------------------------------------------
  // Bounds

  ghost predicate IsMinStart(traces: seq<CallStackEntry>, m: int) {
    (exists k :: 0 <= k < |traces| && traces[k].startTime == m)
    && forall k :: 0 <= k < |traces| ==> m <= traces[k].startTime
  }

  ghost predicate IsMaxEnd(traces: seq<CallStackEntry>, m: int) {
    (exists k :: 0 <= k < |traces| && traces[k].endTime == m)
    && forall k :: 0 <= k < |traces| ==> traces[k].endTime <= m
  }

  /**
   * The bounds memo: all zero for no entries; otherwise the smallest start,
   * the largest end and their difference, which is never negative when every
   * entry ends no earlier than it starts.
   */
  method ComputeBounds(traces: seq<CallStackEntry>) returns (b: Bounds)
    ensures traces == [] ==> b == Bounds(0, 0, 0)
    ensures traces != [] ==> IsMinStart(traces, b.start) && IsMaxEnd(traces, b.end)
    ensures b.duration == b.end - b.start
    ensures (forall k :: 0 <= k < |traces| ==> traces[k].startTime <= traces[k].endTime) ==> b.duration >= 0
  {
    if |traces| == 0 {
      return Bounds(0, 0, 0);
    }
    var min := traces[0].startTime;
    var max := traces[0].endTime;
    ghost var minAt, maxAt := 0, 0;
    for i := 0 to |traces|
      invariant 0 <= minAt < |traces| && traces[minAt].startTime == min
      invariant 0 <= maxAt < |traces| && traces[maxAt].endTime == max
      invariant forall k :: 0 <= k < i ==> min <= traces[k].startTime && traces[k].endTime <= max
      invariant min <= traces[0].startTime && traces[0].endTime <= max
    {
      var s := traces[i].startTime;
      var e := traces[i].endTime;
      if s < min {
        min, minAt := s, i;
      }
      if e > max {
        max, maxAt := e, i;
      }
    }
    b := Bounds(min, max, max - min);
    if forall k :: 0 <= k < |traces| ==> traces[k].startTime <= traces[k].endTime {
      assert traces[minAt].startTime <= traces[minAt].endTime <= max;
    }
  }

  // ---------------------------------------------------------------------
  // The camera's arithmetic

  /** The time span the surface shows: floor(width / zoom), never negative. */
  function VisibleSpan(width: real, zoom: real): (span: int)
    requires width >= 0.0 && zoom > 0.0
    ensures span >= 0
    ensures span as real <= width / zoom < span as real + 1.0
  {
    (width / zoom).Floor
  }

  /** The time at the horizontal center of the surface. */
  function CenterTime(v: ViewState, width: real): int
    requires width >= 0.0 && v.zoom > 0.0
  {
    v.offsetTime + VisibleSpan(width, v.zoom) / 2
  }

  /** One pan step: floor(0.15 * visible span). */
  function PanStep(v: ViewState, width: real): (step: int)
    requires width >= 0.0 && v.zoom > 0.0
    ensures 0 <= step <= VisibleSpan(width, v.zoom)
  {
    (VisibleSpan(width, v.zoom) as real * PanFraction).Floor
  }

  /** Zoom in by the factor; only the upper bound is enforced. */
  function ZoomedIn(zoom: real): (z: real)
    requires zoom > 0.0
    ensures 0.0 < z <= MaxZoom
    ensures zoom * ZoomFactor <= MaxZoom ==> z == zoom * ZoomFactor
    ensures zoom * ZoomFactor > MaxZoom ==> z == MaxZoom
  {
    var z := zoom * ZoomFactor;
    if z > MaxZoom then MaxZoom else z
  }

  /** Zoom out by the factor; only the lower bound is enforced. */
  function ZoomedOut(zoom: real): (z: real)
    requires zoom > 0.0
    ensures z >= MinZoom
    ensures zoom / ZoomFactor >= MinZoom ==> z == zoom / ZoomFactor
    ensures zoom / ZoomFactor < MinZoom ==> z == MinZoom
  {
    var z := zoom / ZoomFactor;
    if z < MinZoom then MinZoom else z
  }

  /** The view after a zoom to `newZoom` that keeps the center time. */
  function ZoomAround(v: ViewState, width: real, newZoom: real): ViewState
    requires width >= 0.0 && v.zoom > 0.0 && newZoom > 0.0
  {
    ViewState(CenterTime(v, width) - (width / newZoom / 2.0).Floor, newZoom)
  }

  /**
   * The last entry, in array order, that starts strictly before `center`.
   * Everything after it starts at or after `center`.
   */
  function LastStartBefore(traces: seq<CallStackEntry>, center: int): (r: Option<nat>)
    ensures r.Some? ==> r.value < |traces| && traces[r.value].startTime < center
    ensures r.Some? ==> forall k :: r.value < k < |traces| ==> traces[k].startTime >= center
    ensures r.None? ==> forall k :: 0 <= k < |traces| ==> traces[k].startTime >= center
  {
    if traces == [] then None
    else if traces[|traces| - 1].startTime < center then Some(|traces| - 1)
    else LastStartBefore(traces[..|traces| - 1], center)
  }

  /**
   * The first entry, in array order, that starts strictly after `center`.
   * Everything before it starts at or before `center`.
   */
  function FirstStartAfter(traces: seq<CallStackEntry>, center: int): (r: Option<nat>)
    ensures r.Some? ==> r.value < |traces| && traces[r.value].startTime > center
    ensures r.Some? ==> forall k :: 0 <= k < r.value ==> traces[k].startTime <= center
    ensures r.None? ==> forall k :: 0 <= k < |traces| ==> traces[k].startTime <= center
  {
    if traces == [] then None
    else if traces[0].startTime > center then Some(0)
    else match FirstStartAfter(traces[1..], center)
      case Some(i) => Some(i + 1)
      case None => None
  }

  /** The view recentred on time `target`, at the same zoom. */
  function CenterOn(v: ViewState, width: real, target: int): ViewState
    requires width >= 0.0 && v.zoom > 0.0
  {
    v.(offsetTime := target - VisibleSpan(width, v.zoom) / 2)
  }

  /** What one keyboard command does to the camera. */
  function Navigate(v: ViewState, cmd: Command, width: real, traces: seq<CallStackEntry>): (r: ViewState)
    requires width >= 0.0 && v.zoom > 0.0
    ensures r.zoom > 0.0
    ensures cmd == Other ==> r == v
    ensures !cmd.ZoomIn? && !cmd.ZoomOut? ==> r.zoom == v.zoom
    ensures MinZoom <= v.zoom <= MaxZoom ==> MinZoom <= r.zoom <= MaxZoom
  {
    match cmd
    case PanLeft => v.(offsetTime := v.offsetTime - PanStep(v, width))
    case PanRight => v.(offsetTime := v.offsetTime + PanStep(v, width))
    case ZoomIn => ZoomAround(v, width, ZoomedIn(v.zoom))
    case ZoomOut => ZoomAround(v, width, ZoomedOut(v.zoom))
    case JumpPrevious =>
      (match LastStartBefore(traces, CenterTime(v, width))
       case Some(i) => CenterOn(v, width, traces[i].startTime)
       case None => v)
    case JumpNext =>
      (match FirstStartAfter(traces, CenterTime(v, width))
       case Some(i) => CenterOn(v, width, traces[i].startTime)
       case None => v)
    case Other => v
  }

  /** ASCII lower-casing, which decides the commands exactly as JavaScript's does. */
  function ToLower(s: string): (r: string)
    ensures |r| == |s|
    ensures forall i :: 0 <= i < |s| ==>
              r[i] == (if 'A' <= s[i] <= 'Z' then (s[i] as int + 32) as char else s[i])
  {
    if s == [] then []
    else [if 'A' <= s[0] <= 'Z' then (s[0] as int + 32) as char else s[0]] + ToLower(s[1..])
  }

  /** Keys typed into these elements are left to them. */
  predicate IsTextField(tagName: string) {
    tagName in ["INPUT", "TEXTAREA"]
  }

  /** The command a key stands for, whatever its case. */
  function ParseKey(key: string): Command {
    match ToLower(key)
    case "a" => PanLeft
    case "d" => PanRight
    case "w" => ZoomIn
    case "s" => ZoomOut
    case "q" => JumpPrevious
    case "e" => JumpNext
    case _ => Other
  }

  // ---------------------------------------------------------------------
  // Culling and the hit map

  /** The entry overlaps the visible time range [offset, offset + span]. */
  predicate Visible(t: CallStackEntry, offsetTime: int, span: int) {
    !(t.endTime < offsetTime || t.startTime > offsetTime + span)
  }

  /** Left edge of an entry's rectangle: its start relative to the offset, scaled. */
  function BarLeft(t: CallStackEntry, offsetTime: int, zoom: real): real {
    (t.startTime - offsetTime) as real * zoom
  }

  /** Width of an entry's rectangle: its scaled duration, at least one pixel. */
  function BarWidth(t: CallStackEntry, zoom: real): (w: real)
    ensures w >= MinBarWidth
  {
    if (t.endTime - t.startTime) as real * zoom >= MinBarWidth
    then (t.endTime - t.startTime) as real * zoom else MinBarWidth
  }

  /** Top edge of an entry's rectangle: its row. */
  function BarTop(t: CallStackEntry): real {
    (t.depth * RowHeight) as real
  }

  /** The shape drawn for one entry, if it is drawn. */
  function ShapeOf(t: CallStackEntry, offsetTime: int, zoom: real, span: int): (r: Option<Shape>)
    ensures r.Some? <==> Visible(t, offsetTime, span)
    ensures r.Some? ==> r.value.trace == t
    ensures r.Some? ==> r.value.rect.x1 == BarLeft(t, offsetTime, zoom) && r.value.rect.y1 == BarTop(t)
    ensures r.Some? ==> r.value.rect.x2 - r.value.rect.x1 >= MinBarWidth
                        && r.value.rect.y2 - r.value.rect.y1 == BarHeight as real
  {
    if !Visible(t, offsetTime, span) then None
    else
      var x := BarLeft(t, offsetTime, zoom);
      var w := BarWidth(t, zoom);
      var y := BarTop(t);
      if w < MinDrawnWidth then None
      else Some(Shape(Rect(x, y, x + w, y + BarHeight as real), t))
  }

  /**
   * Recording a shape in the hit map: a rectangle already present keeps its
   * place and takes the new entry; a new rectangle is appended.
   */
  function RecordShape(m: seq<Shape>, s: Shape): (r: seq<Shape>)
    ensures |r| == |m| || r == m + [s]
  {
    if m == [] then [s]
    else if m[0].rect == s.rect then [s] + m[1..]
    else [m[0]] + RecordShape(m[1..], s)
  }

  /** The hit map a draw builds from `traces`, in draw order. */
  function RenderMap(traces: seq<CallStackEntry>, offsetTime: int, zoom: real, span: int): seq<Shape> {
    if traces == [] then []
    else
      var m := RenderMap(traces[..|traces| - 1], offsetTime, zoom, span);
      match ShapeOf(traces[|traces| - 1], offsetTime, zoom, span)
      case Some(s) => RecordShape(m, s)
      case None => m
  }

  /** Drawing one more entry records its shape, if it has one. */
  lemma RenderMapStep(traces: seq<CallStackEntry>, i: nat, offsetTime: int, zoom: real, span: int)
    requires i < |traces|
    ensures RenderMap(traces[..i + 1], offsetTime, zoom, span)
            == match ShapeOf(traces[i], offsetTime, zoom, span)
               case Some(s) => RecordShape(RenderMap(traces[..i], offsetTime, zoom, span), s)
               case None => RenderMap(traces[..i], offsetTime, zoom, span)
  {
    assert traces[..i + 1][..i] == traces[..i];
  }

  /** The cursor lies within the rectangle, edges included. */
  predicate Contains(r: Rect, x: real, y: real) {
    x >= r.x1 && x <= r.x2 && y >= r.y1 && y <= r.y2
  }

  /**
   * The mouse-move hit test: the entry of the first recorded rectangle, in
   * map order, that contains the cursor, or None when no rectangle does.
   */
  method HitTest(shapes: seq<Shape>, mouseX: real, mouseY: real) returns (found: Option<CallStackEntry>)
    ensures found.None? <==> forall i :: 0 <= i < |shapes| ==> !Contains(shapes[i].rect, mouseX, mouseY)
    ensures found.Some? ==>
              exists i :: 0 <= i < |shapes| && Contains(shapes[i].rect, mouseX, mouseY)
                          && shapes[i].trace == found.value
                          && forall j :: 0 <= j < i ==> !Contains(shapes[j].rect, mouseX, mouseY)
  {
    found := None;
    var i := 0;
    while i < |shapes|
      invariant 0 <= i <= |shapes|
      invariant found.None?
      invariant forall j :: 0 <= j < i ==> !Contains(shapes[j].rect, mouseX, mouseY)
    {
      var r := shapes[i].rect;
      if mouseX >= r.x1 && mouseX <= r.x2 && mouseY >= r.y1 && mouseY <= r.y2 {
        found := Some(shapes[i].trace);
        break;
      }
      i := i + 1;
    }
  }

  /** The backward scan of the jump-to-previous command. */
  method FindPrevious(traces: seq<CallStackEntry>, centerTime: int) returns (target: Option<nat>)
    ensures target == LastStartBefore(traces, centerTime)
  {
    target := None;
    var i := |traces| - 1;
    while i >= 0
      invariant -1 <= i < |traces|
      invariant LastStartBefore(traces, centerTime) == LastStartBefore(traces[..i + 1], centerTime)
    {
      assert traces[..i + 1][..i] == traces[..i];
      if traces[i].startTime < centerTime {
        target := Some(i);
        return;
      }
      i := i - 1;
    }
  }

  /** The forward scan of the jump-to-next command. */
  method FindNext(traces: seq<CallStackEntry>, centerTime: int) returns (target: Option<nat>)
    ensures target == FirstStartAfter(traces, centerTime)
  {
    target := None;
    for i := 0 to |traces|
      invariant forall k :: 0 <= k < i ==> traces[k].startTime <= centerTime
    {
      if traces[i].startTime > centerTime {
        target := Some(i);
        FirstStartAfterIsFirst(traces, centerTime, i);
        return;
      }
    }
    FirstStartAfterNone(traces, centerTime);
  }

  /** An entry after `center` with none before it is what the forward scan finds. */
  lemma {:induction false} FirstStartAfterIsFirst(traces: seq<CallStackEntry>, center: int, i: nat)
    requires i < |traces| && traces[i].startTime > center
    requires forall k :: 0 <= k < i ==> traces[k].startTime <= center
    ensures FirstStartAfter(traces, center) == Some(i)
  {
    if i > 0 {
      FirstStartAfterIsFirst(traces[1..], center, i - 1);
    }
  }

  /** With no entry after `center`, the forward scan finds nothing. */
  lemma {:induction false} FirstStartAfterNone(traces: seq<CallStackEntry>, center: int)
    requires forall k :: 0 <= k < |traces| ==> traces[k].startTime <= center
    ensures FirstStartAfter(traces, center) == None
  {
    if traces != [] {
      FirstStartAfterNone(traces[1..], center);
    }
  }

  // ---------------------------------------------------------------------
  // Properties of navigation

  /** Halving the floor of a non-negative real floors its half. */
  lemma FloorHalf(x: real)
    requires x >= 0.0
    ensures x.Floor / 2 == (x / 2.0).Floor
  {
    var n := x.Floor;
    var q := n / 2;
    assert 2 * q <= n < 2 * q + 2;
    assert (2 * q) as real <= x < (2 * q + 2) as real;
    assert q as real <= x / 2.0 < q as real + 1.0;
  }

  /** Zooming in or out keeps the time at the center of the surface. */
  lemma ZoomKeepsCenter(v: ViewState, cmd: Command, width: real, traces: seq<CallStackEntry>)
    requires width >= 0.0 && v.zoom > 0.0
    requires cmd == ZoomIn || cmd == ZoomOut
    ensures CenterTime(Navigate(v, cmd, width, traces), width) == CenterTime(v, width)
    ensures Navigate(v, cmd, width, traces).zoom == (if cmd == ZoomIn then ZoomedIn(v.zoom) else ZoomedOut(v.zoom))
  {
    var z := if cmd == ZoomIn then ZoomedIn(v.zoom) else ZoomedOut(v.zoom);
    assert width / z >= 0.0;
    FloorHalf(width / z);
    assert width / z / 2.0 == (width / z) / 2.0;
  }

  /** Starting inside the zoom range, zooming in or out stays inside it. */
  lemma ZoomStaysInRange(v: ViewState, cmd: Command, width: real, traces: seq<CallStackEntry>)
    requires width >= 0.0 && MinZoom <= v.zoom <= MaxZoom
    ensures MinZoom <= Navigate(v, cmd, width, traces).zoom <= MaxZoom
  {
  }

  /**
   * A pan moves the offset by one pan step and keeps the zoom, so a pan right
   * followed by a pan left restores the view, and the other way round.
   */
  lemma PanIsReversible(v: ViewState, width: real, traces: seq<CallStackEntry>)
    requires width >= 0.0 && v.zoom > 0.0
    ensures Navigate(Navigate(v, PanRight, width, traces), PanLeft, width, traces) == v
    ensures Navigate(Navigate(v, PanLeft, width, traces), PanRight, width, traces) == v
    ensures Navigate(v, PanRight, width, traces).offsetTime - v.offsetTime == PanStep(v, width)
    ensures v.offsetTime - Navigate(v, PanLeft, width, traces).offsetTime == PanStep(v, width)
    ensures Navigate(v, PanLeft, width, traces).zoom == Navigate(v, PanRight, width, traces).zoom == v.zoom
  {
  }

  /**
   * A jump centers the view on the start of the last entry before the center
   * (backward) or the first entry after it (forward); with no such entry the
   * view stays.
   */
  lemma JumpCentersOnTarget(v: ViewState, width: real, traces: seq<CallStackEntry>)
    requires width >= 0.0 && v.zoom > 0.0
    ensures var r := LastStartBefore(traces, CenterTime(v, width));
            var w := Navigate(v, JumpPrevious, width, traces);
            && w.zoom == v.zoom
            && (r.Some? ==> CenterTime(w, width) == traces[r.value].startTime < CenterTime(v, width))
            && (r.None? ==> w == v)
    ensures var r := FirstStartAfter(traces, CenterTime(v, width));
            var w := Navigate(v, JumpNext, width, traces);
            && w.zoom == v.zoom
            && (r.Some? ==> CenterTime(w, width) == traces[r.value].startTime > CenterTime(v, width))
            && (r.None? ==> w == v)
  {
  }

  /** The command of each key, in either case; every other key is no command. */
  lemma ParseKeyCommands(key: string)
    ensures ParseKey(key) == PanLeft <==> key == "a" || key == "A"
    ensures ParseKey(key) == PanRight <==> key == "d" || key == "D"
    ensures ParseKey(key) == ZoomIn <==> key == "w" || key == "W"
    ensures ParseKey(key) == ZoomOut <==> key == "s" || key == "S"
    ensures ParseKey(key) == JumpPrevious <==> key == "q" || key == "Q"
    ensures ParseKey(key) == JumpNext <==> key == "e" || key == "E"
  {
    var k := ToLower(key);
    if |key| == 1 {
      assert k == [k[0]];
      assert key == [key[0]];
    } else {
      assert |k| != 1;
    }
  }

  // ---------------------------------------------------------------------
  // Properties of the initial fit

  /**
   * After the initial fit the whole range [start, end] is visible: the left
   * edge is no later than the first start and the visible span reaches past
   * the last end.
   */
  lemma InitialFitShowsAll(b: Bounds, width: real)
    requires width > 0.0 && b.duration > 0 && b.end == b.start + b.duration
    ensures var zoom := width / b.duration as real * FitFraction;
            var offset := b.start - (b.duration as real * FitMargin).Floor;
            && zoom > 0.0
            && offset <= b.start
            && offset + VisibleSpan(width, zoom) >= b.end
  {
    var d := b.duration as real;
    var zoom := width / d * FitFraction;
    assert width / d > 0.0;
    assert zoom > 0.0;
    var margin := (d * FitMargin).Floor;
    assert 0.0 <= d * FitMargin;
    assert margin >= 0;
    assert width / zoom == d / FitFraction by {
      assert zoom * (d / FitFraction) == width / d * d;
      assert width / d * d == width;
    }
    var span := VisibleSpan(width, zoom);
    assert span as real > d / FitFraction - 1.0;
    assert margin as real <= d * FitMargin;
    assert d / FitFraction >= d * 1.05;
    assert (span - margin) as real > d - 1.0;
  }

  // ---------------------------------------------------------------------
  // Properties of culling and the hit map

  /** An entry is drawn exactly when it overlaps the visible range: no visible bar is too thin. */
  lemma DrawnIffVisible(t: CallStackEntry, offsetTime: int, zoom: real, span: int)
    ensures ShapeOf(t, offsetTime, zoom, span).Some? <==> Visible(t, offsetTime, span)
  {
  }

  /** The rectangles of a hit map are its keys: no two entries share one. */
  ghost predicate DistinctRects(m: seq<Shape>) {
    forall i, j :: 0 <= i < j < |m| ==> m[i].rect != m[j].rect
  }

  /** Recording adds the new shape, keeps every shape with another key and adds nothing else. */
  lemma {:induction false} RecordShapeContents(m: seq<Shape>, s: Shape)
    ensures s in RecordShape(m, s)
    ensures forall x :: x in m && x.rect != s.rect ==> x in RecordShape(m, s)
    ensures forall x :: x in RecordShape(m, s) ==> x == s || x in m
  {
    if m != [] && m[0].rect != s.rect {
      RecordShapeContents(m[1..], s);
      var r := RecordShape(m, s);
      assert r == [m[0]] + RecordShape(m[1..], s);
      assert m == [m[0]] + m[1..];
    } else if m != [] {
      assert m == [m[0]] + m[1..];
    }
  }

  /**
   * Recording is `Map.set` on an insertion-ordered map: under a rectangle
   * already present the new shape takes that entry's place, and a new
   * rectangle goes at the end.
   */
  lemma {:induction false} RecordShapeIsMapSet(m: seq<Shape>, s: Shape, k: nat)
    ensures k < |m| && m[k].rect == s.rect && (forall j :: 0 <= j < k ==> m[j].rect != s.rect)
            ==> RecordShape(m, s) == m[k := s]
    ensures (forall j :: 0 <= j < |m| ==> m[j].rect != s.rect) ==> RecordShape(m, s) == m + [s]
  {
    if m != [] && m[0].rect != s.rect {
      if k > 0 {
        RecordShapeIsMapSet(m[1..], s, k - 1);
        if k < |m| && m[k].rect == s.rect && (forall j :: 0 <= j < k ==> m[j].rect != s.rect) {
          assert forall j :: 0 <= j < k - 1 ==> m[1..][j] == m[j + 1];
          assert [m[0]] + m[1..][k - 1 := s] == m[k := s];
        }
      } else {
        RecordShapeIsMapSet(m[1..], s, 0);
      }
      if forall j :: 0 <= j < |m| ==> m[j].rect != s.rect {
        assert forall j :: 0 <= j < |m[1..]| ==> m[1..][j] == m[j + 1];
        assert [m[0]] + (m[1..] + [s]) == m + [s];
      }
    } else if m != [] {
      assert [s] + m[1..] == m[0 := s];
    }
  }

  /** Recording keeps the rectangle keys distinct. */
  lemma {:induction false} RecordShapeKeys(m: seq<Shape>, s: Shape)
    requires DistinctRects(m)
    ensures DistinctRects(RecordShape(m, s))
  {
    if m != [] && m[0].rect != s.rect {
      RecordShapeKeys(m[1..], s);
      RecordShapeContents(m[1..], s);
      var r := RecordShape(m, s);
      assert r == [m[0]] + RecordShape(m[1..], s);
      forall j | 0 < j < |r|
        ensures r[0].rect != r[j].rect
      {
        assert r[j] in RecordShape(m[1..], s);
        if r[j] != s {
          var k :| 0 <= k < |m[1..]| && m[1..][k] == r[j];
          assert m[k + 1] == r[j];
        }
      }
    } else if m != [] {
      var r := RecordShape(m, s);
      forall i, j | 0 <= i < j < |r|
        ensures r[i].rect != r[j].rect
      {
        assert r[i].rect == m[i].rect && r[j].rect == m[j].rect;
      }
    }
  }

  /** A draw never records two shapes under the same rectangle. */
  lemma {:induction false} RenderMapKeys(traces: seq<CallStackEntry>, offsetTime: int, zoom: real, span: int)
    ensures DistinctRects(RenderMap(traces, offsetTime, zoom, span))
  {
    if traces != [] {
      RenderMapKeys(traces[..|traces| - 1], offsetTime, zoom, span);
      var m0 := RenderMap(traces[..|traces| - 1], offsetTime, zoom, span);
      match ShapeOf(traces[|traces| - 1], offsetTime, zoom, span)
      case None =>
      case Some(s) =>
        RecordShapeKeys(m0, s);
    }
  }

  /**
   * Every recorded shape is an input entry that is visible, in the rectangle
   * its scaled position, its row and its (at least one pixel) width give.
   */
  lemma {:induction false} RenderMapEntries(traces: seq<CallStackEntry>, offsetTime: int, zoom: real, span: int)
    ensures forall x :: x in RenderMap(traces, offsetTime, zoom, span) ==>
              x.trace in traces && ShapeOf(x.trace, offsetTime, zoom, span) == Some(x)
  {
    if traces != [] {
      var init := traces[..|traces| - 1];
      RenderMapEntries(init, offsetTime, zoom, span);
      var m0 := RenderMap(init, offsetTime, zoom, span);
      assert forall t :: t in init ==> t in traces;
      match ShapeOf(traces[|traces| - 1], offsetTime, zoom, span)
      case None =>
      case Some(s) =>
        RecordShapeContents(m0, s);
    }
  }

  /**
   * A later entry drawn in the same rectangle replaces an earlier one: the
   * hit map holds the shape of the last visible entry with a given rectangle.
   */
  lemma {:induction false} RenderMapLastWins(traces: seq<CallStackEntry>, offsetTime: int, zoom: real, span: int, i: nat)
    requires i < |traces| && Visible(traces[i], offsetTime, span)
    requires forall j :: i < j < |traces| && Visible(traces[j], offsetTime, span) ==>
               ShapeOf(traces[j], offsetTime, zoom, span).value.rect != ShapeOf(traces[i], offsetTime, zoom, span).value.rect
    ensures ShapeOf(traces[i], offsetTime, zoom, span).value in RenderMap(traces, offsetTime, zoom, span)
  {
    var init := traces[..|traces| - 1];
    var m0 := RenderMap(init, offsetTime, zoom, span);
    if i == |traces| - 1 {
      RecordShapeContents(m0, ShapeOf(traces[i], offsetTime, zoom, span).value);
    } else {
      assert init[i] == traces[i];
      assert forall j :: i < j < |init| ==> init[j] == traces[j];
      RenderMapLastWins(init, offsetTime, zoom, span, i);
      match ShapeOf(traces[|traces| - 1], offsetTime, zoom, span)
      case None =>
      case Some(s) =>
        RecordShapeContents(m0, s);
    }
  }

  /** Every visible entry's rectangle is a key of the hit map. */
  lemma {:induction false} RenderMapCovers(traces: seq<CallStackEntry>, offsetTime: int, zoom: real, span: int)
    ensures forall i :: 0 <= i < |traces| && Visible(traces[i], offsetTime, span) ==>
              exists x :: x in RenderMap(traces, offsetTime, zoom, span)
                          && x.rect == ShapeOf(traces[i], offsetTime, zoom, span).value.rect
  {
    if traces != [] {
      var init := traces[..|traces| - 1];
      RenderMapCovers(init, offsetTime, zoom, span);
      var m0 := RenderMap(init, offsetTime, zoom, span);
      var m := RenderMap(traces, offsetTime, zoom, span);
      match ShapeOf(traces[|traces| - 1], offsetTime, zoom, span)
      case None =>
        forall i | 0 <= i < |traces| && Visible(traces[i], offsetTime, span)
          ensures exists x :: x in m && x.rect == ShapeOf(traces[i], offsetTime, zoom, span).value.rect
        {
          assert i < |init| && init[i] == traces[i];
        }
      case Some(s) =>
        RecordShapeContents(m0, s);
        forall i | 0 <= i < |traces| && Visible(traces[i], offsetTime, span)
          ensures exists x :: x in m && x.rect == ShapeOf(traces[i], offsetTime, zoom, span).value.rect
        {
          if i < |init| {
            assert init[i] == traces[i];
            var x :| x in m0 && x.rect == ShapeOf(traces[i], offsetTime, zoom, span).value.rect;
            if x.rect == s.rect {
              assert s in m;
            } else {
              assert x in m;
            }
          } else {
            assert s in m;
          }
        }
    }
  }

  // ---------------------------------------------------------------------
  // The mutable viewport

  /**
   * The component's persistent state: the camera, updated in place by the
   * keyboard handler and the initial fit, and the hit map of the last draw.
   */
  class FlameGraphView {
    var offsetTime: int
    var zoom: real
    var drawnShapeMap: seq<Shape>

    ghost predicate Valid()
      reads this
    {
      zoom > 0.0
    }

    function View(): ViewState
      reads this
    {
      ViewState(offsetTime, zoom)
    }

    constructor ()
      ensures Valid()
      ensures offsetTime == 0 && zoom == 0.01 && drawnShapeMap == []
    {
      offsetTime := 0;
      zoom := 0.01;
      drawnShapeMap := [];
    }

    /**
     * One draw: with no entries nothing is recorded and the previous hit map
     * stays; otherwise the hit map is rebuilt from the visible entries.
     */
    method Draw(traces: seq<CallStackEntry>, width: real)
      requires Valid() && width >= 0.0
      modifies this`drawnShapeMap
      ensures traces == [] ==> drawnShapeMap == old(drawnShapeMap)
      ensures traces != [] ==> drawnShapeMap == RenderMap(traces, offsetTime, zoom, VisibleSpan(width, zoom))
    {
      if |traces| == 0 {
        return;
      }
      var visibleStartTime := offsetTime;
      var visibleEndTime := offsetTime + (width / zoom).Floor;
      ghost var span := VisibleSpan(width, zoom);
      assert visibleEndTime == offsetTime + span;
      var renderMap: seq<Shape> := [];
      for i := 0 to |traces|
        invariant renderMap == RenderMap(traces[..i], offsetTime, zoom, span)
      {
        var trace := traces[i];
        RenderMapStep(traces, i, offsetTime, zoom, span);
        var start := trace.startTime;
        var end := trace.endTime;
        if end < visibleStartTime || start > visibleEndTime {
          continue;
        }
        var x := BarLeft(trace, offsetTime, zoom);
        var w := BarWidth(trace, zoom);
        var y := BarTop(trace);
        if w < MinDrawnWidth {
          continue;
        }
        renderMap := RecordShape(renderMap, Shape(Rect(x, y, x + w, y + BarHeight as real), trace));
      }
      assert traces[..|traces|] == traces;
      drawnShapeMap := renderMap;
    }

    /**
     * The bounds effect: when the entries span a positive duration, fit them to
     * the surface with 95% of its width and a 2.5% margin on the left, then draw.
     */
    method InitialFit(b: Bounds, traces: seq<CallStackEntry>, width: real)
      requires Valid() && width > 0.0
      modifies this
      ensures Valid()
      ensures b.duration <= 0 ==> View() == old(View()) && drawnShapeMap == old(drawnShapeMap)
      ensures b.duration > 0 ==>
                && zoom == width / b.duration as real * FitFraction
                && offsetTime == b.start - (b.duration as real * FitMargin).Floor
      ensures b.duration > 0 && traces != [] ==>
                drawnShapeMap == RenderMap(traces, offsetTime, zoom, VisibleSpan(width, zoom))
      ensures b.duration > 0 && traces == [] ==> drawnShapeMap == old(drawnShapeMap)
    {
      if b.duration > 0 {
        var initialZoom := width / b.duration as real;
        zoom := initialZoom * FitFraction;
        offsetTime := b.start - (b.duration as real * FitMargin).Floor;
        Draw(traces, width);
      }
    }

    /**
     * The keydown handler. Keys typed into a text field are ignored; a/d pan,
     * w/s zoom around the center, q/e jump to the previous/next entry, and a
     * redraw is scheduled; any other key changes nothing and draws nothing.
     */
    method HandleKeyDown(key: string, targetTagName: string, width: real, traces: seq<CallStackEntry>)
      returns (redraw: bool)
      requires Valid() && width >= 0.0
      modifies this`offsetTime, this`zoom
      ensures Valid()
      ensures IsTextField(targetTagName) ==> !redraw && View() == old(View())
      ensures !IsTextField(targetTagName) ==>
                && View() == Navigate(old(View()), ParseKey(key), width, traces)
                && redraw == (ParseKey(key) != Other)
    {
      if targetTagName == "INPUT" || targetTagName == "TEXTAREA" {
        return false;
      }
      var currentVisibleTime := (width / zoom).Floor;
      var centerTime := offsetTime + currentVisibleTime / 2;
      var panStep := (currentVisibleTime as real * PanFraction).Floor;

      redraw := true;
      match ToLower(key)
      case "a" =>
        offsetTime := offsetTime - panStep;
      case "d" =>
        offsetTime := offsetTime + panStep;
      case "w" =>
        var newZoom := zoom * ZoomFactor;
        if newZoom > MaxZoom {
          newZoom := MaxZoom;
        }
        zoom := newZoom;
        offsetTime := centerTime - (width / newZoom / 2.0).Floor;
      case "s" =>
        var newZoom := zoom / ZoomFactor;
        if newZoom < MinZoom {
          newZoom := MinZoom;
        }
        zoom := newZoom;
        offsetTime := centerTime - (width / newZoom / 2.0).Floor;
      case "q" =>
        var target := FindPrevious(traces, centerTime);
        if target.Some? {
          offsetTime := traces[target.value].startTime - currentVisibleTime / 2;
        }
      case "e" =>
        var target := FindNext(traces, centerTime);
        if target.Some? {
          offsetTime := traces[target.value].startTime - currentVisibleTime / 2;
        }
      case _ =>
        redraw := false;
    }
  }
}
