/**
  Picking windows and rectangles on the screen: the state machine the overlay drives with mouse and key events.
  A click picks the window under the pointer, a drag a rectangle; without Ctrl the first pick ends the session,
  with Ctrl picks are collected until Ctrl goes up.
 */
module CaptureSession {
  import opened Text

  const CLICK_SLOP := 4
  const MIN_REGION := 8

  datatype Point = Point(x: int, y: int)

  /** The right and lower edges are outside. */
  datatype Rect = Rect(left: int, top: int, right: int, bottom: int) {
    function Dx(): int { right - left }
    function Dy(): int { bottom - top }
    predicate Has(p: Point) { left <= p.x < right && top <= p.y < bottom }
  }

  datatype Window = Window(hwnd: nat, rect: Rect, title: string)

  datatype Selection = WindowPick(rect: Rect, title: string, hwnd: nat) | RegionPick(rect: Rect)

  function Min(a: int, b: int): int { if a < b then a else b }
  function Max(a: int, b: int): int { if a > b then a else b }

  /** The rectangle with two points at opposite corners. */
  function NormalizeRect(a: Point, b: Point): (r: Rect)
    ensures r.left <= r.right && r.top <= r.bottom
    ensures (r.left, r.right) == (a.x, b.x) || (r.left, r.right) == (b.x, a.x)
    ensures (r.top, r.bottom) == (a.y, b.y) || (r.top, r.bottom) == (b.y, a.y)
  {
    Rect(Min(a.x, b.x), Min(a.y, b.y), Max(a.x, b.x), Max(a.y, b.y))
  }

  /** The longer of the two sides between points. */
  function Distance(a: Point, b: Point): (d: int)
    ensures -d <= a.x - b.x <= d && -d <= a.y - b.y <= d
    ensures d == a.x - b.x || d == b.x - a.x || d == a.y - b.y || d == b.y - a.y
  {
    Max(Max(a.x - b.x, b.x - a.x), Max(a.y - b.y, b.y - a.y))
  }

  /** The topmost window that holds a point. */
  function WindowAt(wins: seq<Window>, p: Point): (r: Option<Window>)
    ensures r.Some? ==> r.value in wins && r.value.rect.Has(p)
    ensures r.None? ==> forall w :: w in wins ==> !w.rect.Has(p)
  {
    if wins == [] then None else if wins[0].rect.Has(p) then Some(wins[0]) else WindowAt(wins[1..], p)
  }

  /** No window above the one it answers with holds the point. */
  lemma {:induction false} Topmost(wins: seq<Window>, p: Point, k: nat)
    requires k < |wins| && wins[k].rect.Has(p)
    ensures exists i ::
      0 <= i <= k && WindowAt(wins, p) == Some(wins[i]) && forall j :: 0 <= j < i ==> !wins[j].rect.Has(p)
  {
    if !wins[0].rect.Has(p) {
      Topmost(wins[1..], p, k - 1);
      var i :| 0 <= i <= k - 1 && WindowAt(wins[1..], p) == Some(wins[1..][i]) &&
        forall j :: 0 <= j < i ==> !wins[1..][j].rect.Has(p);
      assert WindowAt(wins, p) == Some(wins[i + 1]);
      forall j | 0 <= j < i + 1 ensures !wins[j].rect.Has(p) {
        if j > 0 { assert wins[j] == wins[1..][j - 1]; }
      }
    } else {
      assert WindowAt(wins, p) == Some(wins[0]);
    }
  }

  // ----- events --------------------------------------------------------------------------------------------

  datatype State = State(wins: seq<Window>, pointer: Point, hover: Option<Window>, pressed: bool, pressPt: Point,
        dragging: bool, selections: seq<Selection>, done: bool, cancelled: bool)

  datatype Event =
    | Move(pt: Point, ctrl: bool)
    | Down(pt: Point, ctrl: bool)
    | Up(pt: Point, ctrl: bool)
    | CtrlChanged(ctrl: bool)
    | Escape

  predicate IsWindow(sel: Selection, hwnd: nat) { sel.WindowPick? && sel.hwnd == hwnd }

  function IndexOfWindow(selections: seq<Selection>, hwnd: nat): (r: Option<nat>)
    ensures r.Some? ==> r.value < |selections| && IsWindow(selections[r.value], hwnd)
    ensures r.None? ==> forall i :: 0 <= i < |selections| ==> !IsWindow(selections[i], hwnd)
  {
    if selections == [] then None
    else if IsWindow(selections[0], hwnd) then Some(0)
    else
      match IndexOfWindow(selections[1..], hwnd)
      case None => None
      case Some(i) => Some(i + 1)
  }

  function NoteCtrl(s: State, ctrl: bool): State {
    if !ctrl && s.selections != [] && !s.pressed then s.(done := true) else s
  }

  /** What releasing the button does to the picks, and whether it picked something. */
  function Picks(s: State, pt: Point, ctrl: bool): (seq<Selection>, bool) {
    if s.dragging || Distance(pt, s.pressPt) > CLICK_SLOP then
      var r := NormalizeRect(s.pressPt, pt);
      if r.Dx() >= MIN_REGION && r.Dy() >= MIN_REGION then (s.selections + [RegionPick(r)], true)
        else (s.selections, false)
    else
      match WindowAt(s.wins, pt)
      case None => (s.selections, false)
      case Some(w) =>
        match IndexOfWindow(s.selections, w.hwnd)
        case None => (s.selections + [WindowPick(w.rect, w.title, w.hwnd)], true)
        case Some(i) => (if ctrl then s.selections[..i] + s.selections[i + 1..] else s.selections, false)
  }

  function Next(s: State, e: Event): State {
    match e
    case Escape => s.(done := true, cancelled := true)
    case _ => if s.done then s else NextLive(s, e)
  }

  function NextLive(s: State, e: Event): State {
    match e
    case Move(pt, ctrl) =>
      NoteCtrl(s.(pointer := pt,
                  dragging := s.dragging || (s.pressed && Distance(pt, s.pressPt) > CLICK_SLOP),
                  hover := if s.pressed then s.hover else WindowAt(s.wins, pt)), ctrl)
    case Down(pt, ctrl) => NoteCtrl(s.(pointer := pt, pressed := true, pressPt := pt, dragging := false), ctrl)
    case Up(pt, ctrl) =>
      if !s.pressed then s
      else
        var (selections, picked) := Picks(s, pt, ctrl);
        var t := s.(pointer := pt, pressed := false, dragging := false, selections := selections);
        if picked && !ctrl then t.(done := true) else NoteCtrl(t, ctrl)
    case CtrlChanged(ctrl) => NoteCtrl(s, ctrl)
    case Escape => s
  }

  function Result(s: State): seq<Selection> {
    if s.cancelled then [] else s.selections
  }

  /** The rectangle that a release of the button here would be about. */
  function Live(s: State): Option<Rect> {
    if s.done then None
    else if s.pressed then
      if s.dragging then Some(NormalizeRect(s.pressPt, s.pointer))
      else if WindowAt(s.wins, s.pressPt).Some? then Some(WindowAt(s.wins, s.pressPt).value.rect)
      else None
    else if s.hover.Some? then Some(s.hover.value.rect)
    else None
  }

  function Start(wins: seq<Window>): State {
    State(wins, Point(0, 0), None, false, Point(0, 0), false, [], false, false)
  }

  function Run(s: State, events: seq<Event>): State
    decreases |events|
  {
    if events == [] then s else Run(Next(s, events[0]), events[1..])
  }

  // ----- the session object --------------------------------------------------------------------------------

  class CapSession {
    const wins: seq<Window>
    var pointer: Point
    var hover: Option<Window>
    var pressed: bool
    var pressPt: Point
    var dragging: bool
    var selections: seq<Selection>
    var done: bool
    var cancelled: bool

    function Now(): State
      reads this
    {
      State(wins, pointer, hover, pressed, pressPt, dragging, selections, done, cancelled)
    }

    constructor (windows: seq<Window>)
      ensures Now() == Start(windows)
    {
      wins, pointer, hover, pressed, pressPt, dragging := windows, Point(0, 0), None, false, Point(0, 0), false;
      selections, done, cancelled := [], false, false;
    }

    method Move(pt: Point, ctrl: bool)
      modifies this
      ensures Now() == Next(old(Now()), Event.Move(pt, ctrl))
    {
      if done { return; }
      pointer := pt;
      if pressed && Distance(pt, pressPt) > CLICK_SLOP { dragging := true; }
      if !pressed { hover := WindowAt(wins, pt); }
      NoteCtrlKey(ctrl);
    }

    method Down(pt: Point, ctrl: bool)
      modifies this
      ensures Now() == Next(old(Now()), Event.Down(pt, ctrl))
    {
      if done { return; }
      pointer, pressed, pressPt, dragging := pt, true, pt, false;
      NoteCtrlKey(ctrl);
    }

    method Up(pt: Point, ctrl: bool)
      modifies this
      ensures Now() == Next(old(Now()), Event.Up(pt, ctrl))
    {
      if done || !pressed { return; }
      pointer := pt;
      var dragged := dragging || Distance(pt, pressPt) > CLICK_SLOP;
      pressed, dragging := false, false;
      var picked := false;
      if dragged {
        var r := NormalizeRect(pressPt, pt);
        if r.Dx() >= MIN_REGION && r.Dy() >= MIN_REGION {
          selections, picked := selections + [RegionPick(r)], true;
        }
      } else {
        var w := WindowAt(wins, pt);
        if w.Some? {
          var i := IndexOfWindow(selections, w.value.hwnd);
          if i.Some? && ctrl {
            selections := selections[..i.value] + selections[i.value + 1..];
          } else if i.None? {
            selections, picked := selections + [WindowPick(w.value.rect, w.value.title, w.value.hwnd)], true;
          }
        }
      }
      if picked && !ctrl {
        done := true;
        return;
      }
      NoteCtrlKey(ctrl);
    }

    method CtrlChanged(ctrl: bool)
      modifies this
      ensures Now() == Next(old(Now()), Event.CtrlChanged(ctrl))
    {
      if done { return; }
      NoteCtrlKey(ctrl);
    }

    method NoteCtrlKey(ctrl: bool)
      modifies this`done
      ensures Now() == NoteCtrl(old(Now()), ctrl)
    {
      if !ctrl && selections != [] && !pressed { done := true; }
    }

    method Escape()
      modifies this`done, this`cancelled
      ensures Now() == Next(old(Now()), Event.Escape)
    {
      done, cancelled := true, true;
    }
  }

  // ----- what every run keeps ------------------------------------------------------------------------------

  /** A pick is one of the windows of the list as it was, or a rectangle that is large enough. */
  ghost predicate PickOk(wins: seq<Window>, sel: Selection) {
    match sel
    case WindowPick(rect, title, hwnd) => Window(hwnd, rect, title) in wins
    case RegionPick(rect) => rect.Dx() >= MIN_REGION && rect.Dy() >= MIN_REGION
  }

  ghost predicate NoWindowTwice(selections: seq<Selection>) {
    forall i, j :: 0 <= i < j < |selections| && selections[i].WindowPick? && selections[j].WindowPick? ==>
      selections[i].hwnd != selections[j].hwnd
  }

  ghost predicate Inv(s: State) {
    && (s.cancelled ==> s.done)
    && (s.dragging ==> s.pressed)
    && (s.pressed && !s.dragging ==> Distance(s.pointer, s.pressPt) <= CLICK_SLOP)
    && NoWindowTwice(s.selections)
    && (forall i :: 0 <= i < |s.selections| ==> PickOk(s.wins, s.selections[i]))
    && (s.hover.Some? ==> s.hover.value in s.wins)
  }

  lemma {:induction false} PicksKeep(s: State, pt: Point, ctrl: bool)
    requires Inv(s)
    ensures var (selections, _) := Picks(s, pt, ctrl);
      NoWindowTwice(selections) && forall i :: 0 <= i < |selections| ==> PickOk(s.wins, selections[i])
  {
    var (selections, picked) := Picks(s, pt, ctrl);
    if |selections| < |s.selections| {
      var i := IndexOfWindow(s.selections, WindowAt(s.wins, pt).value.hwnd).value;
      forall k | 0 <= k < |selections| ensures selections[k] == s.selections[if k < i then k else k + 1] {}
    } else if picked && !(s.dragging || Distance(pt, s.pressPt) > CLICK_SLOP) {
      var w := WindowAt(s.wins, pt).value;
      assert Window(w.hwnd, w.rect, w.title) == w;
      assert forall i :: 0 <= i < |s.selections| ==> !IsWindow(s.selections[i], w.hwnd);
    }
  }

  lemma {:induction false} NextKeeps(s: State, e: Event)
    requires Inv(s)
    ensures Inv(Next(s, e)) && Next(s, e).wins == s.wins
    ensures s.done ==> Next(s, e).done && Next(s, e).selections == s.selections
    ensures s.cancelled ==> Next(s, e).cancelled
  {
    if e.Up? && !s.done && s.pressed { PicksKeep(s, e.pt, e.ctrl); }
  }

  lemma {:induction false} RunKeeps(s: State, events: seq<Event>)
    requires Inv(s)
    ensures Inv(Run(s, events)) && Run(s, events).wins == s.wins
    ensures s.done ==> Run(s, events).done && Run(s, events).selections == s.selections
    ensures s.cancelled ==> Run(s, events).cancelled
    decreases |events|
  {
    if events != [] {
      NextKeeps(s, events[0]);
      RunKeeps(Next(s, events[0]), events[1..]);
    }
  }

  lemma {:induction false} RunThen(s: State, first: seq<Event>, rest: seq<Event>)
    ensures Run(s, first + rest) == Run(Run(s, first), rest)
    decreases |first|
  {
    if first == [] {
      assert first + rest == rest;
    } else {
      assert (first + rest)[1..] == first[1..] + rest;
      RunThen(Next(s, first[0]), first[1..], rest);
    }
  }

  /**
    For every sequence of events: no window is picked twice, picks are windows of the list or large enough, and a
    cancelled session is done and empty.
   */
  lemma {:induction false} SessionSafe(wins: seq<Window>, events: seq<Event>)
    ensures var s := Run(Start(wins), events);
      && NoWindowTwice(s.selections) && (forall i :: 0 <= i < |s.selections| ==> PickOk(wins, s.selections[i]))
      && (s.cancelled ==> s.done && Result(s) == [])
  {
    RunKeeps(Start(wins), events);
  }

  /** Once a session is done it stays done, and its picks stay what they are. */
  lemma {:induction false} DoneIsFinal(wins: seq<Window>, events: seq<Event>, more: seq<Event>)
    requires Run(Start(wins), events).done
    ensures Run(Start(wins), events + more).done
    ensures Run(Start(wins), events + more).selections == Run(Start(wins), events).selections
    ensures Run(Start(wins), events).cancelled ==> Run(Start(wins), events + more).cancelled
  {
    RunThen(Start(wins), events, more);
    RunKeeps(Start(wins), events);
    RunKeeps(Run(Start(wins), events), more);
  }

  /** Whether an event is acted on. */
  predicate Processed(s: State, e: Event) {
    e.Escape? || (!s.done && (e.Up? ==> s.pressed))
  }

  /** The Ctrl key of the last event that was acted on; none before the first. */
  function LastCtrl(s: State, events: seq<Event>, ctrl: bool): bool
    decreases |events|
  {
    if events == [] then ctrl
    else LastCtrl(Next(s, events[0]), events[1..], if Processed(s, events[0]) &&
      !events[0].Escape? then events[0].ctrl else ctrl)
  }

  ghost predicate HeldByCtrl(s: State, ctrl: bool) {
    !s.done && s.selections != [] && !s.pressed ==> ctrl
  }

  lemma {:induction false} CtrlKeeps(s: State, events: seq<Event>, ctrl: bool)
    requires HeldByCtrl(s, ctrl)
    ensures HeldByCtrl(Run(s, events), LastCtrl(s, events, ctrl))
    decreases |events|
  {
    if events != [] {
      var e := events[0];
      CtrlKeeps(Next(s, e), events[1..], if Processed(s, e) && !e.Escape? then e.ctrl else ctrl);
    }
  }

  /**
    A session that still runs, with picks and no button down, is kept open by Ctrl: the last event acted on carried
    it.
   */
  lemma {:induction false} OnlyCtrlKeepsOpen(wins: seq<Window>, events: seq<Event>)
    requires var s := Run(Start(wins), events); !s.done && s.selections != [] && !s.pressed
    ensures LastCtrl(Start(wins), events, false)
  {
    CtrlKeeps(Start(wins), events, false);
  }

  // ----- the frame drawn and the pick made -----------------------------------------------------------------

  /**
    Letting the button go at any point: a drag picks its rectangle when that is large enough, and what is picked is
    the frame that moving there shows, exactly when it is a drag or press and release are over windows of one frame.
   */
  lemma {:induction false} UpTakesLive(wins: seq<Window>, events: seq<Event>, pt: Point, ctrl: bool)
    requires var s := Run(Start(wins), events); s.pressed && !s.done
    ensures var s := Run(Start(wins), events);
      var there := Next(s, Move(pt, ctrl));
      var (selections, picked) := Picks(s, pt, ctrl);
      && (there.dragging ==> Live(there).Some?)
      && (there.dragging ==> (picked <==> Live(there).value.Dx() >= MIN_REGION && Live(there).value.Dy() >= MIN_REGION))
    ensures var s := Run(Start(wins), events);
      var there := Next(s, Move(pt, ctrl));
      var (selections, picked) := Picks(s, pt, ctrl);
      && (picked ==> selections != [])
      && (picked ==> (Some(selections[|selections| - 1].rect) == Live(there) <==> there.dragging || UnderBoth(there)))
  {
    RunKeeps(Start(wins), events);
  }

  /** The windows under the press and under the pointer have the same frame. */
  predicate UnderBoth(s: State) {
    var a, b := WindowAt(s.wins, s.pressPt), WindowAt(s.wins, s.pointer);
    a.Some? && b.Some? && a.value.rect == b.value.rect
  }

  // ----- windows that have to be printed -------------------------------------------------------------------

  predicate Empty(r: Rect) { r.left >= r.right || r.top >= r.bottom }

  predicate Within(r: Rect, s: Rect) {
    Empty(r) || (s.left <= r.left && r.right <= s.right && s.top <= r.top && r.bottom <= s.bottom)
  }

  predicate Overlaps(r: Rect, s: Rect) {
    !Empty(r) && !Empty(s) && r.left < s.right && s.left < r.right && r.top < s.bottom && s.top < r.bottom
  }

  /** A window above that of a selection overlaps it. */
  predicate Covered(wins: seq<Window>, sel: Selection)
    requires sel.WindowPick?
  {
    wins != [] && wins[0].hwnd != sel.hwnd && (Overlaps(wins[0].rect, sel.rect) || Covered(wins[1..], sel))
  }

  predicate NeedsPrint(wins: seq<Window>, sel: Selection, desktop: Rect) {
    sel.WindowPick? && (!Within(sel.rect, desktop) || Covered(wins, sel))
  }

  method WindowNeedsPrint(wins: seq<Window>, sel: Selection, desktop: Rect) returns (r: bool)
    ensures r == NeedsPrint(wins, sel, desktop)
  {
    if !sel.WindowPick? { return false; }
    if !Within(sel.rect, desktop) { return true; }
    for i := 0 to |wins|
      invariant Covered(wins[i..], sel) == Covered(wins, sel)
    {
      assert wins[i..][1..] == wins[i + 1..];
      if wins[i].hwnd == sel.hwnd { return false; }
      if Overlaps(wins[i].rect, sel.rect) { return true; }
    }
    r := false;
  }

  /** Some part of a rectangle is outside another. */
  lemma {:induction false} NotWithin(r: Rect, s: Rect)
    ensures Within(r, s) <==> forall p: Point :: r.Has(p) ==> s.Has(p)
  {
    if !Within(r, s) {
      var a, b := Point(r.left, r.top), Point(r.right - 1, r.bottom - 1);
      assert r.Has(a) && r.Has(b);
      assert !(s.Has(a) && s.Has(b));
    }
  }

  /** A window is covered at some point exactly when one above it overlaps it. */
  lemma {:induction false} CoveredMeans(wins: seq<Window>, sel: Selection, k: nat)
    requires sel.WindowPick? && k < |wins| && wins[k] == Window(sel.hwnd, sel.rect, sel.title)
    requires forall i :: 0 <= i < k ==> wins[i].hwnd != sel.hwnd
    ensures Covered(wins, sel) <==> exists p: Point :: sel.rect.Has(p) && WindowAt(wins, p) != Some(wins[k])
  {
    if k > 0 {
      var w := wins[0];
      CoveredMeans(wins[1..], sel, k - 1);
      if Overlaps(w.rect, sel.rect) {
        var p := Point(Max(w.rect.left, sel.rect.left), Max(w.rect.top, sel.rect.top));
        assert sel.rect.Has(p) && WindowAt(wins, p) == Some(w);
      } else {
        forall p: Point | sel.rect.Has(p) ensures WindowAt(wins, p) == WindowAt(wins[1..], p) {}
      }
    }
  }

  /** A picked window is printed exactly when some point of it is off the desktop or under another window. */
  lemma {:induction false} PrintedIffHidden(wins: seq<Window>, sel: Selection, desktop: Rect, k: nat)
    requires sel.WindowPick? && k < |wins| && wins[k] == Window(sel.hwnd, sel.rect, sel.title)
    requires forall i :: 0 <= i < k ==> wins[i].hwnd != sel.hwnd
    ensures NeedsPrint(wins, sel, desktop)
       <==> exists p: Point :: sel.rect.Has(p) && (!desktop.Has(p) || WindowAt(wins, p) != Some(wins[k]))
  {
    NotWithin(sel.rect, desktop);
    CoveredMeans(wins, sel, k);
  }
}
