/** What a click and a drag of the capture session do, told from the windows and the picks. */
module CaptureClicks {
  import opened Text
  import opened CaptureSession

  /** The topmost window at a point. */
  ghost predicate TopAt(wins: seq<Window>, p: Point, w: Window) {
    exists i :: 0 <= i < |wins| && wins[i] == w && w.rect.Has(p) && forall j :: 0 <= j < i ==> !wins[j].rect.Has(p)
  }

  lemma {:induction false} TopIs(wins: seq<Window>, p: Point, w: Window)
    requires TopAt(wins, p, w)
    ensures WindowAt(wins, p) == Some(w)
  {
    var i :| 0 <= i < |wins| && wins[i] == w && w.rect.Has(p) && forall j :: 0 <= j < i ==> !wins[j].rect.Has(p);
    Topmost(wins, p, i);
    var k :| 0 <= k <= i && WindowAt(wins, p) == Some(wins[k]) && forall j :: 0 <= j < k ==> !wins[j].rect.Has(p);
    assert wins[k].rect.Has(p);
    assert k == i;
  }

  function Pressed(s: State, pt: Point, ctrl: bool): State { Next(s, Down(pt, ctrl)) }

  /** The button goes down and up at one point. */
  function Clicked(s: State, pt: Point, ctrl: bool): State { Next(Pressed(s, pt, ctrl), Up(pt, ctrl)) }

  lemma {:induction false} PressIs(s: State, pt: Point, ctrl: bool)
    requires !s.done
    ensures Pressed(s, pt, ctrl) == s.(pointer := pt, pressed := true, pressPt := pt, dragging := false)
  {
  }

  /** Up to the picks and whether the session is done nothing of a click stays. */
  ghost predicate Picked(s: State, after: State, selections: seq<Selection>, done: bool) {
    after.selections == selections && after.done == done && !after.pressed && after.wins == s.wins &&
    after.cancelled == s.cancelled
  }

  /** A click on a window that is not picked picks it; without Ctrl the session is done. */
  lemma {:induction false} ClickPicks(s: State, pt: Point, ctrl: bool, w: Window)
    requires !s.done && TopAt(s.wins, pt, w)
    requires forall i :: 0 <= i < |s.selections| ==> !(s.selections[i].WindowPick? && s.selections[i].hwnd == w.hwnd)
    ensures Picked(s, Clicked(s, pt, ctrl), s.selections + [WindowPick(w.rect, w.title, w.hwnd)], !ctrl)
  {
    TopIs(s.wins, pt, w);
    PressIs(s, pt, ctrl);
    assert forall i :: 0 <= i < |s.selections| ==> !IsWindow(s.selections[i], w.hwnd);
  }

  /** A click with Ctrl on a picked window takes that one off; without Ctrl the session is done with its picks. */
  lemma {:induction false} ClickTakesOff(s: State, pt: Point, ctrl: bool, w: Window, k: nat)
    requires !s.done && TopAt(s.wins, pt, w) && NoWindowTwice(s.selections)
    requires k < |s.selections| && s.selections[k].WindowPick? && s.selections[k].hwnd == w.hwnd
    ensures Picked(s, Clicked(s, pt, ctrl), if ctrl then s.selections[..k] + s.selections[k + 1..] else s.selections,
      !ctrl)
  {
    TopIs(s.wins, pt, w);
    PressIs(s, pt, ctrl);
    assert IsWindow(s.selections[k], w.hwnd);
    assert IndexOfWindow(s.selections, w.hwnd) == Some(k);
  }

  /** A click on no window picks nothing; without Ctrl it ends a session that has picks. */
  lemma {:induction false} ClickMisses(s: State, pt: Point, ctrl: bool)
    requires !s.done && forall i :: 0 <= i < |s.wins| ==> !s.wins[i].rect.Has(pt)
    ensures Picked(s, Clicked(s, pt, ctrl), s.selections, !ctrl && s.selections != [])
  {
    PressIs(s, pt, ctrl);
    assert forall w :: w in s.wins ==> !w.rect.Has(pt);
  }

  /** The button goes down at one point and up at another. */
  function Dragged(s: State, a: Point, b: Point, ctrl: bool): State { Next(Pressed(s, a, ctrl), Up(b, ctrl)) }

  /** The rectangle between two points. */
  ghost predicate Between(r: Rect, a: Point, b: Point) {
    && r.left <= r.right && r.top <= r.bottom
    && ((r.left, r.right) == (a.x, b.x) || (r.left, r.right) == (b.x, a.x))
    && ((r.top, r.bottom) == (a.y, b.y) || (r.top, r.bottom) == (b.y, a.y))
  }

  /** A drag of more than four pixels picks the rectangle between its ends when both sides have eight, else nothing. */
  lemma {:induction false} DragPicks(s: State, a: Point, b: Point, ctrl: bool, r: Rect)
    requires !s.done && Between(r, a, b) && (r.right - r.left > 4 || r.bottom - r.top > 4)
    ensures var wide := r.right - r.left >= 8 && r.bottom - r.top >= 8;
      Picked(s, Dragged(s, a, b, ctrl), if wide then s.selections + [RegionPick(r)] else s.selections,
        !ctrl && (wide || s.selections != []))
  {
    PressIs(s, a, ctrl);
    assert Distance(b, a) > CLICK_SLOP;
    assert NormalizeRect(a, b) == r;
  }

  /** Once dragged, coming back is no click: nothing is picked. */
  lemma {:induction false} DragBack(s: State, a: Point, b: Point, ctrl: bool)
    requires !s.done && (b.x - a.x > 4 || a.x - b.x > 4 || b.y - a.y > 4 || a.y - b.y > 4)
    ensures var after := Next(Next(Pressed(s, a, ctrl), Move(b, ctrl)), Up(a, ctrl));
      Picked(s, after, s.selections, !ctrl && s.selections != [])
  {
    PressIs(s, a, ctrl);
    assert Distance(b, a) > CLICK_SLOP;
    assert NormalizeRect(a, a).Dx() == 0;
  }
}
