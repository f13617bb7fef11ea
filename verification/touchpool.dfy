/**
  The input handlers of the React component: mouse events drive pointer
  slot 0, touch `i` drives slot `i + 1`, the pool grows on demand, and a
  touch that ends is found again by its identifier. Event positions are
  CSS pixels scaled to drawing-buffer pixels by the device pixel ratio.
 */
module TouchPool {
  import opened Common
  import opened Pointers

  /** One entry of `targetTouches`/`changedTouches`. */
  datatype Touch = Touch(identifier: int, pageX: real, pageY: real)

  /** The pixel ratio `window.devicePixelRatio || 1` yields: 0 is falsy. */
  function EffectiveRatio(devicePixelRatio: real): real {
    if devicePixelRatio == 0.0 then 1.0 else devicePixelRatio
  }

  /** `scaleByPixelRatio`: CSS pixels to whole drawing-buffer pixels. */
  function ScaleByPixelRatio(input: real, devicePixelRatio: real): int {
    (input * EffectiveRatio(devicePixelRatio)).Floor
  }

  /** The result is the largest whole pixel not past the scaled position;
      with no ratio reported (or a ratio of 1) whole CSS pixels map to
      themselves, and scaling preserves order for a positive ratio. */
  lemma ScaleByPixelRatioLaws(n: int, x: real, y: real, ratio: real)
    ensures var r := ScaleByPixelRatio(x, ratio);
            r as real <= x * EffectiveRatio(ratio) < r as real + 1.0
    ensures ScaleByPixelRatio(n as real, 0.0) == n && ScaleByPixelRatio(n as real, 1.0) == n
    ensures ratio > 0.0 && x <= y ==> ScaleByPixelRatio(x, ratio) <= ScaleByPixelRatio(y, ratio)
  {
    if ratio > 0.0 && x <= y {
      MulNonneg(y - x, ratio);
      assert (y - x) * ratio == y * ratio - x * ratio;
    }
  }

  function Max(a: int, b: int): int {
    if a >= b then a else b
  }

  /** A slot pressed by a touch: its id is the touch identifier and its
      position the touch's scaled page position. */
  function TouchDown(t: Touch, c: Canvas, dpr: real, color: Color): (r: Pointer)
    requires ValidCanvas(c)
    ensures r.down && !r.moved && r.id == t.identifier && r.color == color
  {
    PointerDown(DefaultPointer, c, t.identifier, ScaleByPixelRatio(t.pageX, dpr), ScaleByPixelRatio(t.pageY, dpr), color)
  }

  // ------------------------------------------------------------ mouse

  /** `handleMouseDown`: slot 0 is pressed with id -1. */
  function MouseDown(ps: seq<Pointer>, c: Canvas, offsetX: real, offsetY: real, dpr: real, color: Color): (r: seq<Pointer>)
    requires ValidCanvas(c) && |ps| > 0
    ensures |r| == |ps| && r[0].down && r[0].id == -1 && !r[0].moved
    ensures forall k :: 1 <= k < |ps| ==> r[k] == ps[k]
  {
    ps[0 := PointerDown(ps[0], c, -1, ScaleByPixelRatio(offsetX, dpr), ScaleByPixelRatio(offsetY, dpr), color)]
  }

  /** `handleMouseMove`: slot 0 follows the mouse only while pressed. */
  function MouseMove(ps: seq<Pointer>, c: Canvas, offsetX: real, offsetY: real, dpr: real): (r: seq<Pointer>)
    requires ValidCanvas(c) && |ps| > 0
    ensures !ps[0].down ==> r == ps
    ensures |r| == |ps| && forall k :: 1 <= k < |ps| ==> r[k] == ps[k]
    ensures ps[0].down ==> r[0] == PointerMove(ps[0], c, ScaleByPixelRatio(offsetX, dpr), ScaleByPixelRatio(offsetY, dpr))
  {
    if !ps[0].down then ps
    else ps[0 := PointerMove(ps[0], c, ScaleByPixelRatio(offsetX, dpr), ScaleByPixelRatio(offsetY, dpr))]
  }

  /** `handleMouseUp`: slot 0 is released. */
  function MouseUp(ps: seq<Pointer>): (r: seq<Pointer>)
    requires |ps| > 0
    ensures |r| == |ps| && !r[0].down && r[0].id == ps[0].id
    ensures forall k :: 1 <= k < |ps| ==> r[k] == ps[k]
  {
    ps[0 := PointerUp(ps[0])]
  }

  /** A press, a move to the same place and a release leave slot 0
      released, with no motion to splat and the mouse id. */
  lemma MouseClick(ps: seq<Pointer>, c: Canvas, x: real, y: real, dpr: real, color: Color)
    requires ValidCanvas(c) && |ps| > 0
    ensures var r := MouseUp(MouseMove(MouseDown(ps, c, x, y, dpr, color), c, x, y, dpr));
            |r| == |ps| && !r[0].down && !r[0].moved && r[0].id == -1
  {
    var d := MouseDown(ps, c, x, y, dpr, color);
    DownThenStill(ps[0], c, -1, ScaleByPixelRatio(x, dpr), ScaleByPixelRatio(y, dpr), color);
  }

  // ------------------------------------------------------------ touch start

  /** The pool after `handleTouchStart`'s growth loop for `n` touches: it
      has at least `n + 1` slots, new slots are default pointers. */
  function Grow(ps: seq<Pointer>, n: nat): (r: seq<Pointer>)
    ensures |r| == Max(|ps|, n + 1) && r[..|ps|] == ps
    ensures forall k :: |ps| <= k < |r| ==> r[k] == DefaultPointer
  {
    if n >= |ps| then ps + seq(n + 1 - |ps|, _ => DefaultPointer) else ps
  }

  /** The growth loop as written: push a default pointer while the touch
      count is at least the pool size. */
  method GrowPool(ps: seq<Pointer>, n: nat) returns (r: seq<Pointer>)
    ensures r == Grow(ps, n)
    ensures n < |r|
  {
    r := ps;
    while n >= |r|
      invariant |ps| <= |r| <= Max(|ps|, n + 1)
      invariant r[..|ps|] == ps
      invariant forall k :: |ps| <= k < |r| ==> r[k] == DefaultPointer
      decreases n + 1 - |r|
    {
      r := r + [DefaultPointer];
    }
    var g := Grow(ps, n);
    assert |r| == |g|;
    assert forall k :: 0 <= k < |r| ==> r[k] == g[k] by {
      forall k | 0 <= k < |r|
        ensures r[k] == g[k]
      {
        if k < |ps| {
          assert r[k] == r[..|ps|][k] && g[k] == g[..|ps|][k];
        }
      }
    }
  }

  /** `handleTouchStart`: after growing the pool, slot `i + 1` is pressed by
      touch `i` (each with a fresh colour). */
  function TouchStart(ps: seq<Pointer>, c: Canvas, touches: seq<Touch>, dpr: real, colors: seq<Color>): (r: seq<Pointer>)
    requires ValidCanvas(c) && |colors| == |touches|
    ensures |r| == Max(|ps|, |touches| + 1)
    ensures forall i :: 0 <= i < |touches| ==> r[i + 1] == TouchDown(touches[i], c, dpr, colors[i])
    ensures |ps| > 0 ==> r[0] == ps[0]
    ensures forall k :: |touches| < k < |ps| ==> r[k] == ps[k]
  {
    var g := Grow(ps, |touches|);
    seq(|g|, k requires 0 <= k < |g| =>
      if 1 <= k <= |touches| then
        PointerDown(g[k], c, touches[k - 1].identifier,
                    ScaleByPixelRatio(touches[k - 1].pageX, dpr), ScaleByPixelRatio(touches[k - 1].pageY, dpr),
                    colors[k - 1])
      else g[k])
  }

  /** The pool never shrinks, and a touch start with no touches changes
      nothing but (for an empty pool) the slot it adds. */
  lemma TouchStartGrowsOnly(ps: seq<Pointer>, c: Canvas, dpr: real)
    requires ValidCanvas(c)
    ensures |ps| > 0 ==> TouchStart(ps, c, [], dpr, []) == ps
    ensures |ps| == 0 ==> TouchStart(ps, c, [], dpr, []) == [DefaultPointer]
  {
    var r := TouchStart(ps, c, [], dpr, []);
    if |ps| > 0 {
      assert forall k :: 0 <= k < |ps| ==> r[k] == ps[k];
    }
  }

  // ------------------------------------------------------------ touch move

  /** `handleTouchMove`: touch `i` moves slot `i + 1` when that slot exists
      and is pressed; other slots are left alone. */
  function TouchMove(ps: seq<Pointer>, c: Canvas, touches: seq<Touch>, dpr: real): (r: seq<Pointer>)
    requires ValidCanvas(c)
    ensures |r| == |ps|
    ensures forall k :: 0 <= k < |ps| && (k == 0 || k > |touches| || !ps[k].down) ==> r[k] == ps[k]
    ensures forall k :: 1 <= k <= |touches| && k < |ps| && ps[k].down ==>
              r[k] == PointerMove(ps[k], c, ScaleByPixelRatio(touches[k - 1].pageX, dpr),
                                  ScaleByPixelRatio(touches[k - 1].pageY, dpr))
  {
    seq(|ps|, k requires 0 <= k < |ps| =>
      if 1 <= k <= |touches| && ps[k].down then
        PointerMove(ps[k], c, ScaleByPixelRatio(touches[k - 1].pageX, dpr), ScaleByPixelRatio(touches[k - 1].pageY, dpr))
      else ps[k])
  }

  /** Touches that start and then report the same positions have not moved:
      no touch slot has a motion to splat. */
  lemma StartThenStill(ps: seq<Pointer>, c: Canvas, touches: seq<Touch>, dpr: real, colors: seq<Color>)
    requires ValidCanvas(c) && |colors| == |touches|
    ensures var r := TouchMove(TouchStart(ps, c, touches, dpr, colors), c, touches, dpr);
            forall k :: 1 <= k <= |touches| ==> r[k].down && !r[k].moved
  {
    var s := TouchStart(ps, c, touches, dpr, colors);
    forall k | 1 <= k <= |touches|
      ensures TouchMove(s, c, touches, dpr)[k].down && !TouchMove(s, c, touches, dpr)[k].moved
    {
      var t := touches[k - 1];
      DownThenStill(DefaultPointer, c, t.identifier, ScaleByPixelRatio(t.pageX, dpr), ScaleByPixelRatio(t.pageY, dpr), colors[k - 1]);
    }
  }

  // ------------------------------------------------------------ touch end

  /** `pointers.find(p => p.id === id)`: the first slot with that id. */
  function Find(ps: seq<Pointer>, id: int): (r: Option<nat>)
    ensures r.Some? ==> r.value < |ps| && ps[r.value].id == id
    ensures r.Some? ==> forall k :: 0 <= k < r.value ==> ps[k].id != id
    ensures r.None? ==> forall k :: 0 <= k < |ps| ==> ps[k].id != id
  {
    if ps == [] then None
    else if ps[0].id == id then Some(0)
    else match Find(ps[1..], id)
      case None => None
      case Some(k) => Some(k + 1)
  }

  /** The search only looks at ids: pools with the same ids slot by slot
      give the same answer. */
  lemma FindSameIds(a: seq<Pointer>, b: seq<Pointer>, id: int)
    requires |a| == |b| && forall k :: 0 <= k < |a| ==> a[k].id == b[k].id
    ensures Find(a, id) == Find(b, id)
  {
  }

  /** One ended touch: the slot found by its identifier is released, if
      any. */
  function EndOne(ps: seq<Pointer>, t: Touch): (r: seq<Pointer>)
    ensures |r| == |ps| && forall k :: 0 <= k < |ps| ==> r[k].id == ps[k].id
  {
    match Find(ps, t.identifier)
    case None => ps
    case Some(k) => ps[k := PointerUp(ps[k])]
  }

  /** `handleTouchEnd`: each changed touch in turn releases the slot found
      by its identifier. */
  function TouchEnd(ps: seq<Pointer>, touches: seq<Touch>): (r: seq<Pointer>)
    ensures |r| == |ps| && forall k :: 0 <= k < |ps| ==> r[k].id == ps[k].id
    decreases |touches|
  {
    if touches == [] then ps else TouchEnd(EndOne(ps, touches[0]), touches[1..])
  }

  /** Slot `k` is the one some ended touch's identifier finds. */
  ghost predicate Ended(ps: seq<Pointer>, touches: seq<Touch>, k: nat) {
    exists i :: 0 <= i < |touches| && Find(ps, touches[i].identifier) == Some(k)
  }

  /** What `handleTouchEnd` does, all at once: exactly the slots the ended
      touches' identifiers find in the pool are released, and every other
      slot is unchanged. */
  lemma {:induction false} TouchEndReleasesFound(ps: seq<Pointer>, touches: seq<Touch>)
    ensures forall k :: 0 <= k < |ps| ==>
              TouchEnd(ps, touches)[k] == if Ended(ps, touches, k) then PointerUp(ps[k]) else ps[k]
    decreases |touches|
  {
    if touches != [] {
      var t := touches[0];
      var rest := touches[1..];
      var ps1 := EndOne(ps, t);
      TouchEndReleasesFound(ps1, rest);
      forall id | true
        ensures Find(ps1, id) == Find(ps, id)
      {
        FindSameIds(ps1, ps, id);
      }
      forall k | 0 <= k < |ps|
        ensures TouchEnd(ps, touches)[k] == if Ended(ps, touches, k) then PointerUp(ps[k]) else ps[k]
      {
        EndedStep(ps, ps1, touches, k);
      }
    }
  }

  /** An ended set splits into the first touch and the rest, and the rest
      searches a pool with the same ids. */
  lemma EndedStep(ps: seq<Pointer>, ps1: seq<Pointer>, touches: seq<Touch>, k: nat)
    requires touches != [] && 0 <= k < |ps|
    requires ps1 == EndOne(ps, touches[0])
    requires forall id :: Find(ps1, id) == Find(ps, id)
    ensures Ended(ps, touches, k) <==> Find(ps, touches[0].identifier) == Some(k) || Ended(ps1, touches[1..], k)
    ensures ps1[k] == if Find(ps, touches[0].identifier) == Some(k) then PointerUp(ps[k]) else ps[k]
  {
    var rest := touches[1..];
    if Ended(ps, touches, k) && Find(ps, touches[0].identifier) != Some(k) {
      var i :| 0 <= i < |touches| && Find(ps, touches[i].identifier) == Some(k);
      assert rest[i - 1] == touches[i];
      assert Find(ps1, rest[i - 1].identifier) == Some(k);
    }
    if Ended(ps1, rest, k) {
      var i :| 0 <= i < |rest| && Find(ps1, rest[i].identifier) == Some(k);
      assert touches[i + 1] == rest[i];
      assert Find(ps, touches[i + 1].identifier) == Some(k);
    }
    if Find(ps, touches[0].identifier) == Some(k) {
      assert Find(ps, touches[0].identifier) == Some(k) && 0 < |touches|;
    }
  }

  /** Under those conditions the identifier of touch `i` finds slot `i + 1`:
      no earlier slot carries it. */
  lemma FindPressed(s: seq<Pointer>, touches: seq<Touch>, i: nat)
    requires |s| > |touches| > i && s[0].id < 0
    requires forall i :: 0 <= i < |touches| ==> touches[i].identifier >= 0 && s[i + 1].id == touches[i].identifier
    requires forall i, j :: 0 <= i < j < |touches| ==> touches[i].identifier != touches[j].identifier
    ensures Find(s, touches[i].identifier) == Some(i + 1)
  {
    var id := touches[i].identifier;
    forall k | 0 <= k <= i
      ensures s[k].id != id
    {
      if k > 0 {
        assert s[k].id == touches[k - 1].identifier;
      }
    }
    assert s[i + 1].id == id;
  }

  /** Ending touches whose identifiers are distinct and sit, in order, in
      slots 1 to n of a pool whose slot 0 has a negative id, releases
      exactly those slots. */
  lemma EndAfterPress(s: seq<Pointer>, touches: seq<Touch>)
    requires |s| > |touches| && s[0].id < 0
    requires forall i :: 0 <= i < |touches| ==> touches[i].identifier >= 0 && s[i + 1].id == touches[i].identifier
    requires forall i, j :: 0 <= i < j < |touches| ==> touches[i].identifier != touches[j].identifier
    ensures var e := TouchEnd(s, touches);
            && (forall k :: 1 <= k <= |touches| ==> e[k] == PointerUp(s[k]))
            && e[0] == s[0]
            && (forall k :: |touches| < k < |s| ==> e[k] == s[k])
  {
    TouchEndReleasesFound(s, touches);
    forall k | 0 <= k < |s| && (k == 0 || k > |touches|)
      ensures !Ended(s, touches, k)
    {
      forall i | 0 <= i < |touches|
        ensures Find(s, touches[i].identifier) != Some(k)
      {
        FindPressed(s, touches, i);
      }
    }
    forall k | 1 <= k <= |touches|
      ensures Ended(s, touches, k)
    {
      FindPressed(s, touches, k - 1);
    }
  }

  /** Pool `e` is pool `s` with the slots of `touches` released: slot
      `k` of touch `k - 1` is up and keeps that touch's identifier, while
      slot 0 and the slots beyond the touches are untouched. */
  ghost predicate TouchesReleased(s: seq<Pointer>, e: seq<Pointer>, touches: seq<Touch>) {
    && |e| == |s| > |touches|
    && (forall k :: 1 <= k <= |touches| ==> !e[k].down && e[k].id == touches[k - 1].identifier)
    && e[0] == s[0]
    && (forall k :: |touches| < k < |s| ==> e[k] == s[k])
  }

  /** Touches with distinct non-negative identifiers that start and then
      end leave every slot they pressed released; the mouse slot (id -1)
      and the slots beyond them are unchanged. */
  lemma StartThenEnd(ps: seq<Pointer>, c: Canvas, touches: seq<Touch>, dpr: real, colors: seq<Color>)
    requires ValidCanvas(c) && |colors| == |touches|
    requires |ps| > 0 ==> ps[0].id == -1
    requires forall i :: 0 <= i < |touches| ==> touches[i].identifier >= 0
    requires forall i, j :: 0 <= i < j < |touches| ==> touches[i].identifier != touches[j].identifier
    ensures var s := TouchStart(ps, c, touches, dpr, colors);
            TouchesReleased(s, TouchEnd(s, touches), touches)
  {
    var s := TouchStart(ps, c, touches, dpr, colors);
    assert s[0].id == -1;
    EndAfterPress(s, touches);
  }
}
