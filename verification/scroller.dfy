/** `BackgroundScroller`: two copies of the background scroll down one pixel
    per update; one that reaches the bottom edge of the view jumps back up to
    sit on top of the other, so the view is always covered. */
module Scroller {
  import opened Base
  import opened Arith

  datatype Scroller = Scroller(top: Rect, bottom: Rect)

  /** The constructor: both backgrounds start at the origin (their surface
      rect), then the top one is lifted by its own height. */
  function NewScroller(width: int, height: int): (s: Scroller)
    ensures s.top == Rect(0, -height, width, height)
    ensures s.bottom == Rect(0, 0, width, height)
  {
    var top := Rect(0, 0, width, height);
    Scroller(top.(y := top.y - top.height), Rect(0, 0, width, height))
  }

  /** One background: down by one; on reaching its own height it is moved so
      that its bottom edge is at 0. */
  function Advance(r: Rect): (r': Rect)
    ensures r' == r.(y := r'.y)
    ensures r'.y == r.y + 1 || (r.y + 1 == r.height && r'.Bottom() == 0)
    ensures r.height > 0 && -r.height <= r.y < r.height ==> -r.height <= r'.y < r.height
  {
    var moved := r.(y := r.y + 1);
    if moved.y == moved.height then moved.(y := 0 - moved.height) else moved
  }

  /** `BackgroundScroller.update`: first the top background, then the bottom
      one; each moves down by one or, on reaching its height, jumps up so
      its bottom edge is at 0. The tiling is kept. */
  function Update(s: Scroller): (r: Scroller)
    ensures r.top == s.top.(y := r.top.y) && r.bottom == s.bottom.(y := r.bottom.y)
    ensures r.top.y == s.top.y + 1 || (s.top.y + 1 == s.top.height && r.top.Bottom() == 0)
    ensures r.bottom.y == s.bottom.y + 1 || (s.bottom.y + 1 == s.bottom.height && r.bottom.Bottom() == 0)
    ensures Tiled(s) ==> Tiled(r)
  {
    Scroller(Advance(s.top), Advance(s.bottom))
  }

  /** Seamless tiling: both backgrounds have the same positive height, both
      lie in [-height, height), and they are exactly one height apart, so one
      ends where the other begins. */
  ghost predicate Tiled(s: Scroller)
  {
    var h := s.top.height;
    && h > 0
    && s.bottom.height == h
    && -h <= s.top.y < h
    && -h <= s.bottom.y < h
    && (s.top.y - s.bottom.y == h || s.bottom.y - s.top.y == h)
  }

  lemma NewScrollerIsTiled(width: int, height: int)
    requires height > 0
    ensures Tiled(NewScroller(width, height))
  {
  }

  /** `n` updates. */
  function Run(s: Scroller, n: nat): Scroller
    decreases n
  {
    if n == 0 then s else Run(Update(s), n - 1)
  }

  /** Where the two backgrounds are `n` updates after the initial placement:
      the top one at `-h + n mod 2h`, the bottom one at `(n + h) mod 2h - h`. */
  function Placement(width: int, height: int, n: nat): Scroller
    requires height > 0
  {
    Scroller(Rect(0, -height + n % (2 * height), width, height),
             Rect(0, (n + height) % (2 * height) - height, width, height))
  }

  /** One update moves the closed form from `n` to `n + 1`. */
  lemma PlacementStep(width: int, height: int, n: nat)
    requires height > 0
    ensures Update(Placement(width, height, n)) == Placement(width, height, n + 1)
  {
    var p := 2 * height;
    var a := n % p;
    var b := (n + height) % p;
    AdvancePhase(width, height, a);
    AdvancePhase(width, height, b);
    ModStep(n, p);
    ModStep(n + height, p);
  }

  /** Closed form of the scroll from the initial placement. */
  lemma {:induction false} RunClosedForm(width: int, height: int, n: nat)
    requires height > 0
    ensures Run(NewScroller(width, height), n) == Placement(width, height, n)
    decreases n
  {
    var s0 := NewScroller(width, height);
    if n == 0 {
      DivModUnique(0, 2 * height, 0, 0);
      DivModUnique(height, 2 * height, 0, height);
    } else {
      RunClosedForm(width, height, n - 1);
      RunSplit(s0, n - 1);
      PlacementStep(width, height, n - 1);
    }
  }

  /** One update of a background at phase `a` of the period `2 * height`. */
  lemma AdvancePhase(width: int, height: int, a: int)
    requires height > 0 && 0 <= a < 2 * height
    ensures Advance(Rect(0, -height + a, width, height))
            == Rect(0, -height + (if a + 1 == 2 * height then 0 else a + 1), width, height)
  {
  }

  /** Running `n + 1` updates is `n` updates followed by one more. */
  lemma {:induction false} RunSplit(s: Scroller, n: nat)
    ensures Run(s, n + 1) == Update(Run(s, n))
    decreases n
  {
    if n > 0 {
      RunSplit(Update(s), n - 1);
    }
  }

  lemma ModStep(k: nat, p: int)
    requires p > 0
    ensures (k + 1) % p == (if k % p + 1 == p then 0 else k % p + 1)
  {
    var q := k / p;
    var r := k % p;
    assert k == q * p + r;
    if r + 1 == p {
      DivModUnique(k + 1, p, q + 1, 0);
    } else {
      DivModUnique(k + 1, p, q, r + 1);
    }
  }

  /** The scroll is periodic: after two heights' worth of updates both
      backgrounds are back where they started. */
  lemma Periodic(width: int, height: int)
    requires height > 0
    ensures Run(NewScroller(width, height), 2 * height) == NewScroller(width, height)
  {
    RunClosedForm(width, height, 2 * height);
    DivModUnique(2 * height, 2 * height, 1, 0);
    DivModUnique(3 * height, 2 * height, 1, height);
  }
}
