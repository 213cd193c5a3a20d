/** The arithmetic of `scrollToCurrent` (src/index.ts, lines 144-167): how an
    index driven one step past either end is wrapped, and which offset the
    pane is animated to. */
module Scroll {
  import opened Strip

  /** How the index was brought back into range: not at all, from -1 to the
      last slide (the source's 'prepend'), or from N to slide 0 ('append'). */
  datatype Wrap = NoWrap | Prepend | Append

  /** Where a transition lands: the wrapped index and how it was wrapped. */
  datatype Landing = Landing(current: int, wrap: Wrap)

  /** Lines 147-153: an index below 0 becomes the last index, one at or past
      the slide count becomes 0, any other is kept. */
  function Normalize(current: int, n: nat): (r: Landing)
    requires n > 0
    ensures 0 <= r.current < n
    ensures r.wrap == Prepend <==> current < 0
    ensures r.wrap == Append <==> current >= n
    ensures r.wrap == NoWrap ==> r.current == current
    ensures r.wrap == Prepend ==> r.current == n - 1
    ensures r.wrap == Append ==> r.current == 0
  {
    if current < 0 then Landing(n - 1, Prepend)
    else if current >= n then Landing(0, Append)
    else Landing(current, NoWrap)
  }

  /** For the indexes the inputs can produce (one step past either end at
      most) the wrap is arithmetic modulo the slide count: the slides form a
      ring. */
  lemma NormalizeIsModular(current: int, n: nat)
    requires n > 0 && -1 <= current <= n
    ensures Normalize(current, n).current == current % n
  {
    if current == -1 {
      assert (n - 1) - current == n;
    } else if current == n {
      assert n % n == 0;
    }
  }

  /** Lines 161-167: the translation the pane is animated to. In 'prepend'
      mode it undoes the pane's left offset, in 'append' mode it moves past
      all n slides, otherwise it moves to slide `current`. */
  function Target(wrap: Wrap, current: int, n: nat, left: int, hostWidth: int): int {
    match wrap
    case Prepend => -left
    case Append => -(n * hostWidth)
    case NoWrap => -(current * hostWidth)
  }

  /** The offset of the strip at rest on slide `current`: the pane's left
      offset (one slide to the left when a clone leads) plus the translation
      set by `updateTranslate` (line 176). */
  function RestOffset(lead: bool, current: int, w: int): int {
    (if lead then -w else 0) + -(current * w)
  }

  /** The seamless wrap. Take a pane arranged with at most one clone per
      edge, every child `w` pixels wide, and an index moved from a slide to
      `raw`. Suppose the move wraps backwards only from a pane with a leading
      clone and forwards only from one with a trailing clone. Then the
      offset `scrollToCurrent` animates to brings a child showing the landing
      slide into the viewport: the real slide, or in a wrap the clone of it
      that stands just outside the real slides. */
  lemma {:induction false} TargetShowsLanding(n: nat, lead: bool, trail: bool, raw: int, w: int)
    requires n > 0 && -1 <= raw <= n
    requires raw < 0 ==> lead
    requires raw >= n ==> trail
    ensures var landing := Normalize(raw, n);
            var left := if lead then -w else 0;
            Shows(Framed(n, Bit(lead), Bit(trail)), left + Target(landing.wrap, landing.current, n, left, w), w, landing.current)
  {
    var pane := Framed(n, Bit(lead), Bit(trail));
    var landing := Normalize(raw, n);
    var left := if lead then -w else 0;
    var offset := left + Target(landing.wrap, landing.current, n, left, w);
    var k: int;
    if raw < 0 {
      k := 0;
      assert offset == 0;
    } else if raw >= n {
      k := Bit(lead) + n;
      assert pane[k] == Clone(0);
      assert offset == -(k * w) by {
        if lead { assert (1 + n) * w == w + n * w; }
      }
    } else {
      k := Bit(lead) + raw;
      assert pane[k] == Real(raw);
      assert offset == -(k * w) by {
        if lead { assert (1 + raw) * w == w + raw * w; }
      }
    }
    assert 0 <= k < |pane| && offset == -(k * w) && pane[k].slide == landing.current;
  }

  /** At rest the strip shows the real slide `current` itself, whatever the
      clones. */
  lemma RestShowsCurrent(n: nat, lead: bool, trail: bool, current: nat, w: int)
    requires current < n
    ensures Shows(Framed(n, Bit(lead), Bit(trail)), RestOffset(lead, current, w), w, current)
  {
    TargetShowsLanding(n, lead, trail, current, w);
  }

  /** Without the trailing clone a forward wrap has nothing to land on:
      whatever the leading clone and the slide count, and for any positive
      slide width, the append offset moves the strip past every child. Two
      swipes before the first transition has ended, from the second-to-last
      slide, reach this state (the overlapping-input case the widget does
      not guard against). */
  lemma OverlappingSwipeOvershoots(n: nat, lead: bool, w: int)
    requires n > 0 && w > 0
    ensures var landing := Normalize(n, n);
            var left := if lead then -w else 0;
            landing.wrap == Append &&
            !Shows(Framed(n, Bit(lead), 0), left + Target(landing.wrap, landing.current, n, left, w), w, landing.current)
  {
    var pane := Framed(n, Bit(lead), 0);
    var left := if lead then -w else 0;
    forall k | 0 <= k < |pane| ensures left + -(n * w) != -(k * w) {
      assert k * w < (n + 1) * w;
      if !lead {
        assert k * w < n * w;
      }
    }
  }
}
