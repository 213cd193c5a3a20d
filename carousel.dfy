/** The carousel controller `NECarousel` (src/index.ts, lines 27-202): its
    state, construction, the phantom-column and transition routines, and the
    handlers for touch, dot clicks, the auto-advance timer, the end of a
    transition and window resizes. Layout measurements (`clientWidth`) are
    inputs, and the timer callbacks are methods the environment calls. */
module Carousel {
  import opened Wrappers
  import opened Options
  import opened Strip
  import opened Scroll

  /** A navigation dot: the slide its click handler jumps to (the index the
      closure on line 71 captured) and whether it carries `active`. */
  datatype Point = Point(target: nat, active: bool)

  /** The dots of a host with `count` slides: dot k jumps to slide k, and
      only the dot of slide `active` carries `active` (none when `active`
      names no slide). */
  function Dots(count: nat, active: int): (r: seq<Point>)
    ensures |r| == count
  {
    seq(count, k requires 0 <= k < count => Point(k, k == active))
  }

  class NECarousel {
    /** The validated configuration (lines 45-49). */
    const settings: Settings

    /** `clientWidth` of each real slide, in the host's original order. */
    var widths: seq<nat>
    /** `clientWidth` of the host element. */
    var hostWidth: nat

    /** The pane's children, in order. */
    var pane: seq<Item>
    /** `pane.style.left`, in pixels. */
    var left: int
    /** The x of `pane.style.transform`, in pixels. */
    var translate: int
    /** Whether `pane.style.transition` animates the transform (otherwise 'none'). */
    var transitionOn: bool
    /** `pane.style.width`, in pixels. */
    var paneWidth: int
    /** `pointsItems`: one dot per slide when dots are enabled, none otherwise. */
    var points: seq<Point>
    var current: int
    var touchStartX: int
    var touchEndX: int
    /** Transition-end callbacks scheduled by `setTimeout` and not yet run. */
    var pending: nat

    /** Whether one clone of the last slide precedes slide 0 in the pane. */
    ghost var lead: bool
    /** Whether one clone of slide 0 follows the last slide in the pane. */
    ghost var trail: bool

    /** The pane's shape: the real slides in order, at most one clone on
        each edge. */
    ghost predicate Shape()
      reads this
    {
      |widths| > 0 &&
      pane == Framed(|widths|, Bit(lead), Bit(trail))
    }

    /** One dot per slide when `pointsClass` is given, none otherwise. */
    function DotCount(): nat
      reads this
    {
      if settings.pointsClass.Some? then |widths| else 0
    }

    ghost predicate Framing()
      reads this
    {
      Shape() && left == (if lead then -(widths[0] as int) else 0)
    }

    /** The state between events: the left offset hides a leading clone,
        the index is a slide, the pane is as wide as the host times its
        children, and the dots are wired to their slides with exactly the
        current dot active. */
    ghost predicate Valid()
      reads this
    {
      Framing() &&
      0 <= current < |widths| &&
      paneWidth == hostWidth * |pane| &&
      points == Dots(DotCount(), current)
    }

    /** The phantoms are arranged for the current slide, as after a
        transition has ended. */
    ghost predicate Arranged()
      reads this
    {
      Valid() && lead == (current == 0) && trail == (current == |widths| - 1)
    }

    /** Every slide is exactly as wide as the host (the layout the widget is
        built for). */
    ghost predicate Uniform()
      reads this
    {
      forall i | 0 <= i < |widths| :: widths[i] == hostWidth
    }

    /** The child in the viewport shows the current slide. */
    ghost predicate ShowsCurrent()
      reads this
    {
      Shows(pane, left + translate, hostWidth, current)
    }

    /** In every state of the pane's shape, which every method keeps, the
        pane holds each real slide exactly once, in the host's original
        order: the phantom edits never lose, duplicate or reorder a slide. */
    lemma HoldsAllSlides()
      requires Shape()
      ensures RealSlides(pane) == Reals(|widths|)
    {
      FramedRealSlides(|widths|, Bit(lead), Bit(trail));
    }

    /** At rest, with uniform slides, the current slide is in view. */
    lemma RestView()
      requires Framing() && 0 <= current < |widths| && Uniform() && translate == -(current * hostWidth)
      ensures ShowsCurrent()
    {
      RestShowsCurrent(|widths|, lead, trail, current, hostWidth);
    }

    /** With uniform slides, a transition from index `raw` that wraps
        backwards only past a leading clone and forwards only past a
        trailing clone ends on a child showing the landing slide. */
    lemma LandingView(raw: int)
      requires Framing() && Uniform()
      requires -1 <= raw <= |widths| && (raw < 0 ==> lead) && (raw >= |widths| ==> trail)
      requires var landing := Normalize(raw, |widths|);
               current == landing.current &&
               translate == Target(landing.wrap, current, |widths|, left, hostWidth)
      ensures ShowsCurrent()
    {
      TargetShowsLanding(|widths|, lead, trail, raw, hostWidth);
    }

    /** Construction after validation, and `initialize` (lines 54-91): the
        slides move into the pane in their original order, one inactive dot
        per slide is created and dot 0 is marked active, then the phantom
        columns are set up for slide 0. */
    constructor (settings: Settings, widths: seq<nat>, hostWidth: nat)
      requires |widths| > 0
      ensures this.settings == settings && this.widths == widths && this.hostWidth == hostWidth
      ensures Arranged() && current == 0 && translate == 0 && pending == 0 && !transitionOn
      ensures touchStartX == 0 && touchEndX == 0
      ensures Uniform() ==> ShowsCurrent()
    {
      this.settings := settings;
      this.widths := widths;
      this.hostWidth := hostWidth;
      var items, dots := Gather(|widths|, settings.pointsClass.Some?);
      if settings.pointsClass.Some? {
        dots := dots[0 := dots[0].(active := true)];
        assert dots == Dots(|widths|, 0);
      }
      pane := items;
      points := dots;
      current := 0;
      left := 0;
      translate := 0;
      transitionOn := false;
      paneWidth := 0;
      touchStartX := 0;
      touchEndX := 0;
      pending := 0;
      lead := false;
      trail := false;
      new;
      ManagePhantomCols();
      if Uniform() {
        RestView();
      }
    }

    /** `updateTranslate` (lines 175-177): the transform of the pane at rest
        on the current slide. */
    method UpdateTranslate()
      modifies this`translate
      ensures translate == -(current * hostWidth)
    {
      translate := -(current * hostWidth);
    }

    /** The offset and width arithmetic of `onResize` (lines 93-111): the
        transform snaps to the current slide, a leading clone is pushed out
        of view by the width of slide 0, and the pane is as wide as the host
        times the number of children, clones included. */
    method OnResize()
      requires Shape() && (lead || left == 0)
      modifies this`translate, this`left, this`paneWidth
      ensures Framing()
      ensures translate == -(current * hostWidth)
      ensures left == (if lead then -(widths[0] as int) else old(left))
      ensures paneWidth == hostWidth * |pane|
    {
      UpdateTranslate();
      if pane[0].Clone? {
        left := -(widths[0] as int);
      }
      paneWidth := hostWidth * |pane|;
    }

    /** `managePhantomCols` (lines 113-142) with at most one phantom per
        edge: at slide 0 a clone of the last slide goes in before slide 0
        unless one is there, and the pane moves left by the width of slide 0;
        past slide 0 a leading clone is removed and the left offset reset;
        at the last slide a clone of slide 0 is appended unless one is
        there; before it a trailing clone is removed. */
    method ManagePhantomCols()
      requires Framing() && 0 <= current < |widths|
      modifies this`pane, this`left, this`translate, this`paneWidth, this`lead, this`trail
      ensures Framing() && paneWidth == hostWidth * |pane|
      ensures lead == (current == 0) && trail == (current == |widths| - 1)
      ensures pane == Framed(|widths|, Bit(current == 0), Bit(current == |widths| - 1))
      ensures left == (if current == 0 then -(widths[0] as int) else 0)
      ensures translate == -(current * hostWidth)
    {
      var n := |widths|;
      assert pane[0].Clone? <==> lead;
      var p := EditPhantoms(pane, current, n, lead, trail);
      if current == 0 {
        left := -(widths[0] as int);
      } else if pane[0].Clone? {
        left := 0;
      }
      pane := p;
      lead := current == 0;
      trail := current == n - 1;
      OnResize();
    }

    /** `scrollToCurrent` (lines 144-167): the index is wrapped into range,
        exactly the dot of the new index is active, the transition is
        switched on, the pane is animated to the offset of the wrap mode and
        a transition-end callback is scheduled. When a backward wrap starts
        from a pane with a leading clone and a forward wrap from one with a
        trailing clone, the animation ends on a child showing the new
        slide. `shown` is the slide whose dot is active on entry. */
    method ScrollToCurrent(ghost shown: int)
      requires Framing() && paneWidth == hostWidth * |pane| && points == Dots(DotCount(), shown)
      modifies this`current, this`points, this`transitionOn, this`translate, this`pending
      ensures var landing := Normalize(old(current), |widths|);
              current == landing.current &&
              translate == Target(landing.wrap, current, |widths|, left, hostWidth)
      ensures Valid() && transitionOn && pending == old(pending) + 1
      ensures (-1 <= old(current) <= |widths| && (old(current) < 0 ==> lead) &&
               (old(current) >= |widths| ==> trail) && Uniform()) ==> ShowsCurrent()
    {
      var n := |widths|;
      ghost var raw := current;
      var wrap := NoWrap;
      if current < 0 {
        current := n - 1;
        wrap := Prepend;
      } else if current >= n {
        current := 0;
        wrap := Append;
      }
      if settings.pointsClass.Some? {
        points := MarkActive(points, shown, current);
      }
      transitionOn := true;
      if wrap == Prepend {
        translate := -left;
      } else if wrap == Append {
        translate := -(n * hostWidth);
      } else {
        translate := -(current * hostWidth);
      }
      pending := pending + 1;
      if -1 <= raw <= n && (raw < 0 ==> lead) && (raw >= n ==> trail) && Uniform() {
        LandingView(raw);
      }
    }

    /** The transition-end callback (lines 168-172): the phantoms are
        rearranged for the current slide, the transition is switched off
        and the pane snaps to the current slide, which is then in view. */
    method Settle()
      requires Valid() && pending > 0
      modifies this`pane, this`left, this`translate, this`paneWidth, this`lead, this`trail,
               this`transitionOn, this`pending
      ensures Arranged() && !transitionOn && pending == old(pending) - 1
      ensures translate == -(current * hostWidth)
      ensures Uniform() ==> ShowsCurrent()
    {
      pending := pending - 1;
      ManagePhantomCols();
      transitionOn := false;
      UpdateTranslate();
      if Uniform() {
        RestView();
      }
    }

    /** The touchstart handler (lines 181-184): the start x is recorded and
        the animation switched off, so that the pane follows the finger. */
    method OnTouchStart(screenX: int)
      requires Valid()
      modifies this`touchStartX, this`transitionOn
      ensures Valid() && touchStartX == screenX && !transitionOn
    {
      touchStartX := screenX;
      transitionOn := false;
    }

    /** The touchmove handler (lines 190-193): the pane is displaced from its
        resting offset by exactly the distance the finger has moved. */
    method OnTouchMove(screenX: int)
      requires Valid()
      modifies this`touchEndX, this`translate
      ensures Valid() && touchEndX == screenX
      ensures translate - -(current * hostWidth) == screenX - touchStartX
    {
      touchEndX := screenX;
      translate := -current * hostWidth + touchEndX - touchStartX;
    }

    /** The touchend handler (lines 185-189): a swipe to the right (end x
        greater than start x) goes back one slide, any other swipe forward
        one, wrapping at the ends. From a pane at rest the transition lands
        on a child showing the new slide. */
    method OnTouchEnd(screenX: int)
      requires Valid()
      modifies this`touchEndX, this`current, this`points, this`transitionOn, this`translate, this`pending
      ensures touchEndX == screenX
      ensures var landing := Normalize(old(current) + (if old(touchStartX) < screenX then -1 else 1), |widths|);
              current == landing.current &&
              translate == Target(landing.wrap, current, |widths|, left, hostWidth)
      ensures Valid() && transitionOn && pending == old(pending) + 1
      ensures old(Arranged()) && Uniform() ==> ShowsCurrent()
    {
      touchEndX := screenX;
      ghost var shown := current;
      current := current + (if touchStartX < touchEndX then -1 else 1);
      ScrollToCurrent(shown);
    }

    /** A dot's click handler (lines 71-74): dot k jumps to slide k, which
        is then the only active dot; the animation lands on slide k itself. */
    method OnPointClick(k: nat)
      requires Valid() && k < |points|
      modifies this`current, this`points, this`transitionOn, this`translate, this`pending
      ensures current == k
      ensures Valid() && transitionOn && pending == old(pending) + 1
      ensures translate == -(k * hostWidth)
      ensures Uniform() ==> ShowsCurrent()
    {
      ghost var shown := current;
      current := points[k].target;
      ScrollToCurrent(shown);
    }

    /** The auto-advance tick (lines 197-200), run only when `autoInterval`
        is non-zero: forward one slide, wrapping after the last. */
    method OnAutoTick()
      requires Valid() && settings.autoInterval != 0.0
      modifies this`current, this`points, this`transitionOn, this`translate, this`pending
      ensures var landing := Normalize(old(current) + 1, |widths|);
              current == landing.current &&
              translate == Target(landing.wrap, current, |widths|, left, hostWidth)
      ensures Valid() && transitionOn && pending == old(pending) + 1
      ensures old(Arranged()) && Uniform() ==> ShowsCurrent()
    {
      ghost var shown := current;
      current := current + 1;
      ScrollToCurrent(shown);
    }

    /** The window resize handler (line 180) after the browser has laid the
        page out anew: the slides are re-measured and `onResize` runs. */
    method OnWindowResize(newWidths: seq<nat>, newHostWidth: nat)
      requires Valid() && |newWidths| == |widths|
      modifies this`widths, this`hostWidth, this`translate, this`left, this`paneWidth
      ensures widths == newWidths && hostWidth == newHostWidth
      ensures Valid() && (old(Arranged()) ==> Arranged())
      ensures translate == -(current * hostWidth) && paneWidth == hostWidth * |pane|
      ensures Uniform() ==> ShowsCurrent()
    {
      widths := newWidths;
      hostWidth := newHostWidth;
      OnResize();
      if Uniform() {
        RestView();
      }
    }
  }

  /** The loop of `initialize` (lines 64-78): slide n moves into the pane
      after slides 0 .. n-1, and when dots are enabled dot n, wired to slide
      n, is appended to the dots. The pane ends up holding the real slides
      in their original order, without clones. */
  method Gather(count: nat, withDots: bool) returns (items: seq<Item>, dots: seq<Point>)
    ensures count > 0 ==> items == Framed(count, 0, 0)
    ensures dots == Dots(if withDots then count else 0, -1)
  {
    items := [];
    dots := [];
    for n := 0 to count
      invariant items == Reals(n)
      invariant dots == Dots(if withDots then n else 0, -1)
    {
      items := items + [Real(n)];
      if withDots {
        dots := dots + [Point(n, false)];
      }
    }
    if count > 0 {
      FramedBare(count);
    }
  }

  /** The dot update of `scrollToCurrent` (lines 154-159): `active` is
      removed from every dot, then added to the dot of slide `current`. */
  method MarkActive(points: seq<Point>, ghost shown: int, current: nat) returns (dots: seq<Point>)
    requires current < |points| && points == Dots(|points|, shown)
    ensures dots == Dots(|points|, current)
  {
    dots := points;
    for i := 0 to |dots|
      invariant |dots| == |points|
      invariant forall k | 0 <= k < |dots| :: dots[k] == Point(k, i <= k && k == shown)
    {
      dots := dots[i := dots[i].(active := false)];
    }
    dots := dots[current := dots[current].(active := true)];
  }

  /** The child edits of `managePhantomCols` (lines 113-140), one phantom
      per edge at most: at slide 0 a clone of the last slide is inserted
      before slide 0 unless the first child is a clone, past slide 0 a
      leading clone is removed; at the last slide a clone of slide 0 is
      appended unless the last child is a clone, before it a trailing clone
      is removed. The edits are those of `ManagePhantomOnce`, so from any
      pane with at most one clone per edge they arrange the pane for
      `current`. */
  method EditPhantoms(pane: seq<Item>, current: int, n: nat, ghost lead: bool, ghost trail: bool)
    returns (p: seq<Item>)
    requires 0 <= current < n && pane == Framed(n, Bit(lead), Bit(trail))
    ensures p == Framed(n, Bit(current == 0), Bit(current == n - 1))
  {
    assert pane[Bit(lead)] == Real(0);
    p := pane;
    if current == 0 {
      if !p[0].Clone? {
        var k := IndexOf(p, Real(0));
        p := p[..k] + [Clone(n - 1)] + p[k..];
      }
    } else if current > 0 && p[0].Clone? {
      p := p[1..];
    }
    ghost var middle := p;
    assert middle == LeadingEdgeOnce(pane, current, n);
    if current == n - 1 {
      if !p[|p| - 1].Clone? {
        p := p + [Clone(0)];
      }
    } else if current < n - 1 && p[|p| - 1].Clone? {
      p := p[..|p| - 1];
    }
    assert p == ManagePhantomOnce(pane, current, n);
    ManagePhantomOnceFramed(n, lead, trail, current);
  }

  /** `new NECarousel(element, config)` (lines 41-52): the constructor throws
      when the config is missing or names no item class, and (as a
      TypeError) when the host holds no slide; otherwise the carousel is
      built from the validated settings and is at rest on slide 0. */
  method Create(config: Option<Config>, widths: seq<nat>, hostWidth: nat)
    returns (r: Result<NECarousel, CarouselError>)
    ensures r.Failure? <==> Validate(config).Failure? || |widths| == 0
    ensures r.Failure? ==> r.error == (if Validate(config).Failure? then ItemClassNotSpecified else NoSlides)
    ensures r.Success? ==> fresh(r.value) && r.value.Arranged() && r.value.current == 0
    ensures r.Success? ==> r.value.settings == Validate(config).value && r.value.widths == widths
    ensures r.Success? ==> r.value.hostWidth == hostWidth && r.value.translate == 0 &&
                           !r.value.transitionOn && r.value.pending == 0
    ensures r.Success? ==> (r.value.Uniform() ==> r.value.ShowsCurrent())
  {
    var v := Validate(config);
    if v.Failure? {
      return Failure(v.error);
    }
    if |widths| == 0 {
      return Failure(NoSlides);
    }
    var c := new NECarousel(v.value, widths, hostWidth);
    return Success(c);
  }
}
