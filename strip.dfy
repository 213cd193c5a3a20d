/** The pane's child list: the real slides, in the order the host held them,
    with phantom clones of the last slide before them and of the first slide
    after them (src/index.ts, `managePhantomCols`, lines 113-142). */
module Strip {

  /** A child of the pane: a real slide, named by its position in the host's
      original order, or a copy of one that carries the `cloned` marker. */
  datatype Item = Real(slide: nat) | Clone(slide: nat)

  function Bit(b: bool): nat {
    if b then 1 else 0
  }

  /** The slides 0 .. n-1 in their original order. */
  function Reals(n: nat): (r: seq<Item>)
    ensures |r| == n
    ensures forall i | 0 <= i < n :: r[i] == Real(i)
  {
    if n == 0 then [] else Reals(n - 1) + [Real(n - 1)]
  }

  /** k copies of one item. */
  function Copies(x: Item, k: nat): (r: seq<Item>)
    ensures |r| == k
    ensures forall i | 0 <= i < k :: r[i] == x
  {
    if k == 0 then [] else Copies(x, k - 1) + [x]
  }

  /** The item at position k of a pane with `lead` leading clones. */
  function Placed(n: nat, lead: nat, k: int): Item
    requires n > 0
  {
    if k < lead then Clone(n - 1) else if k < lead + n then Real(k - lead) else Clone(0)
  }

  /** A pane of n slides with `lead` clones of the last slide before them and
      `trail` clones of the first slide after them. Every pane the widget
      builds has this shape. */
  function Framed(n: nat, lead: nat, trail: nat): (r: seq<Item>)
    requires n > 0
    ensures |r| == lead + n + trail
    ensures forall k | 0 <= k < |r| :: r[k] == Placed(n, lead, k)
    ensures Real(0) in r
  {
    assert Placed(n, lead, lead) == Real(0);
    seq(lead + n + trail, k requires 0 <= k < lead + n + trail => Placed(n, lead, k))
  }

  /** A framed pane is its leading clones, then the real slides, then its
      trailing clones. */
  lemma FramedSplit(n: nat, lead: nat, trail: nat)
    requires n > 0
    ensures Framed(n, lead, trail) == Copies(Clone(n - 1), lead) + Reals(n) + Copies(Clone(0), trail)
  {
  }

  /** Without clones a framed pane is the real slides alone. */
  lemma FramedBare(n: nat)
    requires n > 0
    ensures Framed(n, 0, 0) == Reals(n)
  {
    assert forall k | 0 <= k < n :: Framed(n, 0, 0)[k] == Reals(n)[k];
  }

  /** The position of the first occurrence of x, as `insertBefore` finds its
      reference node. */
  function IndexOf(s: seq<Item>, x: Item): (k: nat)
    requires x in s
    ensures k < |s| && s[k] == x
    ensures x !in s[..k]
  {
    if s[0] == x then 0
    else
      var k := IndexOf(s[1..], x);
      assert s[..k + 1] == [s[0]] + s[1..][..k];
      k + 1
  }

  /** The real slides of a pane, in pane order: what remains once the
      clones are taken out. */
  function RealSlides(s: seq<Item>): (r: seq<Item>)
    ensures |r| <= |s|
  {
    if s == [] then [] else RealPart(s[0]) + RealSlides(s[1..])
  }

  /** The real slides of one child. */
  function RealPart(x: Item): seq<Item> {
    if x.Real? then [x] else []
  }

  lemma {:induction false} RealSlidesConcat(a: seq<Item>, b: seq<Item>)
    ensures RealSlides(a + b) == RealSlides(a) + RealSlides(b)
  {
    if a == [] {
      assert a + b == b;
    } else {
      var ab := a + b;
      assert ab[0] == a[0];
      assert ab[1..] == a[1..] + b;
      RealSlidesConcat(a[1..], b);
      assert RealSlides(ab) == RealPart(a[0]) + RealSlides(a[1..] + b);
    }
  }

  lemma {:induction false} CopiesOfCloneHaveNoReals(i: nat, k: nat)
    ensures RealSlides(Copies(Clone(i), k)) == []
  {
    if k > 0 {
      CopiesOfCloneHaveNoReals(i, k - 1);
      RealSlidesConcat(Copies(Clone(i), k - 1), [Clone(i)]);
    }
  }

  lemma {:induction false} RealsAreReal(n: nat)
    ensures RealSlides(Reals(n)) == Reals(n)
  {
    if n > 0 {
      RealsAreReal(n - 1);
      RealSlidesConcat(Reals(n - 1), [Real(n - 1)]);
    }
  }

  /** A framed pane holds exactly the real slides 0 .. n-1, in their original
      order, whatever clones surround them. */
  lemma FramedRealSlides(n: nat, lead: nat, trail: nat)
    requires n > 0
    ensures RealSlides(Framed(n, lead, trail)) == Reals(n)
  {
    var a, b := Copies(Clone(n - 1), lead), Copies(Clone(0), trail);
    FramedSplit(n, lead, trail);
    RealSlidesConcat(a + Reals(n), b);
    RealSlidesConcat(a, Reals(n));
    CopiesOfCloneHaveNoReals(n - 1, lead);
    CopiesOfCloneHaveNoReals(0, trail);
    RealsAreReal(n);
  }

  /** Inserting x before position k. */
  function InsertAt(s: seq<Item>, k: nat, x: Item): (r: seq<Item>)
    requires k <= |s|
    ensures |r| == |s| + 1 && r[k] == x
  {
    s[..k] + [x] + s[k..]
  }

  // ---------------------------------------------------------------------
  // `managePhantomCols` as written (lines 113-140)
  // ---------------------------------------------------------------------

  /** The leading edge, lines 114-127: at slide 0 a clone of the last slide
      goes in before slide 0, unconditionally; past slide 0 the first child
      is dropped if it is a clone. */
  function LeadingEdge(pane: seq<Item>, current: int, n: nat): (r: seq<Item>)
    requires n > 0 && Real(0) in pane
    ensures Real(0) in r
  {
    if current == 0 then
      InsertAt(pane, IndexOf(pane, Real(0)), Clone(n - 1))
    else if current > 0 && pane[0].Clone? then
      assert pane == [pane[0]] + pane[1..];
      pane[1..]
    else
      pane
  }

  /** The trailing edge, lines 128-140: at the last slide a clone of slide 0
      is appended, unconditionally; before it the last child is dropped if
      it is a clone. */
  function TrailingEdge(pane: seq<Item>, current: int, n: nat): (r: seq<Item>)
    requires n > 0 && Real(0) in pane
    ensures Real(0) in r
  {
    if current == n - 1 then
      pane + [Clone(0)]
    else if current < n - 1 && pane[|pane| - 1].Clone? then
      assert pane == pane[..|pane| - 1] + [pane[|pane| - 1]];
      pane[..|pane| - 1]
    else
      pane
  }

  /** The pane edit of `managePhantomCols`, as the source writes it. */
  function ManagePhantom(pane: seq<Item>, current: int, n: nat): (r: seq<Item>)
    requires n > 0 && Real(0) in pane
    ensures Real(0) in r
  {
    TrailingEdge(LeadingEdge(pane, current, n), current, n)
  }

  /** IndexOf finds the first occurrence: an occurrence at j with none
      before it is the one found. */
  lemma {:induction false} IndexOfFirstOccurrence(s: seq<Item>, x: Item, j: nat)
    requires j < |s| && s[j] == x
    requires forall i | 0 <= i < j :: s[i] != x
    ensures IndexOf(s, x) == j
  {
    if s[0] != x {
      IndexOfFirstOccurrence(s[1..], x, j - 1);
    }
  }

  /** In a framed pane slide 0 sits right after the leading clones. */
  lemma FramedIndexOfFirst(n: nat, lead: nat, trail: nat)
    requires n > 0
    ensures Real(0) in Framed(n, lead, trail)
    ensures IndexOf(Framed(n, lead, trail), Real(0)) == lead
  {
    var f := Framed(n, lead, trail);
    assert f[lead] == Real(0);
    IndexOfFirstOccurrence(f, Real(0), lead);
  }

  /** Leading clones after the edit at `current`, as written. */
  function LeadAfter(lead: nat, current: int): nat {
    if current == 0 then lead + 1 else if current > 0 && lead > 0 then lead - 1 else lead
  }

  /** Trailing clones after the edit at `current`, as written. */
  function TrailAfter(trail: nat, current: int, n: nat): nat {
    if current == n - 1 then trail + 1 else if current < n - 1 && trail > 0 then trail - 1 else trail
  }

  /** The leading edge as written, on a framed pane: at slide 0 one more
      clone of the last slide goes in right before slide 0; past slide 0 one
      leading clone, if there is one, is dropped. */
  lemma {:induction false} LeadingEdgeFramed(n: nat, lead: nat, trail: nat, current: int)
    requires n > 0
    ensures LeadingEdge(Framed(n, lead, trail), current, n) == Framed(n, LeadAfter(lead, current), trail)
  {
    var f := Framed(n, lead, trail);
    FramedIndexOfFirst(n, lead, trail);
    var p := LeadingEdge(f, current, n);
    var q := Framed(n, LeadAfter(lead, current), trail);
    assert |p| == |q|;
    forall k | 0 <= k < |p| ensures p[k] == q[k] {
      if current == 0 {
        if k > lead { assert p[k] == f[k - 1]; }
      } else if current > 0 && lead > 0 {
        assert p[k] == f[k + 1];
      }
    }
  }

  /** The trailing edge as written, on a framed pane: at the last slide one
      more clone of slide 0 is appended; before it one trailing clone, if
      there is one, is dropped. */
  lemma {:induction false} TrailingEdgeFramed(n: nat, lead: nat, trail: nat, current: int)
    requires n > 0
    ensures TrailingEdge(Framed(n, lead, trail), current, n) == Framed(n, lead, TrailAfter(trail, current, n))
  {
    var q := Framed(n, lead, trail);
    FramedIndexOfFirst(n, lead, trail);
    var r := TrailingEdge(q, current, n);
    var g := Framed(n, lead, TrailAfter(trail, current, n));
    assert |r| == |g|;
    forall k | 0 <= k < |r| ensures r[k] == g[k] {
      if current == n - 1 && k < |q| {
        assert r[k] == q[k];
      }
    }
  }

  /** The whole edit as written, on a framed pane. */
  lemma ManagePhantomFramed(n: nat, lead: nat, trail: nat, current: int)
    requires n > 0
    ensures ManagePhantom(Framed(n, lead, trail), current, n)
         == Framed(n, LeadAfter(lead, current), TrailAfter(trail, current, n))
  {
    LeadingEdgeFramed(n, lead, trail, current);
    TrailingEdgeFramed(n, LeadAfter(lead, current), trail, current);
  }

  /** Neither edge ever removes or reorders a real slide: after the edit the
      pane still holds exactly slides 0 .. n-1 in their original order. */
  lemma ManagePhantomKeepsReals(n: nat, lead: nat, trail: nat, current: int)
    requires n > 0
    ensures RealSlides(ManagePhantom(Framed(n, lead, trail), current, n)) == Reals(n)
  {
    ManagePhantomFramed(n, lead, trail, current);
    FramedRealSlides(n, LeadAfter(lead, current), TrailAfter(trail, current, n));
  }

  /** When every settle follows a change of index, the edit as written keeps
      at most one clone on each edge: a pane arranged for slide s and edited
      for another slide c ends up arranged for c. */
  lemma ManagePhantomOnIndexChange(n: nat, s: nat, c: nat)
    requires s < n && c < n && s != c
    ensures ManagePhantom(Framed(n, Bit(s == 0), Bit(s == n - 1)), c, n)
         == Framed(n, Bit(c == 0), Bit(c == n - 1))
  {
    ManagePhantomFramed(n, Bit(s == 0), Bit(s == n - 1), c);
  }

  /** The edit as written, repeated for the slide it was already arranged
      for (a click on the active dot at slide 0), adds a second leading
      clone; and in the pane that results the position one slide-width left
      of the strip's start, where slide 0 is supposed to sit, shows a clone
      of slide 2 instead (three slides, 100 pixels each). */
  lemma DuplicateLeadingClone()
    ensures ManagePhantom(Framed(3, 1, 0), 0, 3) == Framed(3, 2, 0)
    ensures !Shows(Framed(3, 2, 0), -100, 100, 0)
  {
    ManagePhantomFramed(3, 1, 0, 0);
    var f := Framed(3, 2, 0);
    forall k | 0 <= k < |f| && -100 == -(k * 100) ensures f[k].slide != 0 {
      assert k == 1;
    }
  }

  /** With a single slide both edges gain a clone on every edit as written. */
  lemma SingleSlideClonesGrow(lead: nat, trail: nat)
    ensures ManagePhantom(Framed(1, lead, trail), 0, 1) == Framed(1, lead + 1, trail + 1)
  {
    ManagePhantomFramed(1, lead, trail, 0);
  }

  // ---------------------------------------------------------------------
  // `managePhantomCols` with at most one phantom per edge
  // ---------------------------------------------------------------------

  /** The leading edge with the intended guard: a clone goes in before
      slide 0 only when the first child is not a clone already. */
  function LeadingEdgeOnce(pane: seq<Item>, current: int, n: nat): (r: seq<Item>)
    requires n > 0 && Real(0) in pane
    ensures Real(0) in r
  {
    if current == 0 && !pane[0].Clone? then LeadingEdge(pane, current, n)
    else if current == 0 then pane
    else LeadingEdge(pane, current, n)
  }

  /** The trailing edge with the intended guard: a clone of slide 0 is
      appended only when the last child is not a clone already. */
  function TrailingEdgeOnce(pane: seq<Item>, current: int, n: nat): (r: seq<Item>)
    requires n > 0 && Real(0) in pane
    ensures Real(0) in r
  {
    if current == n - 1 && pane[|pane| - 1].Clone? then pane
    else TrailingEdge(pane, current, n)
  }

  /** The pane edit of `managePhantomCols` with at most one phantom per edge. */
  function ManagePhantomOnce(pane: seq<Item>, current: int, n: nat): (r: seq<Item>)
    requires n > 0 && Real(0) in pane
    ensures Real(0) in r
  {
    TrailingEdgeOnce(LeadingEdgeOnce(pane, current, n), current, n)
  }

  lemma LeadingEdgeOnceFramed(n: nat, lead: bool, trail: nat, current: nat)
    requires current < n
    ensures LeadingEdgeOnce(Framed(n, Bit(lead), trail), current, n) == Framed(n, Bit(current == 0), trail)
  {
    FramedIndexOfFirst(n, Bit(lead), trail);
    if !(current == 0 && lead) {
      LeadingEdgeFramed(n, Bit(lead), trail, current);
    }
  }

  lemma TrailingEdgeOnceFramed(n: nat, lead: nat, trail: bool, current: nat)
    requires current < n
    ensures TrailingEdgeOnce(Framed(n, lead, Bit(trail)), current, n) == Framed(n, lead, Bit(current == n - 1))
  {
    var q := Framed(n, lead, Bit(trail));
    FramedIndexOfFirst(n, lead, Bit(trail));
    if current == n - 1 && trail {
      assert q[|q| - 1] == Clone(0);
    } else {
      TrailingEdgeFramed(n, lead, Bit(trail), current);
    }
  }

  /** The corrected edit from any pane with at most one clone per edge
      arranges the pane for `current`: one clone of the last slide before
      slide 0 exactly when current is 0, one clone of slide 0 after the last
      slide exactly when current is the last index, the real slides in order
      between them, and nothing else. */
  lemma ManagePhantomOnceFramed(n: nat, lead: bool, trail: bool, current: nat)
    requires current < n
    ensures ManagePhantomOnce(Framed(n, Bit(lead), Bit(trail)), current, n)
         == Framed(n, Bit(current == 0), Bit(current == n - 1))
  {
    LeadingEdgeOnceFramed(n, lead, Bit(trail), current);
    TrailingEdgeOnceFramed(n, Bit(current == 0), trail, current);
  }

  /** The fix changes nothing when the index did change since the last
      edit: on those runs the source's edit and the corrected one agree. */
  lemma OnceAgreesOnIndexChange(n: nat, s: nat, c: nat)
    requires s < n && c < n && s != c
    ensures ManagePhantomOnce(Framed(n, Bit(s == 0), Bit(s == n - 1)), c, n)
         == ManagePhantom(Framed(n, Bit(s == 0), Bit(s == n - 1)), c, n)
  {
    ManagePhantomOnceFramed(n, s == 0, s == n - 1, c);
    ManagePhantomOnIndexChange(n, s, c);
  }

  // ---------------------------------------------------------------------
  // What the viewport shows
  // ---------------------------------------------------------------------

  /** With every child `w` pixels wide and floated left, a strip displaced by
      `offset` pixels (its `left` plus its translation) puts some child k
      exactly in the viewport, and that child shows slide `slide`. */
  ghost predicate Shows(pane: seq<Item>, offset: int, w: int, slide: int) {
    exists k | 0 <= k < |pane| :: offset == -(k * w) && pane[k].slide == slide
  }
}
