# NECarousel, modelled in Dafny

A model of `NECarousel` from `src/index.ts`, a dependency-free touch carousel.
The carousel moves the host element's slides into a sliding pane. It adds
phantom clones at the edges so that a wrap-around looks seamless. It animates
the pane with a CSS transform, and it is driven by touch swipes, clicks on
navigation dots and an optional auto-advance timer.

The model keeps the carousel's state and abstracts the DOM:

- The pane's children are a `seq<Item>`, where `Item = Real(i) | Clone(i)`.
  `Clone(i)` is a copy of slide `i` carrying the `cloned` marker.
- `style.left`, the transform's x offset and `style.width` are integer fields.
- The dots are a `seq<Point>`.
- Measured widths (`clientWidth`) are inputs.
- The timer callbacks are methods the environment calls.

Every pane the carousel builds has the shape `Framed(n, lead, trail)`: `lead`
clones of the last slide, then the real slides `0 .. n-1` in order, then
`trail` clones of slide 0.

| file | module | what it holds |
|---|---|---|
| `wrappers.dfy` | `Wrappers` | `Option` and `Result` |
| `options.dfy` | `Options` | the constructor's validation and defaults (lines 42-49) |
| `strip.dfy` | `Strip` | the pane's child list; `managePhantomCols` as written and corrected; what the viewport shows |
| `scroll.dfy` | `Scroll` | index wrapping and the animation target of `scrollToCurrent` |
| `carousel.dfy` | `Carousel` | the class `NECarousel`: construction, the phantom and transition routines, the event handlers |

The class is imperative, like the source. Its methods assign the fields they
change and say so in `modifies`.

`Valid()` is the invariant that every method keeps between events:

- the pane is framed with at most one clone per edge;
- the left offset hides a leading clone;
- the index names a slide;
- the pane is as wide as the host times its number of children;
- the dots are wired to their slides, and exactly the current dot is active.

`Arranged()` adds that the clones sit exactly where the current slide needs
them, which is the state after a transition has ended.

`ShowsCurrent()` states that the child in the viewport shows the current
slide. It is proved when every slide is as wide as the host (`Uniform()`):

- at rest;
- at the end of every transition started from an arranged pane.

`onResize` sets the pane's width to the host width times the number of
children of the item class. That count includes the clones, because
`cloneNode` copies the class, so the model keeps
`paneWidth == hostWidth * |pane|`.
The clones need this room anyway, because all children float in one row.

## Model

| member | source | states |
|---|---|---|
| Options.Validate | src/index.ts:42-49 | fails, with the item-class error, exactly when the config is missing or its `itemClass` is falsy; otherwise keeps `itemClass` and replaces each falsy optional value by its default (`purePane`, 0.3, 0, none); the result is always normal |
| Options.ValidateRoundTrip | src/index.ts:42-49 | validating normal settings spelled out as a config gives the same settings back |
| Options.ValidateIdempotent | src/index.ts:42-49 | validating the result of a validation changes nothing |
| Strip.Framed | src/index.ts:64-78 | a framed pane has `lead + n + trail` children; child k is a clone of the last slide before the real slides, real slide `k - lead` among them, and a clone of slide 0 after them |
| Strip.IndexOf | src/index.ts:118 | the reference node `insertBefore` uses: a position holding the item, with no earlier occurrence |
| Strip.IndexOfFirstOccurrence | src/index.ts:118 | an occurrence with none before it is the position found |
| Strip.FramedIndexOfFirst | src/index.ts:118 | in a framed pane slide 0 sits right after the leading clones |
| Strip.FramedRealSlides | src/index.ts:64-78 | with the clones taken out, a framed pane is exactly slides 0 .. n-1 in their original order |
| Strip.LeadingEdge | src/index.ts:114-127 | the leading-edge edit as written keeps slide 0 in the pane |
| Strip.TrailingEdge | src/index.ts:128-140 | the trailing-edge edit as written keeps slide 0 in the pane |
| Strip.ManagePhantom | src/index.ts:113-140 | the whole child edit as written keeps slide 0 in the pane |
| Strip.LeadingEdgeFramed | src/index.ts:114-127 | as written, on a framed pane: at slide 0 one more clone of the last slide goes in right before slide 0; past slide 0 one leading clone, if any, is removed; nothing else changes |
| Strip.TrailingEdgeFramed | src/index.ts:128-140 | as written, on a framed pane: at the last slide one more clone of slide 0 is appended; before it one trailing clone, if any, is removed; nothing else changes |
| Strip.ManagePhantomFramed | src/index.ts:113-140 | as written, a framed pane stays framed, with the clone counts given by `LeadAfter` and `TrailAfter` |
| Strip.ManagePhantomKeepsReals | src/index.ts:113-140 | the edit as written never removes, duplicates or reorders a real slide |
| Strip.ManagePhantomOnIndexChange | src/index.ts:113-140 | when the index changed since the last edit, the edit as written arranges the pane for the new slide, with one clone per edge at most |
| Strip.DuplicateLeadingClone | src/index.ts:114-119 | the edit as written, repeated at slide 0 of three slides, adds a second leading clone, and the viewport position of slide 0 then shows a clone of slide 2 |
| Strip.SingleSlideClonesGrow | src/index.ts:114-132 | with one slide, every edit as written adds a clone on both edges |
| Strip.LeadingEdgeOnceFramed | src/index.ts:114-127 | the guarded leading edge leaves exactly one leading clone at slide 0 and none elsewhere |
| Strip.TrailingEdgeOnceFramed | src/index.ts:128-140 | the guarded trailing edge leaves exactly one trailing clone at the last slide and none elsewhere |
| Strip.ManagePhantomOnceFramed | src/index.ts:113-140 | the guarded edit arranges any pane with at most one clone per edge for `current`: one clone of the last slide before slide 0 exactly when `current` is 0, and one clone of slide 0 after the last slide exactly when `current` is the last index |
| Strip.OnceAgreesOnIndexChange | src/index.ts:113-140 | when the index changed since the last edit, the guarded edit and the edit as written agree |
| Scroll.Normalize | src/index.ts:147-153 | the index ends in `[0, n)`; prepend mode exactly when it was below 0, append mode exactly when it was `n` or more; otherwise it is unchanged; a backward wrap lands on `n - 1`, a forward one on 0 |
| Scroll.NormalizeIsModular | src/index.ts:147-153 | for indexes at most one step out of range, the wrap is the index modulo the slide count |
| Scroll.TargetShowsLanding | src/index.ts:160-167 | with uniform widths, the target offset of every wrap mode brings a child showing the landing slide into view, provided a backward wrap starts from a leading clone and a forward wrap from a trailing clone |
| Scroll.RestShowsCurrent | src/index.ts:175-177 | at rest, with uniform widths, the viewport holds a child showing the current slide, whatever the clones |
| Scroll.OverlappingSwipeOvershoots | src/index.ts:160-165 | for any slide count, with or without a leading clone and for any positive width, a forward wrap from a pane without a trailing clone moves the strip past every child, so no child shows the landing slide |
| Carousel.Gather | src/index.ts:64-78 | the loop leaves the real slides in the pane in their original order, and one inactive dot per slide, wired to it, when dots are enabled |
| Carousel.MarkActive | src/index.ts:154-159 | after the dot loop, exactly the dot of `current` is active, and every dot stays wired to its slide |
| Carousel.EditPhantoms | src/index.ts:113-140 | the guarded child edits arrange a pane with at most one clone per edge for `current` |
| Carousel.NECarousel.HoldsAllSlides | src/index.ts:113-140 | in every state the class keeps, the pane holds each real slide exactly once, in the original order |
| Carousel.NECarousel.RestView | src/index.ts:175-177 | at rest, with uniform widths, the current slide is in view |
| Carousel.NECarousel.LandingView | src/index.ts:160-167 | with uniform widths, a transition that wraps only across an existing clone ends on a child showing the new slide |
| Carousel.NECarousel.constructor | src/index.ts:54-91 | the carousel starts arranged at slide 0: one clone of the last slide before slide 0, a trailing clone only when there is a single slide, dot 0 active, the strip at rest showing slide 0, no transition scheduled |
| Carousel.NECarousel.UpdateTranslate | src/index.ts:175-177 | the transform moves the strip to the current slide |
| Carousel.NECarousel.OnResize | src/index.ts:93-111 | the transform snaps to the current slide; a leading clone is pushed out of view by the width of slide 0; the pane is as wide as the host times its children, clones included |
| Carousel.NECarousel.ManagePhantomCols | src/index.ts:113-142 | the pane ends arranged for the current slide: the left offset is minus the width of slide 0 at slide 0 and 0 elsewhere; the strip is at rest; the invariant holds |
| Carousel.NECarousel.ScrollToCurrent | src/index.ts:144-167 | the index is wrapped as `Normalize` says; the target offset follows the wrap mode; only the new slide's dot is active; the transition is on; one more settle is scheduled; with uniform widths, the new slide is in view when the wrap crosses an existing clone |
| Carousel.NECarousel.Settle | src/index.ts:168-172 | the pane is arranged for the current slide, the transition is off, and the strip is at rest; with uniform widths it shows the current slide |
| Carousel.NECarousel.OnTouchStart | src/index.ts:181-184 | records the start x and switches the animation off |
| Carousel.NECarousel.OnTouchMove | src/index.ts:190-193 | the strip is displaced from its rest offset by exactly the distance the finger moved |
| Carousel.NECarousel.OnTouchEnd | src/index.ts:185-189 | a swipe to the right goes back one slide, any other swipe (ties included) forward one, with wrap-around; the target offset is the one the wrap mode gives; with uniform widths, from an arranged pane the new slide ends in view |
| Carousel.NECarousel.OnPointClick | src/index.ts:71-74 | dot k jumps to slide k, whose dot is then the only active one, and the strip lands on slide k |
| Carousel.NECarousel.OnAutoTick | src/index.ts:196-200 | the tick advances one slide, wrapping after the last; the target offset is the one the wrap mode gives; with uniform widths, from an arranged pane the new slide ends in view |
| Carousel.NECarousel.OnWindowResize | src/index.ts:180 | after re-measuring, the invariant and the arrangement hold, and the strip is at rest on the current slide |
| Carousel.Create | src/index.ts:41-52 | fails exactly when validation fails (item-class error) or the host holds no slide; otherwise returns a fresh carousel with the validated settings and the host width, arranged at slide 0 and at rest (offset 0, no transition, nothing pending), showing slide 0 when widths are uniform |

## Left out

- The `HTMLCollection.prototype.toArray` polyfill (lines 15-25) patches a browser type. Collections are sequences here.
- DOM work is abstracted: element creation, class lists, style strings, `cloneNode` and `parseInt` of CSS values. Nodes are `Item`s and `Point`s, and styles are integer fields.
- Layout measurement is not modelled. `clientWidth` values are inputs, and the temporary `auto`/`none` resets of `onResize` (lines 96-102) leave no trace in the model.
- Event-listener registration, `setTimeout`, `setInterval` and the interleaving of overlapping timers are not modelled. The transition-end callback is `Settle`, the timer tick is `OnAutoTick`, and the environment calls them. `pending` counts the scheduled settles.
- `slideSpeed` and `autoInterval` are kept as numbers only. They feed CSS strings and timer delays, which are not modelled. NaN is not modelled.
- Touch coordinates are integers. Fractional `screenX` values are not modelled.
- The global factory on `window` (line 204) and `webpack.config.js` are not part of this model.
- Carousel.NECarousel.ManagePhantomCols and Carousel.EditPhantoms: they follow the corrected edit, which inserts a clone only when that edge has none yet. The edit as written is modelled by Strip.ManagePhantom (see Findings).
- Strip.ManagePhantomKeepsReals: stated for framed panes, the only panes the carousel builds. It is not stated for arbitrary child lists.
- Carousel.NECarousel.OnWindowResize: the number of slides is assumed not to change between measurements.

## Findings

| source | as written | input that shows it | evidently intended | confidence | as-written member | corrected member |
|---|---|---|---|---|---|---|
| src/index.ts:114-119, src/index.ts:128-132 | at slide 0 a clone of the last slide is inserted, and at the last slide a clone of slide 0 is appended, even when that edge already has its clone | three slides at rest on slide 0 (one leading clone); click dot 0; the transition ends, so the pane gets a second leading clone, and the position one slide-width left of the strip's start shows a clone of slide 2 instead of slide 0. With one slide, every settle adds a clone on both edges | at most one clone per edge: insert only when the edge has no clone yet | not executed | Strip.DuplicateLeadingClone | Strip.ManagePhantomOnceFramed |
