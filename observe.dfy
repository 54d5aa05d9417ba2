/**
  The one-shot reveal of counters and progress bars (scripts.js, "ANIMATED
  COUNTERS + PROGRESS BARS"). Two intersection observers watch the page's
  counters and bars; the first time a watched element intersects, its
  callback runs and the element is unobserved, so it is handled at most once.
  The counter's number animation is not part of this model.
 */
module Observe {
  import opened Wrappers

  /** A `.progress .bar` element: its `data-width` attribute (None when absent) and its `style.width`. */
  class Bar {
    const dataWidth: Option<string>
    var styleWidth: string

    constructor (dataWidth: Option<string>, styleWidth: string)
      ensures this.dataWidth == dataWidth && this.styleWidth == styleWidth
    {
      this.dataWidth, this.styleWidth := dataWidth, styleWidth;
    }
  }

  /** A `.counter` element, with the `.progress .bar` found inside its parent element, if any. */
  class Counter {
    const siblingBar: Bar?

    constructor (siblingBar: Bar?)
      ensures this.siblingBar == siblingBar
    {
      this.siblingBar := siblingBar;
    }
  }

  /**
    The bar's width after a reveal: `data-width` followed by "%" when the
    attribute is present and non-empty (a truthy string), the old width
    otherwise.
   */
  function RevealedWidth(dataWidth: Option<string>, current: string): string {
    match dataWidth
    case Some(w) => if w != "" then w + "%" else current
    case None => current
  }

  /** Revealing twice gives the width one reveal gives. */
  lemma RevealIdempotent(dataWidth: Option<string>, current: string)
    ensures RevealedWidth(dataWidth, RevealedWidth(dataWidth, current)) == RevealedWidth(dataWidth, current)
  {
  }

  /** Sets the bar's width from its `data-width`, if that is present and non-empty. */
  method Reveal(bar: Bar)
    modifies bar
    ensures bar.styleWidth == RevealedWidth(bar.dataWidth, old(bar.styleWidth))
  {
    if bar.dataWidth.Some? && bar.dataWidth.value != "" {
      bar.styleWidth := bar.dataWidth.value + "%";
    }
  }

  /**
    An intersection observer used one-shot: `watched` is the set of observed
    targets, and the ghost map `handled` counts how often the callback body
    ran for each target ever observed.
   */
  class OneShotObserver<T(==)> {
    var watched: set<T>
    ghost var handled: map<T, nat>

    /** A target is still watched exactly when it was never handled, and none was handled twice. */
    ghost predicate Valid()
      reads this
    {
      && watched <= handled.Keys
      && forall e :: e in handled ==> handled[e] == (if e in watched then 0 else 1)
    }

    /** `targets.forEach(t => observer.observe(t))` at load. */
    constructor (targets: set<T>)
      ensures Valid()
      ensures watched == targets && handled == map e | e in targets :: 0
    {
      watched := targets;
      handled := map e | e in targets :: 0;
    }

    /**
      One entry delivered to the callback. The model assumes that an entry for
      a target no longer observed never reaches the callback, including a later
      entry of the same batch after `unobserve`; a non-intersecting entry
      returns at once. Otherwise the callback body runs (`fired`) and ends with
      `unobserve(el)`.
     */
    method Notify(el: T, isIntersecting: bool) returns (fired: bool)
      requires Valid()
      modifies this
      ensures Valid()
      ensures fired <==> isIntersecting && el in old(watched)
      ensures watched == if fired then old(watched) - {el} else old(watched)
      ensures handled == if fired then old(handled)[el := 1] else old(handled)
      ensures forall e :: e in handled ==> handled[e] <= 1
    {
      fired := isIntersecting && el in watched;
      if fired {
        handled := handled[el := handled[el] + 1];
        watched := watched - {el};
      }
    }
  }

  /** An entry for the counters' observer: on the first intersection the counter's sibling bar is revealed. */
  method OnCounterEntry(obs: OneShotObserver<Counter>, c: Counter, isIntersecting: bool) returns (fired: bool)
    requires obs.Valid()
    modifies obs, c.siblingBar
    ensures obs.Valid()
    ensures fired <==> isIntersecting && c in old(obs.watched)
    ensures obs.watched == if fired then old(obs.watched) - {c} else old(obs.watched)
    ensures c.siblingBar != null ==>
      c.siblingBar.styleWidth == if fired then RevealedWidth(c.siblingBar.dataWidth, old(c.siblingBar.styleWidth))
                                 else old(c.siblingBar.styleWidth)
  {
    fired := obs.Notify(c, isIntersecting);
    if fired && c.siblingBar != null {
      Reveal(c.siblingBar);
    }
  }

  /** An IntersectionObserverEntry: its target and whether it is intersecting. */
  datatype Entry<T> = Entry(target: T, isIntersecting: bool)

  /** The targets of the intersecting entries of a batch. */
  function Intersecting<T>(entries: seq<Entry<T>>): set<T> {
    set i | 0 <= i < |entries| && entries[i].isIntersecting :: entries[i].target
  }

  /** The targets of a batch. */
  function Targets<T>(entries: seq<Entry<T>>): set<T> {
    set i | 0 <= i < |entries| :: entries[i].target
  }

  /**
    The bars' callback: `entries.forEach(...)` over one batch. It watches every
    `.progress .bar`, the counters' sibling bars included.
    Every bar that was watched and has an intersecting entry in the batch is
    revealed once and unobserved; every other bar keeps its width, however
    often it appears.
   */
  method OnBarEntries(obs: OneShotObserver<Bar>, entries: seq<Entry<Bar>>)
    requires obs.Valid()
    modifies obs, Targets(entries)
    ensures obs.Valid()
    ensures obs.watched == old(obs.watched) - Intersecting(entries)
    ensures forall k :: 0 <= k < |entries| ==>
      var b := entries[k].target;
      b.styleWidth == if b in old(obs.watched) && b in Intersecting(entries)
                      then RevealedWidth(b.dataWidth, old(b.styleWidth))
                      else old(b.styleWidth)
  {
    for i := 0 to |entries|
      invariant obs.Valid()
      invariant obs.watched == old(obs.watched) - Intersecting(entries[..i])
      invariant forall k :: 0 <= k < |entries| ==>
        var b := entries[k].target;
        b.styleWidth == if b in old(obs.watched) && b in Intersecting(entries[..i])
                        then RevealedWidth(b.dataWidth, old(b.styleWidth))
                        else old(b.styleWidth)
    {
      assert Intersecting(entries[..i + 1]) == Intersecting(entries[..i]) + (if entries[i].isIntersecting then {entries[i].target} else {});
      var _ := OnBarEntry(obs, entries[i].target, entries[i].isIntersecting);
    }
    assert entries[..|entries|] == entries;
  }

  /** An entry for the bars' observer (every `.progress .bar`): on the first intersection the bar is revealed. */
  method OnBarEntry(obs: OneShotObserver<Bar>, b: Bar, isIntersecting: bool) returns (fired: bool)
    requires obs.Valid()
    modifies obs, b
    ensures obs.Valid()
    ensures fired <==> isIntersecting && b in old(obs.watched)
    ensures obs.watched == if fired then old(obs.watched) - {b} else old(obs.watched)
    ensures b.styleWidth == if fired then RevealedWidth(b.dataWidth, old(b.styleWidth)) else old(b.styleWidth)
  {
    fired := obs.Notify(b, isIntersecting);
    if fired {
      Reveal(b);
    }
  }
}
