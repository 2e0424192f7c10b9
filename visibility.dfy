/**
 * The viewport probe of js/wow.js: `offsetTop` (an accumulating walk up the `offsetParent`
 * chain) and `isVisible` (the intersection test against the scroll position).
 */
module Visibility {
  import opened Wrappers
  import opened Dom

  /** `WOW.prototype.offsetTop`: walks the `offsetParent` chain, summing `offsetTop`. */
  method OffsetTop(el: Element) returns (top: int)
    requires Rooted(el)
    ensures top == ChainTop(el)
  {
    top := el.offsetTop;
    var cur := el.offsetParent;
    while cur != null
      invariant cur != null ==> Rooted(cur)
      invariant top + (if cur == null then 0 else ChainTop(cur)) == ChainTop(el)
      decreases if cur == null then 0 else cur.depth + 1
    {
      top := top + cur.offsetTop;
      cur := cur.offsetParent;
    }
  }

  function Min(a: int, b: int): int {
    if a <= b then a else b
  }

  /**
   * The scroll position: the container's `scrollTop` when a container is configured and its
   * `scrollTop` is truthy (non-zero), otherwise `window.pageYOffset`.
   */
  function ScrollTop(hasContainer: bool, view: Viewport): (r: int)
    ensures hasContainer && view.containerScrollTop != 0 ==> r == view.containerScrollTop
    ensures !hasContainer || view.containerScrollTop == 0 ==> r == view.pageYOffset
  {
    if hasContainer && view.containerScrollTop != 0 then view.containerScrollTop else view.pageYOffset
  }

  /** The offset of `el`: its `data-wow-offset` when present and non-empty, else the configured one. */
  function EffectiveOffset(el: Element, configOffset: int): int {
    match el.offsetAttr
    case Some(o) => o
    case None => configOffset
  }

  /** The intersection test for a given offset. */
  predicate VisibleWith(el: Element, offset: int, hasContainer: bool, view: Viewport)
    requires Rooted(el)
  {
    var scrollTop := ScrollTop(hasContainer, view);
    var viewBottom := scrollTop + Min(view.rootClientHeight, view.innerHeight) - offset;
    var elTop := ChainTop(el);
    viewBottom >= elTop && elTop + el.clientHeight >= scrollTop
  }

  /** `WOW.prototype.isVisible`. */
  predicate IsVisible(el: Element, configOffset: int, hasContainer: bool, view: Viewport)
    requires Rooted(el)
  {
    VisibleWith(el, EffectiveOffset(el, configOffset), hasContainer, view)
  }

  /** `isVisible` as the source evaluates it, through the `offsetTop` walk. */
  method CheckVisible(el: Element, configOffset: int, hasContainer: bool, view: Viewport) returns (visible: bool)
    requires Rooted(el)
    ensures visible <==> IsVisible(el, configOffset, hasContainer, view)
  {
    var offset := match el.offsetAttr case Some(o) => o case None => configOffset;
    var scrollTop := if hasContainer && view.containerScrollTop != 0 then view.containerScrollTop else view.pageYOffset;
    var viewBottom := scrollTop + Min(view.rootClientHeight, view.innerHeight) - offset;
    var elTop := OffsetTop(el);
    var elBottom := elTop + el.clientHeight;
    visible := viewBottom >= elTop && elBottom >= scrollTop;
  }

  /** Raising the offset never turns an invisible element visible. */
  lemma LargerOffsetNeverReveals(el: Element, small: int, large: int, hasContainer: bool, view: Viewport)
    requires Rooted(el) && small <= large
    ensures VisibleWith(el, large, hasContainer, view) ==> VisibleWith(el, small, hasContainer, view)
  {
  }

  /** A `data-wow-offset` makes the configured offset irrelevant for that element. */
  lemma AttributeOverridesConfig(el: Element, c1: int, c2: int, hasContainer: bool, view: Viewport)
    requires Rooted(el) && el.offsetAttr.Some?
    ensures IsVisible(el, c1, hasContainer, view) == IsVisible(el, c2, hasContainer, view)
  {
  }

  /**
   * A visible element stays visible while the scroll position `isVisible` uses does not decrease,
   * until its bottom edge passes that position. With a container this is not the same as the
   * container scrolling down: see `ContainerLeavingZeroCanHide`.
   */
  lemma ScrollingDownKeepsVisible(el: Element, offset: int, hasContainer: bool, v1: Viewport, v2: Viewport)
    requires Rooted(el)
    requires v1.rootClientHeight == v2.rootClientHeight && v1.innerHeight == v2.innerHeight
    requires ScrollTop(hasContainer, v1) <= ScrollTop(hasContainer, v2)
    requires VisibleWith(el, offset, hasContainer, v1)
    requires ChainTop(el) + el.clientHeight >= ScrollTop(hasContainer, v2)
    ensures VisibleWith(el, offset, hasContainer, v2)
  {
  }

  /**
   * The `||` fallback breaks monotonicity in the container's own `scrollTop`: when the container
   * leaves 0 while `window.pageYOffset` is larger, the scroll position `isVisible` uses drops to the
   * container's, and an element visible a moment ago that has not been scrolled past stays visible
   * exactly when its top is still above the lowered view bottom.
   */
  lemma ContainerLeavingZeroCanHide(el: Element, offset: int, v1: Viewport, v2: Viewport)
    requires Rooted(el)
    requires v1.rootClientHeight == v2.rootClientHeight && v1.innerHeight == v2.innerHeight
    requires v1.containerScrollTop == 0 && 0 < v2.containerScrollTop < v1.pageYOffset
    requires VisibleWith(el, offset, true, v1)
    requires ChainTop(el) + el.clientHeight >= v2.containerScrollTop
    ensures ScrollTop(true, v2) < ScrollTop(true, v1)
    ensures VisibleWith(el, offset, true, v2)
            <==> ChainTop(el) <= v2.containerScrollTop + Min(v2.rootClientHeight, v2.innerHeight) - offset
  {
  }

  /**
   * A concrete instance of `ContainerLeavingZeroCanHide`: an element at 1100 with height 100,
   * a page scrolled to 1000 in a 500-high window, is visible while the container sits at 0 and
   * hidden once the container scrolls to 5, although its bottom edge (1200) is far below 5.
   */
  method ContainerQuirkExample() returns (visibleAtZero: bool, visibleAtFive: bool)
    ensures visibleAtZero && !visibleAtFive
  {
    var el := new Element("wow", "", "", "", None, "", 1100, null, 100);
    visibleAtZero := CheckVisible(el, 0, true, Viewport(0, 1000, 500, 500));
    visibleAtFive := CheckVisible(el, 0, true, Viewport(5, 1000, 500, 500));
  }

  /** An element whose bottom edge is above the scroll top is not visible. */
  lemma PassedElementIsNotVisible(el: Element, configOffset: int, hasContainer: bool, view: Viewport)
    requires Rooted(el)
    requires ChainTop(el) + el.clientHeight < ScrollTop(hasContainer, view)
    ensures !IsVisible(el, configOffset, hasContainer, view)
  {
  }

  /** A container scrolled to the very top reads as `window.pageYOffset`. */
  lemma ZeroContainerScrollFallsBack(el: Element, configOffset: int, view: Viewport)
    requires Rooted(el) && view.containerScrollTop == 0
    ensures IsVisible(el, configOffset, true, view) == IsVisible(el, configOffset, false, view)
  {
  }
}
