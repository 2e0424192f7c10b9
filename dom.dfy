/**
 * The host document as the controller sees it. An element is an identity with a mutable class
 * string and inline style, and with the attributes, geometry and authored animation name the
 * host reports for it; `scrollTop`, heights and query results are supplied per call.
 */
module Dom {
  import opened Wrappers

  class Element {
    /** `el.className`. */
    var className: string
    /** The inline style, property name to the string last assigned. */
    var style: map<string, string>
    /** `data-wow-duration`, `data-wow-delay`, `data-wow-iteration`; "" when absent or empty. */
    const duration: string
    const delay: string
    const iteration: string
    /** `data-wow-offset`, already parsed; `None` when absent or empty. */
    const offsetAttr: Option<int>
    /** The animation name the element's style sheets give it, as the host computes it. */
    const authoredAnimation: string
    /** Layout: `offsetTop`, `offsetParent` and `clientHeight`. */
    const offsetTop: int
    const offsetParent: Element?
    const clientHeight: int
    /** Length of the `offsetParent` chain above this element. */
    ghost const depth: nat

    constructor (className: string, duration: string, delay: string, iteration: string,
                 offsetAttr: Option<int>, authoredAnimation: string,
                 offsetTop: int, offsetParent: Element?, clientHeight: int)
      ensures this.className == className && style == map[]
      ensures this.duration == duration && this.delay == delay && this.iteration == iteration
      ensures this.offsetAttr == offsetAttr && this.authoredAnimation == authoredAnimation
      ensures this.offsetTop == offsetTop && this.offsetParent == offsetParent
      ensures this.clientHeight == clientHeight
      ensures depth == if offsetParent == null then 0 else offsetParent.depth + 1
    {
      this.className := className;
      this.style := map[];
      this.duration, this.delay, this.iteration := duration, delay, iteration;
      this.offsetAttr, this.authoredAnimation := offsetAttr, authoredAnimation;
      this.offsetTop, this.offsetParent, this.clientHeight := offsetTop, offsetParent, clientHeight;
      this.depth := if offsetParent == null then 0 else offsetParent.depth + 1;
    }
  }

  /** The `offsetParent` chain above `e` is finite: every step goes to a shallower element. */
  ghost predicate Rooted(e: Element)
    decreases e.depth
  {
    e.offsetParent != null ==> e.offsetParent.depth < e.depth && Rooted(e.offsetParent)
  }

  /** The document-relative top of `e`: the sum of `offsetTop` over `e` and its `offsetParent` chain. */
  function ChainTop(e: Element): int
    requires Rooted(e)
    decreases e.depth
  {
    e.offsetTop + if e.offsetParent == null then 0 else ChainTop(e.offsetParent)
  }

  /** What the host reports about the viewport at the moment of a visibility test. */
  datatype Viewport = Viewport(
    containerScrollTop: int, // `scrollTop` of the configured scroll container
    pageYOffset: int,        // `window.pageYOffset`
    rootClientHeight: int,   // `document.documentElement.clientHeight`
    innerHeight: int)        // the window's inner height

  /**
   * A node reported by a mutation batch: its `nodeType` and, when it has a parent node, the
   * elements carrying the box class under that parent, in document order.
   */
  datatype AddedNode = AddedNode(nodeType: int, parentMatches: Option<seq<Element>>)
}
