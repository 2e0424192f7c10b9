/**
 * The `WOW` controller of js/wow.js: the pending (`boxes`) and seen (`all`) lists, the
 * `scrolled`/`stopped` flags, the sampling timer, and the reveal protocol applied to boxes.
 * Host callbacks (the interval, scroll and resize events, mutation batches) are explicit calls.
 */
module Controller {
  import opened Wrappers
  import opened Seqs
  import opened Strings
  import opened Util
  import opened WeakMapPolyfill
  import opened Dom
  import opened Visibility
  import opened Reveal
  import opened Tracking

  /** The merged configuration, with `callback` and `scrollContainer` reduced to whether they are set. */
  datatype Config = Config(
    boxClass: string,
    animateClass: string,
    offset: int,
    mobile: bool,
    live: bool,
    hasCallback: bool,
    hasScrollContainer: bool)

  /** JavaScript truthiness of an option value. */
  predicate Truthy(v: Value) {
    match v
    case Undefined => false
    case Null => false
    case Bool(b) => b
    case Num(n) => n != 0
    case Str(s) => s != ""
    case Ref(_) => true
  }

  /**
   * The configuration a merged options object gives the controller, when its string and number
   * options have those types. `mobile` and `live` are read for truthiness, `callback` and
   * `scrollContainer` for being set.
   */
  function ConfigOf(m: map<string, Value>): Option<Config> {
    if "boxClass" in m && m["boxClass"].Str? && "animateClass" in m && m["animateClass"].Str?
       && "offset" in m && m["offset"].Num?
    then
      Some(Config(m["boxClass"].s, m["animateClass"].s, m["offset"].n,
                  "mobile" in m && Truthy(m["mobile"]), "live" in m && Truthy(m["live"]),
                  !IsNullish(m, "callback"), !IsNullish(m, "scrollContainer")))
    else None
  }

  /** An option the caller left nullish takes its default; any other keeps the caller's value. */
  function Chosen(options: map<string, Value>, key: string, default: Value): Value {
    if IsNullish(options, key) then default else options[key]
  }

  /**
   * The constructor's merge: with the defaults filled in, every option the controller reads is
   * present, each one the caller left nullish takes its default, and the others keep the
   * caller's value.
   */
  lemma MergedOptionsConfig(options: map<string, Value>)
    requires !IsNullish(options, "boxClass") ==> options["boxClass"].Str?
    requires !IsNullish(options, "animateClass") ==> options["animateClass"].Str?
    requires !IsNullish(options, "offset") ==> options["offset"].Num?
    ensures var c := ConfigOf(Merged(options, DefaultOptions()));
            && c.Some?
            && c.value.boxClass == Chosen(options, "boxClass", Str("wow")).s
            && c.value.animateClass == Chosen(options, "animateClass", Str("animated")).s
            && c.value.offset == Chosen(options, "offset", Num(0)).n
            && c.value.mobile == Truthy(Chosen(options, "mobile", Bool(true)))
            && c.value.live == Truthy(Chosen(options, "live", Bool(true)))
            && c.value.hasCallback == !IsNullish(options, "callback")
            && c.value.hasScrollContainer == !IsNullish(options, "scrollContainer")
  {
    var m := Merged(options, DefaultOptions());
    var d := DefaultOptions();
    forall k | k in d
      ensures k in m && m[k] == Chosen(options, k, d[k])
    {
      if IsNullish(options, k) {
        MergedFillsNullish(options, d, k);
      } else {
        MergedKeepsSupplied(options, d, k);
      }
    }
  }

  /** With no options given, the controller runs on the documented defaults. */
  lemma DefaultConfig()
    ensures ConfigOf(Merged(map[], DefaultOptions())) == Some(Config("wow", "animated", 0, true, true, false, false))
  {
    MergedOptionsConfig(map[]);
  }

  /** What `show` does outside the element: the callback, the custom event, the end-of-animation listeners. */
  datatype Effect =
    | Callback(box: Element)
    | Emit(box: Element, eventType: string)
    | Listen(box: Element, eventType: string)

  /** The effects of one `show`, in the order the source performs them. */
  function ShowEffects(config: Config, box: Element): seq<Effect> {
    (if config.hasCallback then [Callback(box)] else [])
      + [Emit(box, config.boxClass)]
      + Listeners(box, AnimationEndEvents)
  }

  /** One end-of-animation listener on `box` per event type, in order. */
  function Listeners(box: Element, events: seq<string>): seq<Effect> {
    if events == [] then []
    else Listeners(box, events[..|events| - 1]) + [Listen(box, events[|events| - 1])]
  }

  lemma ListenersOfFour(box: Element, events: seq<string>)
    requires |events| == 4
    ensures Listeners(box, events) ==
      [Listen(box, events[0]), Listen(box, events[1]), Listen(box, events[2]), Listen(box, events[3])]
  {
    assert events[..1][..0] == [];
    assert Listeners(box, events[..1]) == [Listen(box, events[0])];
    assert events[..2][..1] == events[..1];
    assert Listeners(box, events[..2]) == [Listen(box, events[0]), Listen(box, events[1])];
    assert events[..3][..2] == events[..2];
    assert Listeners(box, events[..3]) == [Listen(box, events[0]), Listen(box, events[1]), Listen(box, events[2])];
    assert events[..4] == events;
  }

  lemma {:induction false} ListenersEmitNothing(box: Element, events: seq<string>)
    ensures Emitted(Listeners(box, events)) == []
  {
    if events != [] {
      var init := events[..|events| - 1];
      ListenersEmitNothing(box, init);
      EmittedConcat(Listeners(box, init), [Listen(box, events[|events| - 1])]);
      EmittedOne(Listen(box, events[|events| - 1]));
    }
  }

  /** The effects of showing `shown`, one box after another. */
  function EffectsOf(config: Config, shown: seq<Element>): seq<Effect> {
    if shown == [] then [] else EffectsOf(config, shown[..|shown| - 1]) + ShowEffects(config, shown[|shown| - 1])
  }

  lemma {:induction false} EffectsOfConcat(config: Config, a: seq<Element>, b: seq<Element>)
    ensures EffectsOf(config, a + b) == EffectsOf(config, a) + EffectsOf(config, b)
  {
    if b == [] {
      assert a + b == a;
    } else {
      var b', last := b[..|b| - 1], b[|b| - 1];
      assert (a + b)[..|a + b| - 1] == a + b';
      assert (a + b)[|a + b| - 1] == last;
      calc {
        EffectsOf(config, a + b);
        EffectsOf(config, a + b') + ShowEffects(config, last);
        { EffectsOfConcat(config, a, b'); }
        EffectsOf(config, a) + EffectsOf(config, b') + ShowEffects(config, last);
        EffectsOf(config, a) + (EffectsOf(config, b') + ShowEffects(config, last));
      }
    }
  }

  lemma EffectsOfSnoc(config: Config, shown: seq<Element>, box: Element)
    ensures EffectsOf(config, shown + [box]) == EffectsOf(config, shown) + ShowEffects(config, box)
  {
    assert (shown + [box])[..|shown|] == shown;
  }

  /** The boxes the custom event was dispatched on, in dispatch order. */
  function Emitted(effects: seq<Effect>): seq<Element> {
    if effects == [] then []
    else Emitted(effects[..|effects| - 1]) + if effects[|effects| - 1].Emit? then [effects[|effects| - 1].box] else []
  }

  lemma {:induction false} EmittedConcat(a: seq<Effect>, b: seq<Effect>)
    ensures Emitted(a + b) == Emitted(a) + Emitted(b)
  {
    if b == [] {
      assert a + b == a;
    } else {
      var b', last := b[..|b| - 1], b[|b| - 1];
      assert (a + b)[..|a + b| - 1] == a + b';
      assert (a + b)[|a + b| - 1] == last;
      EmittedConcat(a, b');
    }
  }

  lemma EmittedOne(e: Effect)
    ensures Emitted([e]) == if e.Emit? then [e.box] else []
  {
    assert [e][..0] == [];
  }

  /** One `show` dispatches the custom event exactly once, on the box shown. */
  lemma ShowEffectsEmitOnce(config: Config, shown: Element)
    ensures Emitted(ShowEffects(config, shown)) == [shown]
  {
    var cb: seq<Effect> := if config.hasCallback then [Callback(shown)] else [];
    var ev := Emit(shown, config.boxClass);
    var ls := Listeners(shown, AnimationEndEvents);
    EmittedConcat(cb + [ev], ls);
    EmittedConcat(cb, [ev]);
    EmittedOne(ev);
    ListenersEmitNothing(shown, AnimationEndEvents);
    if config.hasCallback {
      EmittedOne(Callback(shown));
    }
  }

  /** Showing a list of boxes dispatches the custom event on exactly those boxes, in that order. */
  lemma {:induction false} EmittedIsShown(config: Config, shown: seq<Element>)
    ensures Emitted(EffectsOf(config, shown)) == shown
  {
    if shown != [] {
      var init, last := shown[..|shown| - 1], shown[|shown| - 1];
      EmittedIsShown(config, init);
      EmittedConcat(EffectsOf(config, init), ShowEffects(config, last));
      ShowEffectsEmitOnce(config, last);
      assert shown == init + [last];
    }
  }

  /** The test `scrollCallback` applies to a pending box. */
  predicate Reveals(config: Config, view: Viewport, box: Element)
    requires Rooted(box)
  {
    IsVisible(box, config.offset, config.hasScrollContainer, view)
  }

  ghost predicate AllRooted(s: seq<Element>) {
    forall b :: b in s ==> Rooted(b)
  }

  /** The pending boxes a tick keeps: those not visible, in their original order. */
  ghost function Kept(config: Config, view: Viewport, boxes: seq<Element>): seq<Element>
    requires AllRooted(boxes)
  {
    if boxes == [] then []
    else
      var init, b := boxes[..|boxes| - 1], boxes[|boxes| - 1];
      assert forall x :: x in init ==> x in boxes;
      Kept(config, view, init) + if Reveals(config, view, b) then [] else [b]
  }

  /** The pending boxes a tick shows: those visible, in their original order. */
  ghost function Shown(config: Config, view: Viewport, boxes: seq<Element>): seq<Element>
    requires AllRooted(boxes)
  {
    if boxes == [] then []
    else
      var init, b := boxes[..|boxes| - 1], boxes[|boxes| - 1];
      assert forall x :: x in init ==> x in boxes;
      Shown(config, view, init) + if Reveals(config, view, b) then [b] else []
  }

  lemma KeptShownSnoc(config: Config, view: Viewport, boxes: seq<Element>, b: Element)
    requires AllRooted(boxes) && Rooted(b)
    ensures AllRooted(boxes + [b])
    ensures Kept(config, view, boxes + [b]) == Kept(config, view, boxes) + if Reveals(config, view, b) then [] else [b]
    ensures Shown(config, view, boxes + [b]) == Shown(config, view, boxes) + if Reveals(config, view, b) then [b] else []
  {
    assert (boxes + [b])[..|boxes|] == boxes;
  }

  /** One box of the sampling loop moves the kept and shown lists from `boxes[..i]` to `boxes[..i + 1]`. */
  lemma SampleStep(config: Config, view: Viewport, boxes: seq<Element>, i: int,
                   kept: seq<Element>, shown: seq<Element>, visible: bool)
    requires 0 <= i < |boxes| && AllRooted(boxes)
    requires kept == Kept(config, view, boxes[..i]) && shown == Shown(config, view, boxes[..i])
    requires visible == Reveals(config, view, boxes[i])
    ensures (if visible then kept else kept + [boxes[i]]) == Kept(config, view, boxes[..i + 1])
    ensures (if visible then shown + [boxes[i]] else shown) == Shown(config, view, boxes[..i + 1])
  {
    assert boxes[..i + 1] == boxes[..i] + [boxes[i]];
    KeptShownSnoc(config, view, boxes[..i], boxes[i]);
  }

  /** A box is kept iff it is pending and not visible, and shown iff it is pending and visible. */
  lemma {:induction false} KeptShownMembers(config: Config, view: Viewport, boxes: seq<Element>, x: Element)
    requires AllRooted(boxes)
    ensures x in Kept(config, view, boxes) <==> x in boxes && !Reveals(config, view, x)
    ensures x in Shown(config, view, boxes) <==> x in boxes && Reveals(config, view, x)
  {
    if boxes != [] {
      var init := boxes[..|boxes| - 1];
      assert boxes == init + [boxes[|boxes| - 1]];
      KeptShownMembers(config, view, init, x);
    }
  }

  /** What a tick keeps and what it shows come from the pending boxes and never overlap. */
  lemma KeptShownSplit(config: Config, view: Viewport, boxes: seq<Element>)
    requires AllRooted(boxes) && Distinct(boxes)
    ensures Distinct(Kept(config, view, boxes)) && Distinct(Shown(config, view, boxes))
    ensures forall x :: x in Kept(config, view, boxes) ==> x in boxes && x !in Shown(config, view, boxes)
    ensures forall x :: x in Shown(config, view, boxes) ==> x in boxes
  {
    forall x: Element {
      KeptShownMembers(config, view, boxes, x);
    }
    KeptShownDistinct(config, view, boxes);
  }

  /** A tick splits the pending boxes: what it keeps and what it shows together make up the old list. */
  lemma {:induction false} KeptShownPartition(config: Config, view: Viewport, boxes: seq<Element>)
    requires AllRooted(boxes)
    ensures multiset(Kept(config, view, boxes)) + multiset(Shown(config, view, boxes)) == multiset(boxes)
  {
    if boxes != [] {
      var init := boxes[..|boxes| - 1];
      assert boxes == init + [boxes[|boxes| - 1]];
      KeptShownPartition(config, view, init);
    }
  }

  /** Keeping and showing preserve the absence of duplicates. */
  lemma {:induction false} KeptShownDistinct(config: Config, view: Viewport, boxes: seq<Element>)
    requires AllRooted(boxes) && Distinct(boxes)
    ensures Distinct(Kept(config, view, boxes)) && Distinct(Shown(config, view, boxes))
  {
    if boxes != [] {
      var init, b := boxes[..|boxes| - 1], boxes[|boxes| - 1];
      assert forall x :: x in init ==> x in boxes;
      DistinctInit(boxes);
      KeptShownDistinct(config, view, init);
      KeptShownMembers(config, view, init, b);
      if Reveals(config, view, b) {
        assert Shown(config, view, boxes) == Shown(config, view, init) + [b];
        assert Kept(config, view, boxes) == Kept(config, view, init);
        DistinctSnoc(Shown(config, view, init), b);
      } else {
        assert Kept(config, view, boxes) == Kept(config, view, init) + [b];
        assert Shown(config, view, boxes) == Shown(config, view, init);
        DistinctSnoc(Kept(config, view, init), b);
      }
    }
  }

  /**
   * The bookkeeping of the tracking lists: no duplicates, the pending boxes and the boxes
   * revealed since `start` are disjoint parts of the seen boxes.
   */
  ghost predicate Tracked(all: seq<Element>, boxes: seq<Element>, revealed: seq<Element>) {
    && Distinct(all) && Distinct(boxes) && Distinct(revealed)
    && (forall b :: b in boxes ==> b in all)
    && (forall b :: b in revealed ==> b in all && b !in boxes)
    && AllRooted(all) && AllRooted(boxes)
  }

  /** A tick keeps the bookkeeping: the shown boxes move from the pending list to the revealed one. */
  lemma TickKeepsTracked(config: Config, view: Viewport, all: seq<Element>, boxes: seq<Element>, revealed: seq<Element>)
    requires Tracked(all, boxes, revealed)
    ensures Tracked(all, Kept(config, view, boxes), revealed + Shown(config, view, boxes))
  {
    KeptShownSplit(config, view, boxes);
    DistinctConcat(revealed, Shown(config, view, boxes));
  }

  /** Ingesting the new boxes of a scope keeps the bookkeeping: they join both the tracked and the pending list. */
  lemma IngestKeepsTracked(all: seq<Element>, boxes: seq<Element>, revealed: seq<Element>, scope: seq<Element>)
    requires Tracked(all, boxes, revealed) && AllRooted(scope)
    ensures Tracked(all + NewBoxes(all, scope), boxes + NewBoxes(all, scope), revealed)
  {
    var added := NewBoxes(all, scope);
    forall x
      ensures x in added <==> x in scope && x !in all
    {
      NewBoxesMembers(all, scope, x);
    }
    NewBoxesDistinct(all, scope);
    DistinctConcat(all, added);
    DistinctConcat(boxes, added);
  }

  /** Appending the effects of the boxes shown by a tick keeps the trace in step with the revealed list. */
  lemma TickKeepsTrace(config: Config, base: seq<Effect>, before: seq<Effect>, after: seq<Effect>,
                       revealed: seq<Element>, shown: seq<Element>)
    requires before == base + EffectsOf(config, revealed)
    requires after == before + EffectsOf(config, shown)
    ensures after == base + EffectsOf(config, revealed + shown)
  {
    EffectsOfConcat(config, revealed, shown);
  }

  /** One box of the sampling loop: its effects, if any, extend the trace of the boxes shown so far. */
  lemma TraceStep(config: Config, t0: seq<Effect>, before: seq<Effect>, after: seq<Effect>,
                  shown: seq<Element>, box: Element, visible: bool)
    requires before == t0 + EffectsOf(config, shown)
    requires after == before + if visible then ShowEffects(config, box) else []
    ensures after == t0 + EffectsOf(config, shown + if visible then [box] else [])
  {
    if visible {
      EffectsOfSnoc(config, shown, box);
      AppendAssoc(t0, EffectsOf(config, shown), ShowEffects(config, box));
    } else {
      assert shown + [] == shown;
    }
  }

  /** The inline style of a box after the initial hide. */
  function HiddenStyle(style: map<string, string>, box: Element): map<string, string> {
    Styled(style, true, box.duration, box.delay, box.iteration, "none")
  }

  /** The inline style of a box after `show`, given the animation name found in the cache. */
  function ShownStyle(style: map<string, string>, box: Element, name: string): map<string, string> {
    Styled(style, false, box.duration, box.delay, box.iteration, name)
  }

  /** What `show` writes as the animation name: the cached one, or `undefined` converted to text. */
  function CachedText(cache: map<Element, string>, box: Element): string {
    if box in cache then cache[box] else "undefined"
  }

  /** What the initial hide caches for each box of `list`. */
  ghost function NamesOf(list: seq<Element>): map<Element, string> {
    map b | b in list :: NormalizedName(b.authoredAnimation)
  }

  /** Recording the name of one more box extends the recorded names by that box. */
  lemma NamesOfSnoc(cache: map<Element, string>, list: seq<Element>, x: Element)
    ensures (cache + NamesOf(list))[x := NormalizedName(x.authoredAnimation)] == cache + NamesOf(list + [x])
  {
  }

  /** Scope of `doSync`: the boxes under the node's parent when the node is an element, else none. */
  function Scope(node: AddedNode): seq<Element> {
    if node.nodeType == 1 then
      match node.parentMatches
      case Some(matches) => matches
      case None => []
    else []
  }

  /** The scopes of a run of added nodes, concatenated in order. */
  function Scopes(nodes: seq<AddedNode>): seq<Element> {
    if nodes == [] then [] else Scopes(nodes[..|nodes| - 1]) + Scope(nodes[|nodes| - 1])
  }

  /** One more node extends the concatenated scopes by its own scope. */
  lemma ScopesStep(nodes: seq<AddedNode>, i: int)
    requires 0 <= i < |nodes|
    ensures Scopes(nodes[..i + 1]) == Scopes(nodes[..i]) + Scope(nodes[i])
  {
    assert nodes[..i + 1][..i] == nodes[..i];
  }


  /**
   * One `WOW` instance. `boxes` holds the boxes still waiting to be revealed, `all` every box
   * seen since `start`; `trace` records what `show` did outside the element. The ghost
   * `revealed` lists the boxes shown since the last `start`, whose effects are the tail of
   * `trace` after `sessionBase`.
   */
  class Wow {
    const config: Config
    const userAgent: string
    const animationNameCache: ListMap<Element, string>
    /**
     * `disabled()`: the instance stays inert when mobile devices are excluded and the agent
     * looks mobile. Neither input changes after construction, so it is evaluated once.
     */
    const disabled: bool
    var boxes: seq<Element>
    var all: seq<Element>
    var scrolled: bool
    var stopped: bool
    /** Whether the sampling interval runs and the scroll and resize handlers are attached. */
    var armed: bool
    /** Whether a mutation observer feeds added nodes to `DoSync`. */
    var observing: bool
    var trace: seq<Effect>
    ghost var revealed: seq<Element>
    ghost var sessionBase: seq<Effect>

    ghost predicate Valid()
      reads this, animationNameCache
    {
      && animationNameCache.Valid()
      && trace == sessionBase + EffectsOf(config, revealed)
      && (armed ==> !stopped && !disabled)
      && Tracked(all, boxes, revealed)
    }


    constructor (config: Config, userAgent: string)
      ensures Valid() && fresh(animationNameCache)
      ensures this.config == config && this.userAgent == userAgent
      ensures disabled <==> !config.mobile && IsMobile(userAgent)
      ensures scrolled && !stopped && !armed && !observing
      ensures boxes == [] && all == [] && trace == [] && animationNameCache.Contents() == map[]
    {
      this.config := config;
      this.userAgent := userAgent;
      disabled := !config.mobile && IsMobile(userAgent);
      animationNameCache := new ListMap();
      scrolled := true;
      boxes, all := [], [];
      stopped, armed, observing := false, false, false;
      trace := [];
      revealed := [];
      sessionBase := [];
    }

    /** Records the box's computed animation name, with `none` read as no name. */
    method CacheAnimationName(el: Element)
      requires animationNameCache.Valid()
      modifies animationNameCache
      ensures animationNameCache.Valid()
      ensures animationNameCache.Contents() == old(animationNameCache.Contents())[el := NormalizedName(el.authoredAnimation)]
    {
      animationNameCache.Set(el, NormalizedName(el.authoredAnimation));
    }

    /** The recorded animation name, or the text `undefined` for a box never recorded. */
    method CachedAnimationName(el: Element) returns (name: string)
      requires animationNameCache.Valid()
      ensures el in animationNameCache.Contents() ==> name == animationNameCache.Contents()[el]
      ensures el !in animationNameCache.Contents() ==> name == "undefined"
    {
      var found := animationNameCache.Get(el);
      match found
      case Some(n) => name := n;
      case None => name := "undefined";
    }

    /** Writes `value` under `key` and under each vendor-prefixed spelling of `key`. */
    method VendorSet(el: Element, key: string, value: string)
      modifies el`style
      ensures el.style == SetAll(old(el.style), Aliases(key), value)
    {
      el.style := el.style[key := value];
      assert Aliases(key)[..1] == [key] && [key][..0] == [];
      var i := 0;
      while i < |Vendors|
        invariant 0 <= i <= |Vendors|
        invariant el.style == SetAll(old(el.style), Aliases(key)[..i + 1], value)
      {
        el.style := el.style[Vendors[i] + Capitalize(key) := value];
        assert Aliases(key)[..i + 2][..i + 1] == Aliases(key)[..i + 1];
        i := i + 1;
      }
      assert Aliases(key)[..i + 1] == Aliases(key);
    }

    /**
     * Hides or shows a box through its inline style; hiding first records the animation name,
     * showing restores the recorded one.
     */
    method CustomStyle(box: Element, hidden: bool, duration: string, delay: string, iteration: string)
      requires animationNameCache.Valid()
      modifies box`style, if hidden then {animationNameCache} else {}
      ensures animationNameCache.Valid()
      ensures hidden ==> animationNameCache.Contents() == old(animationNameCache.Contents())[box := NormalizedName(box.authoredAnimation)]
      ensures box.style == Styled(old(box.style), hidden, duration, delay, iteration,
                                  if hidden then "none" else CachedText(old(animationNameCache.Contents()), box))
    {
      if hidden {
        CacheAnimationName(box);
      }
      box.style := box.style["visibility" := if hidden then "hidden" else "visible"];
      if duration != "" {
        VendorSet(box, "animationDuration", duration);
      }
      if delay != "" {
        VendorSet(box, "animationDelay", delay);
      }
      if iteration != "" {
        VendorSet(box, "animationIterationCount", iteration);
      }
      var name;
      if hidden {
        name := "none";
      } else {
        name := CachedAnimationName(box);
      }
      VendorSet(box, "animationName", name);
      AnimationAliases();
    }

    /** `CustomStyle` with the box's own duration, delay and iteration attributes. */
    method ApplyStyle(box: Element, hidden: bool)
      requires animationNameCache.Valid()
      modifies box`style, if hidden then {animationNameCache} else {}
      ensures animationNameCache.Valid()
      ensures hidden ==> animationNameCache.Contents() == old(animationNameCache.Contents())[box := NormalizedName(box.authoredAnimation)]
      ensures hidden ==> box.style == HiddenStyle(old(box.style), box)
      ensures !hidden ==> box.style == ShownStyle(old(box.style), box, CachedText(animationNameCache.Contents(), box))
    {
      CustomStyle(box, hidden, box.duration, box.delay, box.iteration);
    }

    /** Reveals one box: shown style, the animate class appended, then callback, event and listeners. */
    method Show(box: Element)
      requires animationNameCache.Valid()
      modifies box, this`trace
      ensures box.style == ShownStyle(old(box.style), box, CachedText(animationNameCache.Contents(), box))
      ensures box.className == ShownClassName(old(box.className), config.animateClass)
      ensures trace == old(trace) + ShowEffects(config, box)
    {
      ApplyStyle(box, false);
      box.className := box.className + " " + config.animateClass;
      if config.hasCallback {
        trace := trace + [Callback(box)];
      }
      trace := trace + [Emit(box, config.boxClass)];
      trace := trace + [Listen(box, AnimationEndEvents[0])];
      trace := trace + [Listen(box, AnimationEndEvents[1])];
      trace := trace + [Listen(box, AnimationEndEvents[2])];
      trace := trace + [Listen(box, AnimationEndEvents[3])];
      ListenersOfFour(box, AnimationEndEvents);
    }

    /** Makes every pending box visible without animating it (the disabled mode). */
    method ResetStyle()
      requires Distinct(boxes)
      modifies set b | b in boxes
      ensures forall b :: b in boxes ==> b.style == old(b.style)["visibility" := "visible"] && b.className == old(b.className)
    {
      var i := 0;
      while i < |boxes|
        invariant 0 <= i <= |boxes|
        invariant forall j :: 0 <= j < i ==> boxes[j].style == old(boxes[j].style)["visibility" := "visible"]
        invariant forall j :: i <= j < |boxes| ==> boxes[j].style == old(boxes[j].style)
        invariant forall b :: b in boxes ==> b.className == old(b.className)
      {
        DistinctOthers(boxes, i);
        boxes[i].style := boxes[i].style["visibility" := "visible"];
        i := i + 1;
      }
    }

    /** Hides every pending box, recording its animation name first (the enabled mode). */
    method HideAll()
      requires animationNameCache.Valid() && Distinct(boxes)
      modifies animationNameCache, set b | b in boxes
      ensures animationNameCache.Valid()
      ensures animationNameCache.Contents() == old(animationNameCache.Contents()) + NamesOf(boxes)
      ensures forall b :: b in boxes ==> b.style == HiddenStyle(old(b.style), b) && b.className == old(b.className)
    {
      var i := 0;
      while i < |boxes|
        invariant 0 <= i <= |boxes|
        invariant animationNameCache.Valid()
        invariant animationNameCache.Contents() == old(animationNameCache.Contents()) + NamesOf(boxes[..i])
        invariant forall j :: 0 <= j < i ==> boxes[j].style == HiddenStyle(old(boxes[j].style), boxes[j])
        invariant forall j :: i <= j < |boxes| ==> boxes[j].style == old(boxes[j].style)
        invariant forall b :: b in boxes ==> b.className == old(b.className)
      {
        DistinctOthers(boxes, i);
        assert boxes[..i + 1] == boxes[..i] + [boxes[i]];
        NamesOfSnoc(old(animationNameCache.Contents()), boxes[..i], boxes[i]);
        ApplyStyle(boxes[i], true);
        i := i + 1;
      }
      assert boxes[..i] == boxes;
      forall b | b in boxes
        ensures b.style == HiddenStyle(old(b.style), b)
      {
        var j :| 0 <= j < |boxes| && boxes[j] == b;
      }
    }

    /** The end-of-animation handler: drops the animate class from the event's target. */
    method ResetAnimation(eventType: string, target: Element)
      modifies target`className
      ensures target.className == ResetClassName(eventType, old(target.className), config.animateClass)
    {
      if Contains(Lower(eventType), "animationend") {
        target.className := Trim(RemoveFirst(target.className, config.animateClass));
      }
    }

    /** Marks the page as scrolled, so the next tick samples the boxes. */
    method ScrollHandler()
      modifies this`scrolled
      ensures scrolled
    {
      scrolled := true;
    }

    /** Stops sampling: clears the interval and detaches the scroll and resize handlers. */
    method Stop()
      modifies this`stopped, this`armed
      ensures stopped && !armed
    {
      stopped := true;
      armed := false;
    }

    /** The per-box outcome of one sampling pass: a visible box is shown, any other is left untouched. */
    twostate predicate PassedOver(view: Viewport, b: Element)
      reads b, animationNameCache
      requires animationNameCache.Valid() && Rooted(b)
    {
      if Reveals(config, view, b) then
        && b.style == ShownStyle(old(b.style), b, CachedText(animationNameCache.Contents(), b))
        && b.className == ShownClassName(old(b.className), config.animateClass)
      else
        b.style == old(b.style) && b.className == old(b.className)
    }

    /** One iteration of the sampling loop: shows `box` when it is visible. */
    method Visit(view: Viewport, box: Element) returns (visible: bool)
      requires animationNameCache.Valid() && Rooted(box)
      modifies box, this`trace
      ensures visible == Reveals(config, view, box)
      ensures PassedOver(view, box)
      ensures trace == old(trace) + if visible then ShowEffects(config, box) else []
    {
      visible := CheckVisible(box, config.offset, config.hasScrollContainer, view);
      if visible {
        Show(box);
      }
    }

    /** The loop of `scrollCallback`: shows the visible pending boxes and returns the others in order. */
    method ShowVisible(view: Viewport) returns (kept: seq<Element>)
      requires animationNameCache.Valid() && AllRooted(boxes) && Distinct(boxes)
      modifies this`trace, set b | b in boxes
      ensures kept == Kept(config, view, boxes)
      ensures trace == old(trace) + EffectsOf(config, Shown(config, view, boxes))
      ensures forall b :: b in boxes ==> PassedOver(view, b)
    {
      var pending := boxes;
      kept := [];
      ghost var shown: seq<Element> := [];
      var i := 0;
      while i < |pending|
        invariant 0 <= i <= |pending| && pending == boxes
        invariant kept == Kept(config, view, pending[..i]) && shown == Shown(config, view, pending[..i])
        invariant trace == old(trace) + EffectsOf(config, shown)
        invariant forall j :: 0 <= j < i ==> PassedOver(view, pending[j])
        invariant forall j :: i <= j < |pending| ==> unchanged(pending[j])
      {
        var box := pending[i];
        DistinctOthers(pending, i);
        ghost var before := trace;
        var visible := Visit(view, box);
        SampleStep(config, view, pending, i, kept, shown, visible);
        TraceStep(config, old(trace), before, trace, shown, box, visible);
        if visible {
          shown := shown + [box];
        } else {
          kept := kept + [box];
        }
        i := i + 1;
      }
      assert pending[..i] == pending;
    }

    /**
     * The end of a tick: the boxes left hidden become the pending list, and sampling stops when
     * nothing is pending unless the instance watches for new content.
     */
    method Settle(view: Viewport, kept: seq<Element>, ghost before: seq<Effect>)
      requires animationNameCache.Valid() && Tracked(all, boxes, revealed) && (armed ==> !stopped && !disabled)
      requires before == sessionBase + EffectsOf(config, revealed)
      requires trace == before + EffectsOf(config, Shown(config, view, boxes))
      requires kept == Kept(config, view, boxes)
      modifies this`boxes, this`revealed, this`stopped, this`armed
      ensures Valid()
      ensures boxes == Kept(config, view, old(boxes))
      ensures revealed == old(revealed) + Shown(config, view, old(boxes))
      ensures stopped <==> old(stopped) || (boxes == [] && !config.live)
      ensures armed <==> old(armed) && !(boxes == [] && !config.live)
    {
      ghost var shown := Shown(config, view, boxes);
      TickKeepsTracked(config, view, all, boxes, revealed);
      TickKeepsTrace(config, sessionBase, before, trace, revealed, shown);
      boxes := kept;
      revealed := revealed + shown;
      if |boxes| == 0 && !config.live {
        Stop();
      }
    }

    /**
     * One tick of the sampling interval. After a scroll it shows every pending box that is
     * visible, keeps the rest pending in order, and stops once nothing is pending unless
     * the instance watches for new content.
     */
    method ScrollCallback(view: Viewport)
      requires Valid()
      modifies this`scrolled, this`boxes, this`stopped, this`armed, this`trace, this`revealed
      modifies set b | b in boxes
      ensures Valid() && !scrolled
      ensures !old(scrolled) ==> boxes == old(boxes) && trace == old(trace) && revealed == old(revealed)
      ensures !old(scrolled) ==> stopped == old(stopped) && armed == old(armed)
      ensures !old(scrolled) ==> forall b :: b in old(boxes) ==> unchanged(b)
      ensures old(scrolled) ==> boxes == Kept(config, view, old(boxes))
      ensures old(scrolled) ==> revealed == old(revealed) + Shown(config, view, old(boxes))
      ensures old(scrolled) ==> trace == old(trace) + EffectsOf(config, Shown(config, view, old(boxes)))
      ensures old(scrolled) ==> (stopped <==> old(stopped) || (boxes == [] && !config.live))
      ensures old(scrolled) ==> (armed <==> old(armed) && !(boxes == [] && !config.live))
      ensures old(scrolled) ==> forall b :: b in old(boxes) ==>
        if Reveals(config, view, b) then
          && b.style == ShownStyle(old(b.style), b, CachedText(animationNameCache.Contents(), b))
          && b.className == ShownClassName(old(b.className), config.animateClass)
        else
          b.style == old(b.style) && b.className == old(b.className)
    {
      if !scrolled {
        return;
      }
      scrolled := false;
      ghost var before := trace;
      var kept := ShowVisible(view);
      Settle(view, kept, before);
    }

    /**
     * Collects the boxes of the document and hides them, or, when disabled, only makes them
     * visible; then arms sampling unless disabled and starts watching for new content when live.
     * A new session begins: nothing is revealed yet.
     */
    method Start(matches: seq<Element>)
      requires Valid() && Distinct(matches) && AllRooted(matches)
      modifies this`stopped, this`boxes, this`all, this`armed, this`observing, this`revealed, this`sessionBase
      modifies animationNameCache, set b | b in matches
      ensures Valid()
      ensures !stopped && boxes == matches && all == matches && revealed == [] && sessionBase == trace
      ensures armed <==> !disabled
      ensures observing <==> old(observing) || config.live
      ensures animationNameCache.Contents() == old(animationNameCache.Contents()) + if disabled then map[] else NamesOf(matches)
      ensures forall b :: b in matches ==> b.className == old(b.className)
      ensures forall b :: b in matches ==>
        b.style == if disabled then old(b.style)["visibility" := "visible"] else HiddenStyle(old(b.style), b)
    {
      stopped := false;
      boxes := matches;
      all := matches;
      revealed := [];
      sessionBase := trace;
      if |boxes| > 0 {
        if disabled {
          ResetStyle();
        } else {
          HideAll();
        }
      } else {
        assert NamesOf(matches) == map[];
      }
      if !disabled {
        armed := true;
      }
      if config.live {
        observing := true;
      }
    }

    /** Starts tracking a box not seen before: it joins both lists and is hidden while the instance runs. */
    method Track(box: Element)
      requires animationNameCache.Valid()
      modifies this`boxes, this`all, this`scrolled, animationNameCache, box`style
      ensures boxes == old(boxes) + [box] && all == old(all) + [box] && scrolled
      ensures animationNameCache.Valid()
      ensures stopped || disabled ==> animationNameCache.Contents() == old(animationNameCache.Contents())
      ensures !stopped && !disabled ==>
        animationNameCache.Contents() == old(animationNameCache.Contents())[box := NormalizedName(box.authoredAnimation)]
      ensures box.style == (if stopped || disabled then old(box.style) else HiddenStyle(old(box.style), box))
    {
      boxes := boxes + [box];
      all := all + [box];
      if !stopped && !disabled {
        ApplyStyle(box, true);
      }
      scrolled := true;
    }

    /** The loop of `doSync`: tracks, in order, each box of `scope` that is not tracked yet. */
    method IngestScope(scope: seq<Element>)
      requires animationNameCache.Valid()
      modifies this`boxes, this`all, this`scrolled, animationNameCache, set b | b in scope
      ensures animationNameCache.Valid()
      ensures all == old(all) + NewBoxes(old(all), scope) && boxes == old(boxes) + NewBoxes(old(all), scope)
      ensures scrolled <==> old(scrolled) || NewBoxes(old(all), scope) != []
      ensures animationNameCache.Contents() == old(animationNameCache.Contents())
        + if stopped || disabled then map[] else NamesOf(NewBoxes(old(all), scope))
      ensures forall b :: b in scope ==> b.className == old(b.className)
      ensures forall b :: b in scope && b in NewBoxes(old(all), scope) ==>
        b.style == (if stopped || disabled then old(b.style) else HiddenStyle(old(b.style), b))
      ensures forall b :: b in scope && b !in NewBoxes(old(all), scope) ==> b.style == old(b.style)
    {
      ghost var cache0 := animationNameCache.Contents();
      ghost var added: seq<Element> := [];
      var i := 0;
      while i < |scope|
        invariant 0 <= i <= |scope|
        invariant added == NewBoxes(old(all), scope[..i])
        invariant all == old(all) + added && boxes == old(boxes) + added
        invariant scrolled <==> old(scrolled) || added != []
        invariant animationNameCache.Valid()
        invariant animationNameCache.Contents() == cache0 + if stopped || disabled then map[] else NamesOf(added)
        invariant forall b :: b in scope ==> b.className == old(b.className)
        invariant forall b :: b in scope && b in added ==>
          b.style == (if stopped || disabled then old(b.style) else HiddenStyle(old(b.style), b))
        invariant forall b :: b in scope && b !in added ==> b.style == old(b.style)
      {
        var box := scope[i];
        NewBoxesStep(old(all), scope, i);
        if box !in all {
          NamesOfSnoc(cache0, added, box);
          AppendAssoc(old(all), added, [box]);
          AppendAssoc(old(boxes), added, [box]);
          Track(box);
          added := added + [box];
        }
        i := i + 1;
      }
      assert scope[..i] == scope;
    }

    /**
     * Ingests the boxes under an added node: each box not tracked yet joins both lists, is
     * hidden while the instance runs, and marks the page for sampling.
     */
    method DoSync(node: AddedNode)
      requires Valid() && AllRooted(Scope(node))
      modifies this`boxes, this`all, this`scrolled, animationNameCache, set b | b in Scope(node)
      ensures Valid()
      ensures all == old(all) + NewBoxes(old(all), Scope(node))
      ensures boxes == old(boxes) + NewBoxes(old(all), Scope(node))
      ensures scrolled <==> old(scrolled) || NewBoxes(old(all), Scope(node)) != []
      ensures animationNameCache.Contents() == old(animationNameCache.Contents())
        + if stopped || disabled then map[] else NamesOf(NewBoxes(old(all), Scope(node)))
      ensures forall b :: b in Scope(node) ==> b.className == old(b.className)
      ensures forall b :: b in Scope(node) && b in NewBoxes(old(all), Scope(node)) ==>
        b.style == (if stopped || disabled then old(b.style) else HiddenStyle(old(b.style), b))
      ensures forall b :: b in Scope(node) && b !in NewBoxes(old(all), Scope(node)) ==> b.style == old(b.style)
    {
      IngestKeepsTracked(all, boxes, revealed, Scope(node));
      if node.nodeType == 1 {
        IngestScope(Scope(node));
      } else {
        assert old(animationNameCache.Contents()) + NamesOf([]) == old(animationNameCache.Contents());
      }
    }

    /** Ingests new boxes of the whole document; needed only where added nodes are not reported. */
    method Sync(notSupported: bool, documentMatches: seq<Element>)
      requires Valid() && AllRooted(documentMatches)
      modifies this`boxes, this`all, this`scrolled, animationNameCache, set b | b in documentMatches
      ensures Valid()
      ensures var added := if notSupported then NewBoxes(old(all), documentMatches) else [];
              && all == old(all) + added && boxes == old(boxes) + added
              && (scrolled <==> old(scrolled) || added != [])
              && animationNameCache.Contents() == old(animationNameCache.Contents())
                 + (if stopped || disabled then map[] else NamesOf(added))
              && (forall b :: b in documentMatches ==> b.className == old(b.className))
              && (forall b :: b in documentMatches && b in added ==>
                    b.style == (if stopped || disabled then old(b.style) else HiddenStyle(old(b.style), b)))
              && (forall b :: b in documentMatches && b !in added ==> b.style == old(b.style))
    {
      if notSupported {
        DoSync(AddedNode(1, Some(documentMatches)));
      } else {
        assert NamesOf([]) == map[];
      }
    }

    /**
     * The mutation observer's callback: every node the reported mutations added, in order,
     * goes through `DoSync`. Only an instance that watches for new content has an observer.
     */
    method Observe(nodes: seq<AddedNode>)
      requires Valid() && observing
      requires forall n :: n in nodes ==> AllRooted(Scope(n))
      modifies this`boxes, this`all, this`scrolled, animationNameCache
      modifies set n, b | n in nodes && b in Scope(n) :: b
      ensures Valid()
      ensures all == old(all) + NewBoxes(old(all), Scopes(nodes))
      ensures boxes == old(boxes) + NewBoxes(old(all), Scopes(nodes))
      ensures scrolled <==> old(scrolled) || NewBoxes(old(all), Scopes(nodes)) != []
    {
      var i := 0;
      while i < |nodes|
        invariant 0 <= i <= |nodes|
        invariant Valid()
        invariant all == old(all) + NewBoxes(old(all), Scopes(nodes[..i]))
        invariant boxes == old(boxes) + NewBoxes(old(all), Scopes(nodes[..i]))
        invariant scrolled <==> old(scrolled) || NewBoxes(old(all), Scopes(nodes[..i])) != []
      {
        ghost var done := Scopes(nodes[..i]);
        ghost var known := NewBoxes(old(all), done);
        ScopesStep(nodes, i);
        NewBoxesConcat(old(all), done, Scope(nodes[i]));
        AppendAssoc(old(all), known, NewBoxes(all, Scope(nodes[i])));
        AppendAssoc(old(boxes), known, NewBoxes(all, Scope(nodes[i])));
        DoSync(nodes[i]);
        i := i + 1;
      }
      assert nodes[..i] == nodes;
    }
  }

  /**
   * Reveal happens at most once per box: since the session began, the custom event went out on
   * exactly the revealed boxes, once each, in reveal order; and no revealed box is pending again.
   */
  lemma SessionEmitsOnce(w: Wow)
    requires w.Valid()
    ensures Emitted(w.trace) == Emitted(w.sessionBase) + w.revealed
    ensures Distinct(w.revealed)
    ensures forall b :: b in w.revealed ==> b in w.all && b !in w.boxes
  {
    EmittedConcat(w.sessionBase, EffectsOf(w.config, w.revealed));
    EmittedIsShown(w.config, w.revealed);
  }
}
