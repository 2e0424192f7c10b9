# WOW.js reveal controller, modelled in Dafny

This project models the core of WOW.js v1.1.2 (`js/wow.js`). WOW.js is a scroll-reveal controller. On `start` it collects the elements that carry the box class and hides them through their inline style. A sampling tick that runs after every scroll or resize shows the pending boxes that have entered the viewport. Showing a box restores the animation name cached when it was hidden and appends the animate class. The tick also dispatches the callback and the custom event and attaches the end-of-animation listeners. Boxes inserted later are picked up through `doSync`, without duplicates.

The model is split into modules that follow the structure of the source:

- `Util`: the option merge `extend`, as a method that mutates an `Options` object, and the mobile user-agent test `isMobile`.
- `WeakMapPolyfill`: the list-backed `WeakMap` as the class `ListMap`, whose parallel `keys`/`values` sequences are updated in place.
- `Dom`: the host document. `Element` is a class with a mutable `className` and inline `style` map. Its data attributes, authored animation name and layout (`offsetTop`, `offsetParent`, `clientHeight`) are constants. `Viewport` carries the scroll position and heights for one sample. `AddedNode` is a node reported by a mutation batch.
- `Visibility`: `offsetTop` as a loop over the `offsetParent` chain, and `isVisible` as a predicate with its consequences.
- `Reveal`: the style and class-string computations. These are `vendorSet`'s alias writes, the style `customStyle` leaves, the "none" normalisation of `animationName`, `show`'s class append and `resetAnimation`'s class strip.
- `Tracking`: which boxes of a query result `doSync` appends, given the boxes already seen.
- `Controller`: the `Wow` class, with fields `boxes`, `all`, `scrolled`, `stopped`, the armed timer and handlers, the observer flag and the animation-name cache. The effects `show` has outside the element are recorded in a `trace`.

`Wow.Valid()` is the class invariant kept by every operation:

- the pending list `boxes` and the seen list `all` have no duplicates;
- `boxes` is contained in `all`;
- the boxes revealed since the last `start` are in `all` and never pending again;
- the trace after the session start is exactly the effects of showing the revealed boxes, in reveal order.

`SessionEmitsOnce` draws the conclusion from this invariant: the custom event goes out at most once per box.

## Model

| member | source | states |
|---|---|---|
| Util.Extend | js/wow.js:11-18 | Mutates and returns the same options object. Every key of the source fills the target's slot exactly when that slot is missing, `null` or `undefined`. |
| Util.MergedKeepsSupplied | js/wow.js:13 | A value the caller supplied that is neither `null` nor `undefined` is never overwritten by a default. |
| Util.MergedFillsNullish | js/wow.js:13-14 | A missing or nullish option takes the default's value. |
| Util.MergedIdempotent | js/wow.js:11-18 | Merging the same defaults a second time changes nothing. |
| Util.Merged | js/wow.js:11-18 | The map `extend` leaves: keys of both sides, a supplied value kept unless it is `null` or `undefined`. `MergedKeepsSupplied`, `MergedFillsNullish`, `MergedIdempotent` and `Extend` are its partners. |
| Controller.ConfigOf | js/wow.js:133-136 | Reads the typed configuration out of a merged options object: present when the classes are strings and the offset a number; `mobile` and `live` by truthiness; `callback` and `scrollContainer` by whether they are set. |
| Controller.MergedOptionsConfig | js/wow.js:133 | Merging well-typed options with the defaults always yields a configuration, each field the caller's non-nullish value or else the default. |
| Controller.DefaultConfig | js/wow.js:140-148 | With no options, the configuration is box class "wow", animate class "animated", offset 0, `mobile` and `live` on, no callback and no scroll container. |
| Util.AnyTokenIn | js/wow.js:20 | True iff one of the alternatives of the pattern, upper-cased, occurs somewhere in the upper-cased user agent. |
| Util.IsMobile | js/wow.js:19-21 | True iff the user agent contains one of Android, webOS, iPhone, iPad, iPod, BlackBerry, IEMobile or Opera Mini, ignoring ASCII case. |
| Util.IsMobileIgnoresCase | js/wow.js:20 | The `/i` flag: lower-casing the user agent never changes the verdict. |
| WeakMapPolyfill.MapOfKeys | js/wow.js:73-91 | The keys of the represented map are exactly the stored keys. |
| WeakMapPolyfill.MapOfAt | js/wow.js:77-80 | With no key stored twice, the i-th stored key maps to the i-th stored value. |
| WeakMapPolyfill.MapOfUpdate | js/wow.js:84-86 | Overwriting the i-th value by index updates the represented map at the i-th key and nowhere else. |
| WeakMapPolyfill.ListMap.constructor | js/wow.js:73-76 | A new map has no keys and represents the empty map. |
| WeakMapPolyfill.ListMap.Get | js/wow.js:77-81 | Returns the value last set for the key, or nothing (`undefined`) when the key was never set. |
| WeakMapPolyfill.ListMap.Set | js/wow.js:82-91 | The represented map becomes the old one updated at the key. An existing key is overwritten in place with the key list unchanged; a new key is appended once. The lists stay parallel and keys stay unique. |
| Visibility.OffsetTop | js/wow.js:316-322 | The loop's result is the sum of `offsetTop` over the element and its whole `offsetParent` chain. |
| Visibility.ScrollTop | js/wow.js:325 | The scroll position is the container's `scrollTop` when a container is configured and its `scrollTop` is non-zero, and `window.pageYOffset` otherwise. |
| Visibility.CheckVisible | js/wow.js:323-330 | The imperative test, computed through the `offsetTop` walk, agrees with the visibility predicate. |
| Visibility.IsVisible | js/wow.js:323-330 | `isVisible`: the chain top is at most scroll top + min(root height, inner height) - offset, and chain top + `clientHeight` is at least the scroll top. Its partners are `CheckVisible` (the imperative walk agrees with it), `LargerOffsetNeverReveals`, `AttributeOverridesConfig`, `ScrollingDownKeepsVisible`, `PassedElementIsNotVisible` and `ZeroContainerScrollFallsBack`. |
| Visibility.EffectiveOffset | js/wow.js:324 | The offset is `data-wow-offset` when the box has it, else the configured one; `AttributeOverridesConfig` and `LargerOffsetNeverReveals` state its effect on the verdict. |
| Dom.ChainTop | js/wow.js:316-322 | The page offset of an element: its `offsetTop` plus that of every ancestor on its finite `offsetParent` chain. `Visibility.OffsetTop` proves the source's loop computes it. |
| Visibility.LargerOffsetNeverReveals | js/wow.js:326 | Raising the offset can never turn an invisible element visible. |
| Visibility.AttributeOverridesConfig | js/wow.js:324 | With `data-wow-offset` present, the configured offset does not affect the verdict. |
| Visibility.ScrollingDownKeepsVisible | js/wow.js:325-329 | A visible element stays visible as long as the scroll position `isVisible` uses (the container's `scrollTop` when non-zero, else `pageYOffset`) does not decrease and the element's bottom edge stays at or below it. |
| Visibility.ContainerLeavingZeroCanHide | js/wow.js:325-329 | When a container leaves `scrollTop` 0 while `pageYOffset` is larger, the scroll position `isVisible` uses drops, and an element not yet scrolled past stays visible iff its top is still at most the lowered view bottom. |
| Visibility.ContainerQuirkExample | js/wow.js:323-330 | A concrete element (top 1100, height 100, page scrolled to 1000, 500-high window) is visible with the container at 0 and hidden with it at 5. |
| Visibility.PassedElementIsNotVisible | js/wow.js:328-329 | An element whose bottom edge is above the scroll top is not visible. |
| Visibility.ZeroContainerScrollFallsBack | js/wow.js:325 | A container scrolled to 0 is treated as if no container were configured. |
| Strings.Upper | js/wow.js:20 | Upper-cases every character and keeps the length. |
| Strings.Lower | js/wow.js:248 | `toLowerCase`: lower-cases every character and keeps the length. |
| Strings.IndexOf | js/wow.js:248 | `indexOf`: returns the first position where the pattern occurs, or -1 when it occurs nowhere. |
| Strings.RemoveFirst | js/wow.js:250 | `replace` with a string pattern: leaves the string alone when the pattern is absent. Otherwise the result is one pattern shorter, and putting the pattern back at the position of its first occurrence gives the original string. |
| Strings.TrimStart | js/wow.js:250 | Removes exactly the leading whitespace: the result is a suffix, starts with a non-white character, and what was dropped is white. |
| Strings.TrimEnd | js/wow.js:250 | Removes exactly the trailing whitespace: the result is a prefix, ends with a non-white character, and what was dropped is white. |
| Strings.TrimIgnoresTrailingWhite | js/wow.js:250 | Appending a whitespace character does not change the trimmed string. |
| Strings.Trim | js/wow.js:250 | `trim`: `TrimStart` then `TrimEnd`, whose contracts state what each end loses; `TrimIgnoresTrailingWhite` is its partner. |
| Strings.IndexOfExtend | js/wow.js:248 | Text appended after a string that already contains the pattern does not move its first occurrence. |
| Strings.RemoveFirstExtend | js/wow.js:250 | Text appended after the first occurrence of the pattern survives its removal unchanged. |
| Reveal.Capitalize | js/wow.js:268 | Upper-cases the first character of the key and keeps the rest; `AnimationAliases` pins its result for every key a caller passes. |
| Reveal.Aliases | js/wow.js:261-269 | The names `vendorSet` writes for a key: the key itself, then "moz" and "webkit" each followed by the key with its first letter upper-cased. |
| Reveal.SetAllSpec | js/wow.js:266-269 | Writing a value under a list of names puts the value under every one of them and leaves every other style entry unchanged. |
| Reveal.AnimationAliases | js/wow.js:256-269 | The spelled-out alias lists of `animationDuration`, `animationDelay`, `animationIterationCount` and `animationName` are exactly the ones `vendorSet` derives. |
| Reveal.AliasesApart | js/wow.js:255-259 | Two distinct keys starting with "a" have disjoint alias lists, and none of the aliases is `visibility`, so `customStyle`'s writes never clobber one another. |
| Reveal.WriteIfGivenSpec | js/wow.js:256-258 | A duration, delay or iteration write happens only for a non-empty attribute, and then reaches every alias and nothing else. |
| Reveal.Styled | js/wow.js:253-260 | The style `customStyle` leaves: the visibility write, the three conditional writes and the name write in the source's order. `StyledAt`, `StyledEntries` and `HideThenShowRestoresName` state what it leaves under each property. |
| Reveal.StyledAt | js/wow.js:253-260 | What `customStyle` leaves at each property name: `visibility` is hidden or visible, every name alias carries the name, each other alias carries its attribute when the attribute is non-empty and otherwise keeps its old value, and every untouched property keeps its old value. |
| Reveal.StyledEntries | js/wow.js:253-260 | The same statement for the whole style map at once. |
| Reveal.NormalizedName | js/wow.js:288 | The computed animation name reads as "" exactly when it is "" or "none", and is otherwise returned unchanged. |
| Reveal.HideThenShowRestoresName | js/wow.js:253-295 | After a hide, every name alias holds "none" and `visibility` is hidden. Showing afterwards with the name cached at hide time writes that name back under every alias and makes the box visible. |
| Reveal.ShownClassName | js/wow.js:218 | `show`'s class string: the old one, a space, the animate class. `ShownClassNameExtends` and `ResetUndoesShow` are its partners. |
| Reveal.IsAnimationEnd | js/wow.js:248 | The guard of `resetAnimation`: the lower-cased event type contains "animationend". `AnimationEndEventsPass` shows the four subscribed types pass it. |
| Reveal.ResetClassName | js/wow.js:247-251 | `resetAnimation`'s class string: unchanged for other events, otherwise the first occurrence of the animate class removed and the result trimmed. `ResetUndoesShow` and `ResetStripsEarlierOccurrence` relate it to `show`. |
| Reveal.ShownClassNameExtends | js/wow.js:218 | `show`'s class string keeps the old class string as a prefix and ends with a space and the animate class. |
| Reveal.AnimationEndEventsPass | js/wow.js:221-251 | Each of the four event types `show` subscribes to passes `resetAnimation`'s lower-cased "animationend" test. |
| Reveal.ResetUndoesShow | js/wow.js:218-251 | After an end-of-animation event, resetting a shown box gives back its trimmed original class string. This holds when the animate class is a non-empty word without spaces that the original string does not already contain. |
| Reveal.ResetStripsEarlierOccurrence | js/wow.js:218-251 | When the original class string already contains the animate class, the reset after `show` strips that earlier occurrence instead, and the appended one stays: the result is the trimmed original-without-its-first-occurrence, a space, and the animate class. |
| Tracking.NewBoxes | js/wow.js:203-207 | The boxes `doSync` appends for a query result: each box not seen before, once, in query order. `NewBoxesMembers`, `NewBoxesDistinct`, `NewBoxesOfSeen` and `NewBoxesConcat` state its properties. |
| Tracking.NewBoxesMembers | js/wow.js:203-207 | A box is appended iff it is in the query result and was not seen before. |
| Tracking.NewBoxesDistinct | js/wow.js:205-207 | No box is appended twice, even when the query result repeats it. |
| Tracking.NewBoxesOfSeen | js/wow.js:205 | A query result made only of boxes already seen appends nothing. |
| Tracking.NewBoxesConcat | js/wow.js:199-215 | Ingesting two query results one after the other appends the same boxes as ingesting their concatenation. |
| Tracking.IngestIdempotent | js/wow.js:205 | Reporting the same boxes a second time appends nothing more. |
| Controller.ShowEffects | js/wow.js:219-224 | What one `show` does outside the box: the callback when one is configured, the custom event, then one listener per end-of-animation event type. `ShowEffectsEmitOnce` is its partner. |
| Controller.ShowEffectsEmitOnce | js/wow.js:219-224 | One `show` dispatches the custom event exactly once, on the box shown. The callback and the listeners dispatch no event. |
| Controller.EffectsOfConcat | js/wow.js:303-310 | The effects of showing two runs of boxes are the effects of the first run followed by those of the second. |
| Controller.EmittedIsShown | js/wow.js:303-310 | Showing a list of boxes dispatches the custom event on exactly those boxes, in that order. |
| Controller.Kept | js/wow.js:303-311 | The boxes a tick keeps pending: the invisible ones, in order. `KeptShownMembers`, `KeptShownPartition`, `KeptShownDistinct` and `KeptShownSplit` state its properties. |
| Controller.Shown | js/wow.js:303-310 | The boxes a tick shows: the visible ones, in order; the same lemmas pair it with `Kept`. |
| Controller.KeptShownMembers | js/wow.js:303-311 | A tick keeps a box iff it was pending and is not visible, and shows a box iff it was pending and is visible. |
| Controller.KeptShownPartition | js/wow.js:303-311 | The kept and the shown boxes together are exactly the pending boxes (as multisets). |
| Controller.KeptShownDistinct | js/wow.js:303-311 | With no duplicates among the pending boxes, neither the kept list nor the shown list has duplicates. |
| Controller.KeptShownSplit | js/wow.js:303-311 | The kept and the shown boxes both come from the pending list, have no duplicates, and never overlap. |
| Controller.TickKeepsTracked | js/wow.js:303-311 | A tick keeps the bookkeeping: the shown boxes leave the pending list for good and join the revealed ones. |
| Controller.Scope | js/wow.js:201-202 | The query result `doSync` works on for one added node: nothing for a non-element, the matches under its parent otherwise, and nothing when it has no parent. `Controller.Wow.DoSync` states what ingesting it does. |
| Controller.IngestKeepsTracked | js/wow.js:205-207 | Appending the new boxes of a query result to both lists keeps `all` duplicate-free and `boxes` inside `all`. |
| Controller.TickKeepsTrace | js/wow.js:303-311 | Appending the effects of the boxes a tick shows keeps the trace equal to the effects of all boxes revealed since `start`. |
| Controller.SessionEmitsOnce | js/wow.js:216-315 | Since `start`, the custom event went out exactly on the revealed boxes, once each, in reveal order. No revealed box is pending, and every revealed box is in `all`. |
| Controller.Wow.constructor | js/wow.js:126-139 | A new instance has `scrolled` set, is neither stopped nor armed, tracks nothing and has an empty cache. It is `disabled` iff `mobile` is off and the user agent looks mobile. |
| Controller.Wow.CacheAnimationName | js/wow.js:281-292 | The cache maps the box to its computed animation name, with "none" read as "". All other entries are unchanged. |
| Controller.Wow.CachedAnimationName | js/wow.js:293-295 | Returns the cached name, or the text "undefined" for a box never cached. |
| Controller.Wow.VendorSet | js/wow.js:262-272 | The style becomes the old style with the value written under the key and under each vendor-prefixed alias, in that order. |
| Controller.Wow.CustomStyle | js/wow.js:253-260 | Hiding first caches the box's normalised animation name. The style becomes the one `Reveal.StyledAt` describes: the animation name is "none" when hiding and the cached name when showing. |
| Controller.Wow.ApplyStyle | js/wow.js:227-234 | `CustomStyle` with the box's own `data-wow-duration`, `data-wow-delay` and `data-wow-iteration`. |
| Controller.Wow.Show | js/wow.js:216-226 | The box gets the shown style with the cached name, and its class string gains " " + animate class. The trace gains the callback (when configured), then the custom event, then the four end-of-animation listeners. |
| Controller.Wow.ResetStyle | js/wow.js:242-246 | Every pending box gets `visibility` "visible" and nothing else changes in its style or class. |
| Controller.Wow.HideAll | js/wow.js:168-170 | Every pending box is hidden and its class is untouched. The cache gains each box's normalised animation name. |
| Controller.Wow.ResetAnimation | js/wow.js:247-252 | The target's class string changes only for an end-of-animation event. The change removes the first occurrence of the animate class and trims the result. |
| Controller.Wow.ScrollHandler | js/wow.js:296-298 | Marks the page as scrolled. |
| Controller.Wow.Stop | js/wow.js:188-193 | Sets `stopped` and disarms the timer and the scroll and resize handlers. |
| Controller.Wow.Visit | js/wow.js:304-309 | One loop step: a visible box is shown and its effects are appended to the trace; an invisible box and the trace are left untouched. |
| Controller.Wow.ShowVisible | js/wow.js:302-310 | Returns exactly the invisible pending boxes, in order. It shows the visible ones in order, extends the trace by their effects, and leaves every other box as it was. |
| Controller.Wow.Settle | js/wow.js:311-314 | The kept boxes become the pending list and the shown ones join the revealed list. The instance stops iff nothing is pending and `live` is off. The class invariant holds again. |
| Controller.Wow.ScrollCallback | js/wow.js:299-315 | Without a scroll since the last tick, nothing changes except that `scrolled` stays false. Otherwise `scrolled` is cleared and exactly the invisible pending boxes stay pending, in order. The visible ones are shown in order, and their effects extend the trace. The instance stops iff nothing is left pending and `live` is off. |
| Controller.Wow.Start | js/wow.js:159-187 | `stopped` is cleared and `boxes` and `all` are both the document's matches. When disabled, every box is only made visible and nothing is armed. Otherwise every box is hidden, its name is cached, and the timer and handlers are armed. Live instances start observing. |
| Controller.Wow.Track | js/wow.js:206-211 | Appends a box to both lists and sets `scrolled`. It hides the box and caches its name only when the instance is neither stopped nor disabled. |
| Controller.Wow.IngestScope | js/wow.js:203-213 | Both lists gain exactly the new boxes of the query result, in order. `scrolled` is set iff some box was new. Only new boxes are hidden, and only when running. The cache gains exactly their names. |
| Controller.Wow.DoSync | js/wow.js:199-215 | A node that is not an element changes nothing. Otherwise the behaviour is that of `IngestScope` on the matches under the node's parent (none when it has no parent), and the class invariant is kept. |
| Controller.Wow.Sync | js/wow.js:194-198 | Where added nodes are not reported, ingests the whole document's matches as `DoSync` does. Otherwise nothing changes. |
| Controller.Wow.Observe | js/wow.js:179-185 | The observer's callback: the added nodes go through `DoSync` in order. Both lists gain the new boxes of all their query results, each once. The class invariant is kept. |

## Left out

- The event shims `createEvent`, `emitEvent`, `addEvent` and `removeEvent` are host API fallbacks. The callback, the custom event and the listener registrations in `show` are recorded as `Effect` entries of `trace` instead.
- The `MutationObserver` polyfill and the `observe` registration are host machinery. `observing` is a flag set by `Start` for live instances. A batch of mutations is given to `Observe` as the flattened list of added nodes, and `MutationObserver.notSupported` is a parameter of `Sync`.
- `setInterval`, `clearInterval` and the `animate` wrapper around `requestAnimationFrame` are scheduling. The timer and the scroll and resize handlers are the `armed` flag, a tick is an explicit `ScrollCallback` call, and the deferred style write of `applyStyle` happens at once.
- The `getComputedStyle` polyfill, `camelCaseRE` and `vendorCSS` read computed CSS from the host. The computed animation name is the element's `authoredAnimation`; only the "none" normalisation of `animationName` is modelled.
- `init`, with its `readyState` and `DOMContentLoaded` handling, is host wiring. The results of `querySelectorAll` and `querySelector` are parameters: `matches`, `documentMatches` and `AddedNode.parentMatches`.
- `finished` and `util()` are never read, so they are not modelled.
- JavaScript number and string coercion is not modelled. `data-wow-offset` and the layout values are integers that are already parsed, and an absent attribute is `None` or "".
- The controller takes a typed `Config`. `Controller.ConfigOf` reads it from the merged options, with `callback` and `scrollContainer` reduced to whether they are set; the `scrollContainer` selector is taken to match when it is set. The configuration is frozen at construction: later changes a caller makes through a kept reference to the options object, which the source would see, are not modelled.
- `vendorSet` takes a properties object; `Controller.Wow.VendorSet` takes one key, as every caller passes exactly one.
- Before the first `start`, the source's `boxes` and `all` are undefined; the model starts them as empty lists.
- A repeated `start` in the source installs a second interval and a second observer without clearing the first. The model only sets the `armed` and `observing` flags again. A box still pending at a second `start` carries the inline animation name "none", so the source caches "" for it; the model caches its authored name, because `authoredAnimation` stands for the computed style and ignores inline writes.
- The model freezes the configuration: `disabled()` is evaluated once at construction and `Config` is a value. This assumes the caller does not mutate the options object, which the source keeps as `this.config` (js/wow.js:133) and re-reads on each use (`mobile` at 337, `live` at 312, `animateClass` at 218, `offset` at 324). The user agent is taken as fixed.
- What the user's `callback` does is not modelled; only its invocation is recorded.
- Case folding covers ASCII only. For the mobile pattern's `/i` flag no non-ASCII character folds onto an ASCII one, so the verdict is the same. For `toLowerCase` in `resetAnimation`, U+212A (Kelvin sign) lower-cases to "k" and U+0130 to "i" followed by U+0307, but "animationend" has no "k" and each of its "i"s is followed by "m" or "o", so the ASCII-only `Strings.Lower` gives the same verdict on every event type.
- Reveal.Capitalize: upper-cases ASCII only, where `toUpperCase` is full Unicode. This is exact for the model because every caller passes one of four ASCII keys (`AnimationAliases`).
- The falsy-box check of `scrollCallback` is not modelled: a model element is never null.
- Controller.Wow.Observe: states the list and `scrolled` updates of the whole batch. The per-box style and cache effects are stated for each node on `Controller.Wow.DoSync`.
- With a scroll container configured, visibility is not monotone in the container's `scrollTop`: a container leaving 0 while `pageYOffset` is larger lowers the scroll position `isVisible` uses and can hide an element that has not been scrolled past (`Visibility.ContainerLeavingZeroCanHide`, `Visibility.ContainerQuirkExample`). The model keeps this behaviour of the source.
- Controller.Wow.ScrollCallback and Controller.Wow.Start: the `offsetParent` chain of every tracked box must be finite (`Rooted`). A document's layout tree always satisfies this, so it is a requirement on the host rather than a weakening.

An element whose bottom edge is above the scroll top is not revealed (`elBottom >= scrollTop`, js/wow.js:329); see `Visibility.PassedElementIsNotVisible`.
