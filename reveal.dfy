/**
 * The reveal protocol on style maps and class strings: `vendorSet`'s alias writes, the style
 * that `customStyle` leaves, the "none" normalisation of `animationName`, `show`'s class append
 * and `resetAnimation`'s class strip.
 */
module Reveal {
  import opened Strings

  const Vendors: seq<string> := ["moz", "webkit"]

  /** `key.charAt(0).toUpperCase() + key.substr(1)`. */
  function Capitalize(key: string): string {
    if key == [] then [] else [UpperChar(key[0])] + key[1..]
  }

  /** The property names `vendorSet` writes for `key`: the key itself, then one per vendor. */
  function Aliases(key: string): (r: seq<string>)
    ensures |r| == 1 + |Vendors| && r[0] == key
    ensures forall i :: 0 <= i < |Vendors| ==> r[i + 1] == Vendors[i] + Capitalize(key)
  {
    [key, Vendors[0] + Capitalize(key), Vendors[1] + Capitalize(key)]
  }

  /** `r` agrees with `style` at `n`. */
  ghost predicate SameAt(r: map<string, string>, style: map<string, string>, n: string) {
    (n in r <==> n in style) && (n in style ==> r[n] == style[n])
  }

  /** `r` holds `value` at `n`. */
  ghost predicate SetAt(r: map<string, string>, n: string, value: string) {
    n in r && r[n] == value
  }

  /** `r` holds `value` at `n` when `value` is non-empty, and otherwise agrees with `style` there. */
  ghost predicate WrittenAt(r: map<string, string>, style: map<string, string>, n: string, value: string) {
    if value != "" then SetAt(r, n, value) else SameAt(r, style, n)
  }

  /** Every name of `names` carries `value` in `r`. */
  ghost predicate AllSet(r: map<string, string>, names: seq<string>, value: string) {
    forall n :: n in names ==> SetAt(r, n, value)
  }

  /** `r` is `style` outside `names`. */
  ghost predicate SameOutside(r: map<string, string>, style: map<string, string>, names: seq<string>) {
    forall n :: n !in names ==> SameAt(r, style, n)
  }

  /** `names` carry `value` when `value` is non-empty; otherwise `r` agrees with `style` on them. */
  ghost predicate WrittenIfGiven(r: map<string, string>, style: map<string, string>, names: seq<string>, value: string) {
    forall n :: n in names ==> WrittenAt(r, style, n, value)
  }

  /** Writes `value` under every name of `names`, in order. */
  function SetAll(style: map<string, string>, names: seq<string>, value: string): map<string, string> {
    if names == [] then style
    else SetAll(style, names[..|names| - 1], value)[names[|names| - 1] := value]
  }

  /** `SetAll` puts `value` under every name of `names` and leaves every other entry alone. */
  lemma {:induction false} SetAllSpec(style: map<string, string>, names: seq<string>, value: string)
    ensures AllSet(SetAll(style, names, value), names, value)
    ensures SameOutside(SetAll(style, names, value), style, names)
  {
    if names != [] {
      var init, last := names[..|names| - 1], names[|names| - 1];
      assert names == init + [last];
      SetAllSpec(style, init, value);
    }
  }

  /** The aliases of `customStyle`'s four keys, spelled out. */
  const DurationAliases: seq<string> := ["animationDuration", "mozAnimationDuration", "webkitAnimationDuration"]
  const DelayAliases: seq<string> := ["animationDelay", "mozAnimationDelay", "webkitAnimationDelay"]
  const IterationAliases: seq<string> :=
    ["animationIterationCount", "mozAnimationIterationCount", "webkitAnimationIterationCount"]
  const NameAliases: seq<string> := ["animationName", "mozAnimationName", "webkitAnimationName"]

  /** The aliases of a key starting with 'a', given the rest of the key. */
  lemma AliasesOfA(key: string, rest: string)
    requires key == "a" + rest
    ensures Aliases(key) == [key, "mozA" + rest, "webkitA" + rest]
  {
    assert Capitalize(key) == "A" + rest;
    assert "moz" + ("A" + rest) == "mozA" + rest;
    assert "webkit" + ("A" + rest) == "webkitA" + rest;
  }

  /** The spelled-out lists are the ones `vendorSet` derives from the four keys. */
  lemma AnimationAliases()
    ensures Aliases("animationDuration") == DurationAliases
    ensures Aliases("animationDelay") == DelayAliases
    ensures Aliases("animationIterationCount") == IterationAliases
    ensures Aliases("animationName") == NameAliases
  {
    DurationSpelled();
    DelaySpelled();
    IterationSpelled();
    NameSpelled();
  }

  /** The aliases of `animationDuration`, spelled out. */
  lemma DurationSpelled()
    ensures Aliases("animationDuration") == DurationAliases
  {
    assert "a" + "nimationDuration" == "animationDuration";
    assert "mozA" + "nimationDuration" == "mozAnimationDuration";
    assert "webkitA" + "nimationDuration" == "webkitAnimationDuration";
    AliasesOfA("animationDuration", "nimationDuration");
  }

  /** The aliases of `animationDelay`, spelled out. */
  lemma DelaySpelled()
    ensures Aliases("animationDelay") == DelayAliases
  {
    assert "a" + "nimationDelay" == "animationDelay";
    assert "mozA" + "nimationDelay" == "mozAnimationDelay";
    assert "webkitA" + "nimationDelay" == "webkitAnimationDelay";
    AliasesOfA("animationDelay", "nimationDelay");
  }

  /** The aliases of `animationIterationCount`, spelled out. */
  lemma IterationSpelled()
    ensures Aliases("animationIterationCount") == IterationAliases
  {
    assert "a" + "nimationIterationCount" == "animationIterationCount";
    assert "mozA" + "nimationIterationCount" == "mozAnimationIterationCount";
    assert "webkitA" + "nimationIterationCount" == "webkitAnimationIterationCount";
    AliasesOfA("animationIterationCount", "nimationIterationCount");
  }

  /** The aliases of `animationName`, spelled out. */
  lemma NameSpelled()
    ensures Aliases("animationName") == NameAliases
  {
    assert "a" + "nimationName" == "animationName";
    assert "mozA" + "nimationName" == "mozAnimationName";
    assert "webkitA" + "nimationName" == "webkitAnimationName";
    AliasesOfA("animationName", "nimationName");
  }

  /** The write `customStyle` makes for one attribute: all of its aliases when `value` is non-empty. */
  function WriteIfGiven(style: map<string, string>, names: seq<string>, value: string): map<string, string> {
    if value != "" then SetAll(style, names, value) else style
  }

  /** `WriteIfGiven` writes every alias when `value` is non-empty and nothing else. */
  lemma WriteIfGivenSpec(style: map<string, string>, names: seq<string>, value: string)
    ensures WrittenIfGiven(WriteIfGiven(style, names, value), style, names, value)
    ensures SameOutside(WriteIfGiven(style, names, value), style, names)
  {
    SetAllSpec(style, names, value);
  }

  /** The inline style names `customStyle` may write. */
  const Touched: seq<string> := ["visibility"] + DurationAliases + DelayAliases + IterationAliases + NameAliases

  /**
   * The inline style `customStyle` leaves: `visibility`, then the duration, delay and iteration
   * aliases when their attribute is non-empty, then the animation-name aliases.
   */
  function Styled(style: map<string, string>, hidden: bool, duration: string, delay: string,
                  iteration: string, name: string): map<string, string>
  {
    var s1 := style["visibility" := if hidden then "hidden" else "visible"];
    var s2 := WriteIfGiven(s1, DurationAliases, duration);
    var s3 := WriteIfGiven(s2, DelayAliases, delay);
    var s4 := WriteIfGiven(s3, IterationAliases, iteration);
    SetAll(s4, NameAliases, name)
  }

  /** Property keys that start with a lower-case 'a', as all of `customStyle`'s do. */
  predicate AnimationKey(key: string) {
    key != [] && key[0] == 'a'
  }

  /** Distinct animation keys have disjoint alias lists, none of which is `visibility`. */
  lemma AliasesApart(k1: string, k2: string)
    requires AnimationKey(k1) && AnimationKey(k2) && k1 != k2
    ensures forall n :: n in Aliases(k1) ==> n !in Aliases(k2) && n != "visibility"
  {
    var c1, c2 := Capitalize(k1), Capitalize(k2);
    assert k1 == [k1[0]] + c1[1..] && k2 == [k2[0]] + c2[1..];
    assert ("moz" + c1)[0] == 'm' && ("webkit" + c1)[0] == 'w';
    assert ("moz" + c2)[0] == 'm' && ("webkit" + c2)[0] == 'w';
    assert "visibility"[0] == 'v';
    assert ("moz" + c1)[3..] == c1 && ("moz" + c2)[3..] == c2;
    assert ("webkit" + c1)[6..] == c1 && ("webkit" + c2)[6..] == c2;
  }

  /** What `customStyle` leaves at one property name. */
  lemma StyledAt(style: map<string, string>, hidden: bool, duration: string, delay: string,
                 iteration: string, name: string, n: string)
    ensures var r := Styled(style, hidden, duration, delay, iteration, name);
            && (n == "visibility" ==> SetAt(r, n, if hidden then "hidden" else "visible"))
            && (n in NameAliases ==> SetAt(r, n, name))
            && (n in DurationAliases ==> WrittenAt(r, style, n, duration))
            && (n in DelayAliases ==> WrittenAt(r, style, n, delay))
            && (n in IterationAliases ==> WrittenAt(r, style, n, iteration))
            && (n !in Touched ==> SameAt(r, style, n))
  {
    var d, l, i, a := "animationDuration", "animationDelay", "animationIterationCount", "animationName";
    AliasesApart(d, l); AliasesApart(d, i); AliasesApart(d, a);
    AliasesApart(l, d); AliasesApart(l, i); AliasesApart(l, a);
    AliasesApart(i, d); AliasesApart(i, l); AliasesApart(i, a);
    AliasesApart(a, d); AliasesApart(a, l); AliasesApart(a, i);
    var s1 := style["visibility" := if hidden then "hidden" else "visible"];
    AnimationAliases();
    var s2 := WriteIfGiven(s1, DurationAliases, duration);
    var s3 := WriteIfGiven(s2, DelayAliases, delay);
    var s4 := WriteIfGiven(s3, IterationAliases, iteration);
    var r := SetAll(s4, NameAliases, name);
    WriteIfGivenSpec(s1, DurationAliases, duration);
    WriteIfGivenSpec(s2, DelayAliases, delay);
    WriteIfGivenSpec(s3, IterationAliases, iteration);
    SetAllSpec(s4, NameAliases, name);
    assert r == Styled(style, hidden, duration, delay, iteration, name);
    if n in Aliases(d) {
      assert WrittenAt(s2, s1, n, duration);
      assert SameAt(s3, s2, n) && SameAt(s4, s3, n) && SameAt(r, s4, n);
    } else if n in Aliases(l) {
      assert WrittenAt(s3, s2, n, delay);
      assert SameAt(s2, s1, n) && SameAt(s4, s3, n) && SameAt(r, s4, n);
    } else if n in Aliases(i) {
      assert WrittenAt(s4, s3, n, iteration);
      assert SameAt(s2, s1, n) && SameAt(s3, s2, n) && SameAt(r, s4, n);
    } else if n !in Aliases(a) {
      assert SameAt(s2, s1, n) && SameAt(s3, s2, n) && SameAt(s4, s3, n) && SameAt(r, s4, n);
    }
  }

  /** What `customStyle` leaves in the inline style, property by property. */
  lemma StyledEntries(style: map<string, string>, hidden: bool, duration: string, delay: string,
                      iteration: string, name: string)
    ensures var r := Styled(style, hidden, duration, delay, iteration, name);
            && SetAt(r, "visibility", if hidden then "hidden" else "visible")
            && AllSet(r, NameAliases, name)
            && WrittenIfGiven(r, style, DurationAliases, duration)
            && WrittenIfGiven(r, style, DelayAliases, delay)
            && WrittenIfGiven(r, style, IterationAliases, iteration)
            && SameOutside(r, style, Touched)
  {
    StyledAt(style, hidden, duration, delay, iteration, name, "visibility");
    forall n {
      StyledAt(style, hidden, duration, delay, iteration, name, n);
    }
  }

  /** `WOW.prototype.animationName`'s last step: the computed value "none" reads as "". */
  function NormalizedName(computed: string): (r: string)
    ensures r == "" <==> computed == "" || computed == "none"
    ensures r != "" ==> r == computed
  {
    if computed == "none" then "" else computed
  }

  /**
   * The style restoration law: hiding writes "none" under every animation-name alias, and
   * showing with the name read at hide time writes that name back under every alias.
   */
  lemma HideThenShowRestoresName(style: map<string, string>, duration: string, delay: string,
                                 iteration: string, authored: string)
    ensures var hidden := Styled(style, true, duration, delay, iteration, "none");
            var shown := Styled(hidden, false, duration, delay, iteration, NormalizedName(authored));
            && SetAt(hidden, "visibility", "hidden") && SetAt(shown, "visibility", "visible")
            && AllSet(hidden, NameAliases, "none")
            && AllSet(shown, NameAliases, NormalizedName(authored))
  {
    StyledEntries(style, true, duration, delay, iteration, "none");
    StyledEntries(Styled(style, true, duration, delay, iteration, "none"), false, duration, delay, iteration, NormalizedName(authored));
  }

  /** `show`'s class string: the old one, a space, the animate class. */
  function ShownClassName(className: string, animateClass: string): string {
    className + " " + animateClass
  }

  /** The animation-end event types `show` subscribes to. */
  const AnimationEndEvents: seq<string> := ["animationend", "oanimationend", "webkitAnimationEnd", "MSAnimationEnd"]

  /** `resetAnimation`'s guard: the lower-cased event type contains "animationend". */
  predicate IsAnimationEnd(eventType: string) {
    Contains(Lower(eventType), "animationend")
  }

  /** `resetAnimation`'s class string: the first occurrence of the animate class removed, then trimmed. */
  function ResetClassName(eventType: string, className: string, animateClass: string): string {
    if IsAnimationEnd(eventType) then Trim(RemoveFirst(className, animateClass)) else className
  }

  /** `show`'s class string keeps the old one as its prefix and ends with the animate class. */
  lemma ShownClassNameExtends(className: string, animateClass: string)
    ensures var r := ShownClassName(className, animateClass);
            r[..|className|] == className && r[|className|..] == " " + animateClass
  {
  }

  /** An event type with a window that lower-cases to "animationend" passes the guard. */
  lemma WindowPasses(t: string, i: int)
    requires 0 <= i && i + |"animationend"| <= |t|
    requires forall k :: 0 <= k < |"animationend"| ==> LowerChar(t[i + k]) == "animationend"[k]
    ensures IsAnimationEnd(t)
  {
    LowerWindow(t, i, "animationend");
    ContainsIff(Lower(t), "animationend");
  }

  /** `animationend` passes the guard. */
  lemma PlainEndPasses()
    ensures IsAnimationEnd("animationend")
  {
    WindowPasses("animationend", 0);
  }

  /** `oanimationend` passes the guard. */
  lemma OperaEndPasses()
    ensures IsAnimationEnd("oanimationend")
  {
    WindowPasses("oanimationend", 1);
  }

  /** `webkitAnimationEnd` passes the guard. */
  lemma WebkitEndPasses()
    ensures IsAnimationEnd("webkitAnimationEnd")
  {
    WindowPasses("webkitAnimationEnd", 6);
  }

  /** `MSAnimationEnd` passes the guard. */
  lemma MsEndPasses()
    ensures IsAnimationEnd("MSAnimationEnd")
  {
    WindowPasses("MSAnimationEnd", 2);
  }

  /** Every event type `show` subscribes to passes `resetAnimation`'s guard. */
  lemma AnimationEndEventsPass()
    ensures forall t :: t in AnimationEndEvents ==> IsAnimationEnd(t)
  {
    PlainEndPasses();
    OperaEndPasses();
    WebkitEndPasses();
    MsEndPasses();
  }

  /** A window of `s` that covers a space cannot spell a word without spaces. */
  lemma SpaceBlocksMatch(s: string, word: string, q: int, space: int)
    requires ' ' !in word && 0 <= q <= space < q + |word| <= |s| && s[space] == ' '
    ensures !MatchesAt(s, word, q)
  {
    assert s[q..q + |word|][space - q] == ' ';
  }

  /**
   * Resetting after showing gives back the trimmed original class string, provided the animate
   * class is a non-empty word without spaces that the original string does not already contain.
   */
  lemma ResetUndoesShow(eventType: string, className: string, animateClass: string)
    requires IsAnimationEnd(eventType)
    requires animateClass != [] && ' ' !in animateClass && !Contains(className, animateClass)
    ensures ResetClassName(eventType, ShownClassName(className, animateClass), animateClass) == Trim(className)
  {
    var s := ShownClassName(className, animateClass);
    var at := |className| + 1;
    assert s[at..at + |animateClass|] == animateClass;
    assert MatchesAt(s, animateClass, at);
    forall q | 0 <= q < at
      ensures !MatchesAt(s, animateClass, q)
    {
      if q + |animateClass| <= |className| {
        assert s[q..q + |animateClass|] == className[q..q + |animateClass|];
        assert !MatchesAt(className, animateClass, q);
      } else {
        SpaceBlocksMatch(s, animateClass, q, |className|);
      }
    }
    var i := IndexOf(s, animateClass);
    assert i == at;
    assert RemoveFirst(s, animateClass) == className + " ";
    TrimIgnoresTrailingWhite(className, ' ');
  }

  /**
   * Why `ResetUndoesShow` needs a class string without the animate class: when the class string
   * already contains it, the reset strips that earlier occurrence and the one `show` appended stays.
   */
  lemma ResetStripsEarlierOccurrence(eventType: string, className: string, animateClass: string)
    requires IsAnimationEnd(eventType) && Contains(className, animateClass)
    ensures ResetClassName(eventType, ShownClassName(className, animateClass), animateClass)
            == Trim(RemoveFirst(className, animateClass) + " " + animateClass)
  {
    var tail := " " + animateClass;
    assert ShownClassName(className, animateClass) == className + tail;
    RemoveFirstExtend(className, tail, animateClass);
    assert RemoveFirst(className, animateClass) + tail == RemoveFirst(className, animateClass) + " " + animateClass;
  }
}
