/**
 * The helpers of the `Util` class of js/wow.js that the controller uses: the option merge
 * (`extend`) and the mobile user-agent test (`isMobile`).
 */
module Util {
  import opened Strings

  /** A JavaScript value as it can appear in an options object. */
  datatype Value = Undefined | Null | Bool(b: bool) | Num(n: int) | Str(s: string) | Ref(id: nat)

  /** `target[key] == null`: the key is missing, or holds `null` or `undefined` (loose equality). */
  predicate IsNullish(m: map<string, Value>, key: string) {
    key !in m || m[key].Null? || m[key].Undefined?
  }

  /** The options object that `extend` mutates in place and returns. */
  class Options {
    var entries: map<string, Value>
  }

  /** What `extend` leaves in its target: each own key of `source` fills a nullish slot of `target`. */
  function Merged(target: map<string, Value>, source: map<string, Value>): (r: map<string, Value>)
    ensures r.Keys == target.Keys + source.Keys
  {
    map k | k in target.Keys + source.Keys :: if k in source && IsNullish(target, k) then source[k] else target[k]
  }

  /** `Util.prototype.extend`: copies every own property of `source` whose slot in `target` is nullish. */
  method Extend(target: Options, source: map<string, Value>) returns (r: Options)
    modifies target
    ensures r == target
    ensures target.entries == Merged(old(target.entries), source)
  {
    var todo := source.Keys;
    while todo != {}
      invariant todo <= source.Keys
      invariant target.entries == Merged(old(target.entries), source - todo)
      decreases todo
    {
      var key :| key in todo;
      ghost var before := source - todo;
      assert key !in before;
      if IsNullish(target.entries, key) {
        target.entries := target.entries[key := source[key]];
      }
      todo := todo - {key};
      assert source - todo == before[key := source[key]];
    }
    assert source - todo == source;
    return target;
  }

  /** A caller-supplied value that is not nullish is never overwritten. */
  lemma MergedKeepsSupplied(target: map<string, Value>, source: map<string, Value>, key: string)
    requires !IsNullish(target, key)
    ensures key in Merged(target, source) && Merged(target, source)[key] == target[key]
  {
  }

  /** A nullish or missing slot takes the source's value. */
  lemma MergedFillsNullish(target: map<string, Value>, source: map<string, Value>, key: string)
    requires key in source && IsNullish(target, key)
    ensures key in Merged(target, source) && Merged(target, source)[key] == source[key]
  {
  }

  /** Merging the same source a second time changes nothing. */
  lemma MergedIdempotent(target: map<string, Value>, source: map<string, Value>)
    ensures Merged(Merged(target, source), source) == Merged(target, source)
  {
    var once := Merged(target, source);
    var twice := Merged(once, source);
    forall k | k in once.Keys
      ensures twice[k] == once[k]
    {
      if k in source && IsNullish(once, k) {
        assert IsNullish(target, k);
      }
    }
  }

  /** The controller's defaults (`WOW.prototype.defaults`). */
  function DefaultOptions(): map<string, Value> {
    map["boxClass" := Str("wow"), "animateClass" := Str("animated"), "offset" := Num(0),
        "mobile" := Bool(true), "live" := Bool(true), "callback" := Null, "scrollContainer" := Null]
  }

  /** The alternatives of the case-insensitive user-agent pattern, in pattern order. */
  const MobileTokens: seq<string> :=
    ["Android", "webOS", "iPhone", "iPad", "iPod", "BlackBerry", "IEMobile", "Opera Mini"]

  /**
   * Some token of `tokens`, upper-cased, occurs in `u`. Matching upper-cased ASCII is exact
   * for these tokens: the case folding of a non-unicode `/i` pattern never maps a character
   * outside ASCII onto an ASCII one.
   */
  function AnyTokenIn(u: string, tokens: seq<string>): (r: bool)
    ensures r <==> exists i, p :: 0 <= i < |tokens| && MatchesAt(u, Upper(tokens[i]), p)
  {
    if tokens == [] then false
    else
      var rest := AnyTokenIn(u, tokens[1..]);
      ContainsIff(u, Upper(tokens[0]));
      assert rest ==> exists i, p :: 0 <= i < |tokens| && MatchesAt(u, Upper(tokens[i]), p) by {
        if rest {
          var i, p :| 0 <= i < |tokens[1..]| && MatchesAt(u, Upper(tokens[1..][i]), p);
          assert tokens[1..][i] == tokens[i + 1];
        }
      }
      assert (exists i, p :: 0 <= i < |tokens| && MatchesAt(u, Upper(tokens[i]), p)) ==>
             Contains(u, Upper(tokens[0])) || rest by {
        if exists i, p :: 0 <= i < |tokens| && MatchesAt(u, Upper(tokens[i]), p) {
          var i, p :| 0 <= i < |tokens| && MatchesAt(u, Upper(tokens[i]), p);
          if i > 0 {
            assert tokens[1..][i - 1] == tokens[i];
          }
        }
      }
      Contains(u, Upper(tokens[0])) || rest
  }

  /** `Util.prototype.isMobile`: the user agent contains one of the tokens, ignoring case. */
  function IsMobile(userAgent: string): (r: bool)
    ensures r <==> exists i, p :: 0 <= i < |MobileTokens| && MatchesAt(Upper(userAgent), Upper(MobileTokens[i]), p)
  {
    AnyTokenIn(Upper(userAgent), MobileTokens)
  }

  /** Case does not matter: lower-casing the user agent leaves the verdict unchanged. */
  lemma IsMobileIgnoresCase(userAgent: string)
    ensures IsMobile(Lower(userAgent)) == IsMobile(userAgent)
  {
    assert Upper(Lower(userAgent)) == Upper(userAgent);
  }
}
