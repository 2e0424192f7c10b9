/**
 * The de-duplicating ingestion of `doSync`: which boxes of a query result are appended to the
 * tracking lists, given the boxes already seen.
 */
module Tracking {
  import opened Seqs

  /**
   * The boxes a pass over `scope` appends, in scope order: each box that is neither in `seen`
   * nor appended earlier in the same pass.
   */
  ghost function NewBoxes<T>(seen: seq<T>, scope: seq<T>): seq<T> {
    if scope == [] then []
    else
      var p := NewBoxes(seen, scope[..|scope| - 1]);
      var x := scope[|scope| - 1];
      if x in seen || x in p then p else p + [x]
  }

  /** One more box of the scope: appended unless seen before or already appended. */
  lemma NewBoxesStep<T>(seen: seq<T>, scope: seq<T>, i: int)
    requires 0 <= i < |scope|
    ensures var p := NewBoxes(seen, scope[..i]);
            NewBoxes(seen, scope[..i + 1]) == if scope[i] in seen || scope[i] in p then p else p + [scope[i]]
  {
    assert scope[..i + 1][..i] == scope[..i];
  }

  /** A box is appended iff it is in the scope and was not seen before. */
  lemma {:induction false} NewBoxesMembers<T>(seen: seq<T>, scope: seq<T>, x: T)
    ensures x in NewBoxes(seen, scope) <==> x in scope && x !in seen
  {
    if scope != [] {
      var init := scope[..|scope| - 1];
      NewBoxesMembers(seen, init, x);
      assert scope == init + [scope[|scope| - 1]];
    }
  }

  /** No box is appended twice. */
  lemma {:induction false} NewBoxesDistinct<T>(seen: seq<T>, scope: seq<T>)
    ensures Distinct(NewBoxes(seen, scope))
  {
    if scope != [] {
      var p := NewBoxes(seen, scope[..|scope| - 1]);
      NewBoxesDistinct(seen, scope[..|scope| - 1]);
      if !(scope[|scope| - 1] in seen || scope[|scope| - 1] in p) {
        DistinctSnoc(p, scope[|scope| - 1]);
      }
    }
  }

  /** A scope whose boxes were all seen appends nothing. */
  lemma {:induction false} NewBoxesOfSeen<T>(seen: seq<T>, scope: seq<T>)
    requires forall x :: x in scope ==> x in seen
    ensures NewBoxes(seen, scope) == []
  {
    if scope != [] {
      var init := scope[..|scope| - 1];
      assert forall x :: x in init ==> x in scope;
      NewBoxesOfSeen(seen, init);
      assert scope[|scope| - 1] in scope;
    }
  }

  /** Ingesting two scopes one after the other appends what ingesting their concatenation appends. */
  lemma {:induction false} NewBoxesConcat<T>(seen: seq<T>, a: seq<T>, b: seq<T>)
    ensures NewBoxes(seen, a + b) == NewBoxes(seen, a) + NewBoxes(seen + NewBoxes(seen, a), b)
  {
    if b == [] {
      assert a + b == a;
    } else {
      var init, x := b[..|b| - 1], b[|b| - 1];
      var seen2 := seen + NewBoxes(seen, a);
      NewBoxesConcat(seen, a, init);
      assert (a + b)[..|a + b| - 1] == a + init;
      var q := NewBoxes(seen2, init);
      assert x in seen2 <==> x in seen || x in NewBoxes(seen, a);
      if !(x in seen2 || x in q) {
        AppendAssoc(NewBoxes(seen, a), q, [x]);
      }
    }
  }

  /** Reporting the same boxes a second time ingests nothing more. */
  lemma IngestIdempotent<T>(seen: seq<T>, scope: seq<T>)
    ensures NewBoxes(seen + NewBoxes(seen, scope), scope) == []
  {
    var all := seen + NewBoxes(seen, scope);
    forall x | x in scope
      ensures x in all
    {
      NewBoxesMembers(seen, scope, x);
    }
    NewBoxesOfSeen(all, scope);
  }
}
