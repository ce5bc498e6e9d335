/** The dictionaries the analyzer fills with `counts[key] = (counts[key] || 0) + 1`: an
    occurrence count per key, whose keys are listed (by `Object.entries` or
    `Map.prototype.keys`) in the order they were first added. Keys that name a property
    of `Object.prototype`, which a plain object inherits, are counted like any other. */
module Counting {
  import opened StringOrder

  /** The distinct keys of `xs`, in the order they first occur. An empty key is never
      added: the counting loops skip it (`if (e.source)`, `if (e.thread)`) or never see
      one. */
  function Keys<T>(xs: seq<T>, key: T -> string): seq<string> {
    if xs == [] then []
    else
      var ks := Keys(xs[..|xs| - 1], key);
      var k := key(xs[|xs| - 1]);
      if k == [] || k in ks then ks else ks + [k]
  }

  /** The number of elements of `xs` whose key is `k`. */
  function CountOf<T>(xs: seq<T>, key: T -> string, k: string): (c: nat)
    ensures c <= |xs|
  {
    if xs == [] then 0
    else CountOf(xs[..|xs| - 1], key, k) + (if key(xs[|xs| - 1]) == k then 1 else 0)
  }

  /** The counting loop: after it, the dictionary holds exactly the non-empty keys of
      `xs`, each with the number of its occurrences, and lists them in first-occurrence
      order. */
  method CountBy<T>(xs: seq<T>, key: T -> string) returns (keys: seq<string>, counts: map<string, nat>)
    ensures keys == Keys(xs, key)
    ensures forall k :: k in counts <==> k in keys
    ensures forall k :: k in counts ==> counts[k] == CountOf(xs, key, k)
  {
    keys, counts := [], map[];
    for i := 0 to |xs|
      invariant keys == Keys(xs[..i], key)
      invariant forall k :: k in counts <==> k in keys
      invariant forall k :: k in counts ==> counts[k] == CountOf(xs[..i], key, k)
    {
      assert xs[..i + 1][..i] == xs[..i];
      var k := key(xs[i]);
      assert forall j :: CountOf(xs[..i + 1], key, j) == CountOf(xs[..i], key, j) + (if k == j then 1 else 0);
      if k == [] {
        KeysMember(xs[..i], key, k);
      } else if k in counts {
        counts := counts[k := counts[k] + 1];
      } else {
        KeysMember(xs[..i], key, k);
        keys := keys + [k];
        counts := counts[k := 1];
      }
    }
    assert xs[..|xs|] == xs;
  }

  /** A key occurs exactly when some element has it. */
  lemma {:induction false} CountOfPositive<T>(xs: seq<T>, key: T -> string, k: string)
    ensures CountOf(xs, key, k) > 0 <==> exists i :: 0 <= i < |xs| && key(xs[i]) == k
  {
    if xs != [] {
      var init := xs[..|xs| - 1];
      CountOfPositive(init, key, k);
      if CountOf(init, key, k) > 0 {
        var i :| 0 <= i < |init| && key(init[i]) == k;
        assert key(xs[i]) == k;
      }
      if exists i :: 0 <= i < |xs| && key(xs[i]) == k {
        var i :| 0 <= i < |xs| && key(xs[i]) == k;
        if i < |init| {
          assert key(init[i]) == k;
        }
      }
    }
  }

  /** The keys listed are exactly the non-empty keys that occur. */
  lemma {:induction false} KeysMember<T>(xs: seq<T>, key: T -> string, k: string)
    ensures k in Keys(xs, key) <==> k != [] && CountOf(xs, key, k) > 0
  {
    if xs != [] {
      KeysMember(xs[..|xs| - 1], key, k);
    }
  }

  /** No key is listed twice. */
  lemma {:induction false} KeysDistinct<T>(xs: seq<T>, key: T -> string)
    ensures Distinct(Keys(xs, key))
  {
    if xs != [] {
      KeysDistinct(xs[..|xs| - 1], key);
    }
  }

  /** Two different keys count different elements, so their counts add up to at most
      the number of elements. */
  lemma {:induction false} CountsDisjoint<T>(xs: seq<T>, key: T -> string, a: string, b: string)
    requires a != b
    ensures CountOf(xs, key, a) + CountOf(xs, key, b) <= |xs|
  {
    if xs != [] {
      CountsDisjoint(xs[..|xs| - 1], key, a, b);
    }
  }
}
