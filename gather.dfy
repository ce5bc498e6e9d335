/** The shape every detector loop shares: one step per hour (or minute, or source) that
    pushes zero or more alerts, so that the alerts are the concatenation of the pushes. */
module Gather {

  /** The pushes of all the steps, in step order. */
  function Concat<T>(xss: seq<seq<T>>): seq<T> {
    if xss == [] then [] else Concat(xss[..|xss| - 1]) + xss[|xss| - 1]
  }

  /** One more step appends its pushes. */
  lemma ConcatSnoc<T>(xss: seq<seq<T>>, i: nat)
    requires i < |xss|
    ensures Concat(xss[..i + 1]) == Concat(xss[..i]) + xss[i]
  {
    assert xss[..i + 1][..i] == xss[..i];
  }

  /** The invariant of a loop that appends the pushes of step `i` to those of the earlier steps. */
  lemma ConcatPush<T>(xss: seq<seq<T>>, i: nat, acc: seq<T>, pushed: seq<T>)
    requires i < |xss| && acc == Concat(xss[..i]) && pushed == xss[i]
    ensures acc + pushed == Concat(xss[..i + 1])
  {
    ConcatSnoc(xss, i);
  }

  /** An element is pushed exactly when some step pushes it. */
  lemma {:induction false} ConcatMember<T>(xss: seq<seq<T>>, x: T)
    ensures x in Concat(xss) <==> exists i :: 0 <= i < |xss| && x in xss[i]
  {
    if xss != [] {
      var init := xss[..|xss| - 1];
      ConcatMember(init, x);
      if x in Concat(xss) && x !in xss[|xss| - 1] {
        var i :| 0 <= i < |init| && x in init[i];
        assert x in xss[i];
      }
      if exists i :: 0 <= i < |xss| && x in xss[i] {
        var i :| 0 <= i < |xss| && x in xss[i];
        if i < |init| {
          assert x in init[i];
        }
      }
    }
  }

  /** The number of pushes is the sum of the numbers of each step. */
  function Count<T>(xss: seq<seq<T>>): nat {
    if xss == [] then 0 else Count(xss[..|xss| - 1]) + |xss[|xss| - 1]|
  }

  lemma {:induction false} ConcatLength<T>(xss: seq<seq<T>>)
    ensures |Concat(xss)| == Count(xss)
  {
    if xss != [] {
      ConcatLength(xss[..|xss| - 1]);
    }
  }

  /** When step `i` pushes at most one element, whose key is `base + i`, the keys of the
      pushes strictly increase and stay in `base .. base + |xss| - 1`. */
  lemma {:induction false} ConcatIncreasing<T>(xss: seq<seq<T>>, key: T -> int, base: int)
    requires forall i :: 0 <= i < |xss| ==> |xss[i]| <= 1
    requires forall i, x :: 0 <= i < |xss| && x in xss[i] ==> key(x) == base + i
    ensures var r := Concat(xss);
            (forall x :: x in r ==> base <= key(x) < base + |xss|)
            && (forall i, j :: 0 <= i < j < |r| ==> key(r[i]) < key(r[j]))
  {
    if xss != [] {
      var init, last := xss[..|xss| - 1], xss[|xss| - 1];
      ConcatIncreasing(init, key, base);
      var a := Concat(init);
      var r := Concat(xss);
      assert r == a + last;
      forall x | x in r ensures base <= key(x) < base + |xss| {
        if x !in a {
          assert x in last;
        }
      }
      forall i, j | 0 <= i < j < |r| ensures key(r[i]) < key(r[j]) {
        if j < |a| {
          assert r[i] == a[i] && r[j] == a[j];
        } else {
          assert r[i] == a[i] && a[i] in a;
          assert r[j] == last[j - |a|] && last[j - |a|] in last;
        }
      }
    }
  }

  /** When every step pushes at most one element and no step pushes after one that did,
      at most one element is pushed. */
  lemma {:induction false} ConcatAtMostOne<T>(xss: seq<seq<T>>)
    requires forall i :: 0 <= i < |xss| ==> |xss[i]| <= 1
    requires forall i, j :: 0 <= i < j < |xss| && xss[i] != [] ==> xss[j] == []
    ensures |Concat(xss)| <= 1
  {
    if xss != [] {
      var init := xss[..|xss| - 1];
      ConcatAtMostOne(init);
      if Concat(init) != [] {
        ConcatMember(init, Concat(init)[0]);
        var i :| 0 <= i < |init| && Concat(init)[0] in init[i];
        assert xss[i] != [];
      }
    }
  }
}
