/** Sequence helpers: order-preserving selection (Python list comprehensions
    with an `if`, and append-in-a-loop filters) and Python's substring test
    `t in s`. */
module Seqs {

  /** The indices of `s` whose element satisfies `p`, in increasing order. */
  function Positions<T>(s: seq<T>, p: T -> bool): (ix: seq<nat>)
    ensures forall k :: 0 <= k < |ix| ==> ix[k] < |s|
    ensures forall k, l :: 0 <= k < l < |ix| ==> ix[k] < ix[l]
  {
    if s == [] then []
    else Positions(s[..|s| - 1], p) + (if p(s[|s| - 1]) then [|s| - 1] else [])
  }

  /** Every selected index holds an element satisfying `p`. */
  lemma {:induction false} PositionsSound<T>(s: seq<T>, p: T -> bool)
    ensures forall k :: 0 <= k < |Positions(s, p)| ==> p(s[Positions(s, p)[k]])
  {
    if s != [] {
      PositionsSound(s[..|s| - 1], p);
    }
  }

  /** Every index whose element satisfies `p` is selected. */
  lemma {:induction false} PositionsComplete<T>(s: seq<T>, p: T -> bool, i: nat)
    requires i < |s| && p(s[i])
    ensures i in Positions(s, p)
  {
    var n := |s| - 1;
    if i < n {
      PositionsComplete(s[..n], p, i);
    }
  }

  /** Extending a prefix by one element extends its positions by that
      element's index when it satisfies `p`. */
  lemma PositionsSnoc<T>(s: seq<T>, p: T -> bool, i: nat)
    requires i < |s|
    ensures Positions(s[..i + 1], p) == Positions(s[..i], p) + (if p(s[i]) then [i] else [])
  {
    assert s[..i + 1][..i] == s[..i];
  }

  /** The elements of `s` satisfying `p`, in their original order: the
      element at position k is the one at the k-th selected index. */
  function Filter<T>(s: seq<T>, p: T -> bool): (r: seq<T>)
    ensures |r| == |Positions(s, p)|
    ensures forall k :: 0 <= k < |r| ==> r[k] == s[Positions(s, p)[k]]
  {
    if s == [] then []
    else Filter(s[..|s| - 1], p) + (if p(s[|s| - 1]) then [s[|s| - 1]] else [])
  }

  /** Membership in a filtered sequence, both directions. */
  lemma FilterMembership<T>(s: seq<T>, p: T -> bool, x: T)
    ensures x in Filter(s, p) <==> x in s && p(x)
  {
    var r := Filter(s, p);
    if x in r {
      var k :| 0 <= k < |r| && r[k] == x;
    }
    if x in s && p(x) {
      var i :| 0 <= i < |s| && s[i] == x;
      PositionsComplete(s, p, i);
      var ix := Positions(s, p);
      var k :| 0 <= k < |ix| && ix[k] == i;
      assert r[k] == x;
    }
  }

  /** The indices of `s` whose element satisfies `p`, as a set. */
  ghost function Hits<T>(s: seq<T>, p: T -> bool): set<nat> {
    set i: nat | i < |s| && p(s[i])
  }

  /** As many positions are selected as there are elements satisfying `p`. */
  lemma {:induction false} PositionsCount<T>(s: seq<T>, p: T -> bool)
    ensures |Positions(s, p)| == |Hits(s, p)|
  {
    if s != [] {
      var n := |s| - 1;
      var init := s[..n];
      PositionsCount(init, p);
      var before, after := Hits(init, p), Hits(s, p);
      assert n !in before;
      forall i: nat | i < n ensures (i in after <==> i in before) {
        assert init[i] == s[i];
      }
      if p(s[n]) {
        assert after == before + {n};
      } else {
        assert after == before;
      }
    }
  }

  /** Python's `t in s` on strings: `t` occurs in `s` as a contiguous slice. */
  predicate Contains<T(==)>(s: seq<T>, t: seq<T>)
    decreases |s|
  {
    |t| <= |s| && (s[..|t|] == t || Contains(s[1..], t))
  }

  /** `t` occurs in `s` starting at index `i`. */
  ghost predicate OccursAt<T>(s: seq<T>, t: seq<T>, i: int)
  {
    0 <= i && i + |t| <= |s| && s[i..i + |t|] == t
  }

  /** The recursive scan agrees with the definition by an occurrence index. */
  lemma {:induction false} ContainsIffOccurrence<T>(s: seq<T>, t: seq<T>)
    ensures Contains(s, t) <==> exists i :: OccursAt(s, t, i)
    decreases |s|
  {
    if |t| <= |s| {
      if s[..|t|] == t {
        assert OccursAt(s, t, 0);
      } else {
        ContainsIffOccurrence(s[1..], t);
        if Contains(s[1..], t) {
          var i :| OccursAt(s[1..], t, i);
          assert s[i + 1..i + 1 + |t|] == s[1..][i..i + |t|];
          assert OccursAt(s, t, i + 1);
        }
        if i :| OccursAt(s, t, i) {
          assert i != 0;
          assert s[1..][i - 1..i - 1 + |t|] == s[i..i + |t|];
          assert OccursAt(s[1..], t, i - 1);
        }
      }
    } else {
      if i :| OccursAt(s, t, i) {
        assert false;
      }
    }
  }
}
