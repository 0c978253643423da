/** The meaning of `ORDER BY time ASC, id ASC LIMIT n` over a finite set of rows,
    shared by the nonce pruner and the outbox claimer. */
module SqlOrder {
  import opened Basics

  datatype Slot = Slot(time: int, id: int)

  predicate Before(a: Slot, b: Slot) {
    a.time < b.time || (a.time == b.time && a.id < b.id)
  }

  lemma {:induction false} FirstExists(s: set<Slot>) returns (first: Slot)
    requires s != {}
    ensures first in s
    ensures forall x :: x in s && x != first ==> Before(first, x)
    decreases |s|
  {
    first :| first in s;
    var rest := s - {first};
    if rest == {} {
      assert s == {first};
    } else {
      var other := FirstExists(rest);
      assert forall x :: x in s ==> x == first || x in rest;
      if Before(other, first) {
        first := other;
      }
    }
  }

  function First(s: set<Slot>): (first: Slot)
    requires s != {}
    ensures first in s
    ensures forall x :: x in s && x != first ==> Before(first, x)
  {
    assert exists f :: f in s && forall x :: x in s && x != f ==> Before(f, x) by {
      var f := FirstExists(s);
    }
    var f :| f in s && forall x :: x in s && x != f ==> Before(f, x);
    f
  }

  /** Taking the first slot and then the best of the rest. */
  lemma FirstThenRest(s: set<Slot>, rest: seq<Slot>)
    requires s != {}
    requires forall i :: 0 <= i < |rest| ==> rest[i] in s - {First(s)}
    requires forall i, j :: 0 <= i < j < |rest| ==> Before(rest[i], rest[j])
    requires forall i, x :: 0 <= i < |rest| && x in s - {First(s)} && x !in rest ==> Before(rest[i], x)
    ensures var taken := [First(s)] + rest;
            && (forall i :: 0 <= i < |taken| ==> taken[i] in s)
            && (forall i, j :: 0 <= i < j < |taken| ==> Before(taken[i], taken[j]))
            && (forall i, x :: 0 <= i < |taken| && x in s && x !in taken ==> Before(taken[i], x))
  {
  }

  /** The first `limit` slots in order. */
  function OrderLimit(s: set<Slot>, limit: nat): (taken: seq<Slot>)
    ensures |taken| == Min(limit, |s|)
    ensures forall i :: 0 <= i < |taken| ==> taken[i] in s
    ensures forall i, j :: 0 <= i < j < |taken| ==> Before(taken[i], taken[j])
    ensures forall i, x :: 0 <= i < |taken| && x in s && x !in taken ==> Before(taken[i], x)
    decreases limit
  {
    if limit == 0 || s == {} then []
    else
      var first := First(s);
      var rest := OrderLimit(s - {first}, limit - 1);
      assert |s - {first}| == |s| - 1;
      FirstThenRest(s, rest);
      [first] + rest
  }

  // ----- Counting ---------------------------------------------------------------------

  lemma SubsetCount<T>(a: set<T>, b: set<T>)
    requires a <= b
    ensures |a| <= |b|
  {
    assert b == a + (b - a);
  }

  lemma {:induction false} ElementCount<T>(s: seq<T>)
    requires forall i, j :: 0 <= i < j < |s| ==> s[i] != s[j]
    ensures |set x | x in s| == |s|
    decreases |s|
  {
    if s != [] {
      var front, last := s[..|s| - 1], s[|s| - 1];
      ElementCount(front);
      assert (set x | x in s) == (set x | x in front) + {last};
    }
  }
}
