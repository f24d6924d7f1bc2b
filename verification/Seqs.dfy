/** Order-preserving list functions, recursive so that proofs can follow the list. */
module Seqs {
  import opened Wrappers

  function Map<T, U>(f: T -> U, s: seq<T>): (r: seq<U>)
    ensures |r| == |s|
    ensures forall i :: 0 <= i < |s| ==> r[i] == f(s[i])
  {
    if s == [] then [] else [f(s[0])] + Map(f, s[1..])
  }

  function Filter<T(!new)>(p: T -> bool, s: seq<T>): (r: seq<T>)
    ensures forall x :: x in r <==> x in s && p(x)
  {
    if s == [] then []
    else if p(s[0]) then [s[0]] + Filter(p, s[1..])
    else Filter(p, s[1..])
  }

  /** The values `pick` finds, in order. */
  function Picked<T, U>(pick: T -> Option<U>, s: seq<T>): seq<U> {
    if s == [] then []
    else
      match pick(s[0])
      case Some(u) => [u] + Picked(pick, s[1..])
      case None => Picked(pick, s[1..])
  }

  /** The elements `pick` passes over, in order. */
  function Unpicked<T, U>(pick: T -> Option<U>, s: seq<T>): seq<T> {
    if s == [] then []
    else
      match pick(s[0])
      case Some(_) => Unpicked(pick, s[1..])
      case None => [s[0]] + Unpicked(pick, s[1..])
  }

  lemma PickedStep<T, U>(pick: T -> Option<U>, x: T, s: seq<T>)
    ensures pick(x).Some? ==> Picked(pick, [x] + s) == [pick(x).value] + Picked(pick, s)
                              && Unpicked(pick, [x] + s) == Unpicked(pick, s)
    ensures pick(x).None? ==> Picked(pick, [x] + s) == Picked(pick, s)
                              && Unpicked(pick, [x] + s) == [x] + Unpicked(pick, s)
  {
    assert ([x] + s)[1..] == s;
  }

  lemma {:induction false} PickedAppend<T, U>(pick: T -> Option<U>, a: seq<T>, b: seq<T>)
    ensures Picked(pick, a + b) == Picked(pick, a) + Picked(pick, b)
    ensures Unpicked(pick, a + b) == Unpicked(pick, a) + Unpicked(pick, b)
  {
    if a == [] {
      assert a + b == b;
    } else {
      hide Picked;
      hide Unpicked;
      var x, rest := a[0], a[1..];
      assert a == [x] + rest && a + b == [x] + (rest + b);
      PickedStep(pick, x, rest);
      PickedStep(pick, x, rest + b);
      PickedAppend(pick, rest, b);
      if pick(x).Some? {
        Assoc([pick(x).value], Picked(pick, rest), Picked(pick, b));
      } else {
        Assoc([x], Unpicked(pick, rest), Unpicked(pick, b));
      }
    }
  }

  lemma {:induction false} UnpickedExactly<T(!new), U>(pick: T -> Option<U>, s: seq<T>)
    ensures forall x :: x in Unpicked(pick, s) <==> x in s && pick(x).None?
  {
    if s != [] {
      UnpickedExactly(pick, s[1..]);
    }
  }

  lemma PickedSnoc<T, U>(pick: T -> Option<U>, a: seq<T>, x: T)
    ensures pick(x).Some? ==> Picked(pick, a + [x]) == Picked(pick, a) + [pick(x).value]
                              && Unpicked(pick, a + [x]) == Unpicked(pick, a)
    ensures pick(x).None? ==> Picked(pick, a + [x]) == Picked(pick, a)
                              && Unpicked(pick, a + [x]) == Unpicked(pick, a) + [x]
  {
    PickedAppend(pick, a, [x]);
  }

  lemma Assoc<T>(a: seq<T>, b: seq<T>, c: seq<T>)
    ensures (a + b) + c == a + (b + c)
  {
  }

  lemma MapAppend<T, U>(f: T -> U, a: seq<T>, b: seq<T>)
    ensures Map(f, a + b) == Map(f, a) + Map(f, b)
  {
  }

  lemma FilterStep<T(!new)>(p: T -> bool, x: T, s: seq<T>)
    ensures Filter(p, [x] + s) == if p(x) then [x] + Filter(p, s) else Filter(p, s)
  {
    assert ([x] + s)[1..] == s;
  }

  lemma {:induction false} FilterAppend<T(!new)>(p: T -> bool, a: seq<T>, b: seq<T>)
    ensures Filter(p, a + b) == Filter(p, a) + Filter(p, b)
  {
    if a == [] {
      assert a + b == b;
    } else {
      assert (a + b)[1..] == a[1..] + b;
      FilterAppend(p, a[1..], b);
    }
  }

  /** Two filters that exclude each other split a list without losing or reordering anything. */
  lemma {:induction false} FilterPartition<T(!new)>(p: T -> bool, q: T -> bool, s: seq<T>)
    requires forall x :: x in s ==> p(x) != q(x)
    ensures multiset(Filter(p, s)) + multiset(Filter(q, s)) == multiset(s)
  {
    if s != [] {
      assert s == [s[0]] + s[1..];
      FilterPartition(p, q, s[1..]);
    }
  }

  lemma {:induction false} FilterNone<T(!new)>(p: T -> bool, s: seq<T>)
    requires forall x :: x in s ==> !p(x)
    ensures Filter(p, s) == []
  {
    if s != [] {
      FilterNone(p, s[1..]);
    }
  }
}
