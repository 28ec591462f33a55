/** Shared vocabulary: optional values, fallible results, and the sequence
    operations (`Filter`, `Sum`, ascending id lists) every other module states
    its specifications with. Both sequence operations are defined from the
    right, in step with loops that walk a list from the left. */
module Common {

  datatype Option<+T> = None | Some(value: T)

  /** `Failure` stands for a Python exception that leaves the function. */
  datatype Result<+T, +E> = Success(value: T) | Failure(error: E) {
    predicate IsFailure() { Failure? }

    function PropagateFailure<U>(): Result<U, E>
      requires Failure?
    {
      Failure(error)
    }

    function Extract(): T
      requires Success?
    {
      value
    }
  }

  /** Every quantity, volume and price the models constrain with `ge=0`. */
  type Amount = r: real | r >= 0.0 witness 0.0

  function Identity(r: real): real { r }

  function Min(a: real, b: real): real { if a <= b then a else b }

  function Max(a: real, b: real): real { if a >= b then a else b }

  function Abs(a: real): real { if a < 0.0 then -a else a }

  // ---- real arithmetic, with every product named ------------------------------

  lemma ScaleOrder(a: real, b: real, scale: real, x: real, y: real)
    requires scale > 0.0 && a <= b && x == a * scale && y == b * scale
    ensures x <= y
  {
  }

  lemma ScaleStrictly(a: real, b: real, scale: real, x: real, y: real)
    requires scale > 0.0 && a < b && x == a * scale && y == b * scale
    ensures x < y
  {
  }

  lemma QuotientTimes(a: real, b: real)
    requires b > 0.0
    ensures (a / b) * b == a
  {
  }

  lemma QuotientAtMost(a: real, b: real, c: real, bound: real)
    requires b > 0.0 && bound == c * b && a <= bound
    ensures a / b <= c
  {
    var q := a / b;
    QuotientTimes(a, b);
    if q > c {
      ScaleStrictly(c, q, b, bound, a);
    }
  }

  lemma QuotientAtLeast(a: real, b: real, c: real, bound: real)
    requires b > 0.0 && bound == c * b && bound <= a
    ensures c <= a / b
  {
    var q := a / b;
    QuotientTimes(a, b);
    if q < c {
      ScaleStrictly(q, c, b, a, bound);
    }
  }

  /** Money by ticks is money by price distance, once scaled by the tick size. */
  lemma TicksInMoney(ticks: real, size: real, distance: real, value: real, volume: real, perVolume: real, amount: real)
    requires ticks * size == distance && perVolume == ticks * value && amount == perVolume * volume
    ensures amount * size == distance * value * volume
  {
    var money := value * volume;
    assert amount == ticks * money;
    assert amount * size == (ticks * size) * money;
  }

  // ---- sequences ----------------------------------------------------------------

  function Filter<T>(s: seq<T>, keep: T -> bool): seq<T> {
    if s == [] then []
    else
      var last := s[|s| - 1];
      Filter(s[..|s| - 1], keep) + if keep(last) then [last] else []
  }

  function Sum<T>(s: seq<T>, weight: T -> real): real {
    if s == [] then 0.0 else Sum(s[..|s| - 1], weight) + weight(s[|s| - 1])
  }

  function Map<T, U>(s: seq<T>, f: T -> U): (r: seq<U>)
    ensures |r| == |s|
    ensures forall i :: 0 <= i < |s| ==> r[i] == f(s[i])
  {
    seq(|s|, i requires 0 <= i < |s| => f(s[i]))
  }

  lemma {:induction false} FilterMembers<T(!new)>(s: seq<T>, keep: T -> bool)
    ensures forall x :: x in Filter(s, keep) <==> x in s && keep(x)
  {
    if s != [] {
      FilterMembers(s[..|s| - 1], keep);
    }
  }

  lemma {:induction false} FilterAppend<T>(a: seq<T>, b: seq<T>, keep: T -> bool)
    ensures Filter(a + b, keep) == Filter(a, keep) + Filter(b, keep)
  {
    if b == [] {
      assert a + b == a;
    } else {
      var last := b[|b| - 1];
      assert (a + b)[..|a + b| - 1] == a + b[..|b| - 1];
      FilterAppend(a, b[..|b| - 1], keep);
    }
  }

  lemma FilterOne<T>(x: T, keep: T -> bool)
    ensures Filter([x], keep) == if keep(x) then [x] else []
  {
    var s := [x];
    assert s[..|s| - 1] == [];
    assert Filter(s[..|s| - 1], keep) == [];
  }

  lemma {:induction false} FilterNothing<T>(s: seq<T>, keep: T -> bool)
    requires forall x :: x in s ==> !keep(x)
    ensures Filter(s, keep) == []
  {
    if s != [] {
      FilterNothing(s[..|s| - 1], keep);
    }
  }

  lemma {:induction false} FilterFilter<T>(s: seq<T>, outer: T -> bool, keep: T -> bool)
    requires forall x :: x in s && keep(x) ==> outer(x)
    ensures Filter(Filter(s, outer), keep) == Filter(s, keep)
  {
    if s != [] {
      var init, last := s[..|s| - 1], s[|s| - 1];
      FilterFilter(init, outer, keep);
      var tail := if outer(last) then [last] else [];
      FilterAppend(Filter(init, outer), tail, keep);
      assert Filter(tail, keep) == if keep(last) then [last] else [] by {
        if outer(last) {
          assert tail[..0] == [];
        }
      }
    }
  }

  /** Filtering keeps or drops every occurrence of a value alike. */
  lemma {:induction false} FilterCount<T(!new)>(s: seq<T>, keep: T -> bool, x: T)
    ensures multiset(Filter(s, keep))[x] == if keep(x) then multiset(s)[x] else 0
  {
    if s != [] {
      var init, last := s[..|s| - 1], s[|s| - 1];
      assert s == init + [last];
      assert multiset(s) == multiset(init) + multiset{last};
      FilterCount(init, keep, x);
    }
  }

  lemma {:induction false} FilterPermutation<T(!new)>(a: seq<T>, b: seq<T>, keep: T -> bool)
    requires multiset(a) == multiset(b)
    ensures multiset(Filter(a, keep)) == multiset(Filter(b, keep))
  {
    var fa, fb := multiset(Filter(a, keep)), multiset(Filter(b, keep));
    forall x: T
      ensures fa[x] == fb[x]
    {
      FilterCount(a, keep, x);
      FilterCount(b, keep, x);
    }
  }

  lemma PermutationMembers<T(!new)>(a: seq<T>, b: seq<T>)
    requires multiset(a) == multiset(b)
    ensures |a| == |b|
    ensures forall x :: x in a <==> x in b
  {
    assert |multiset(a)| == |multiset(b)|;
    forall x: T
      ensures x in a <==> x in b
    {
      assert x in a <==> x in multiset(a);
      assert x in b <==> x in multiset(b);
    }
  }

  lemma {:induction false} SumAppend<T>(a: seq<T>, b: seq<T>, weight: T -> real)
    ensures Sum(a + b, weight) == Sum(a, weight) + Sum(b, weight)
  {
    if b == [] {
      assert a + b == a;
    } else {
      assert (a + b)[..|a + b| - 1] == a + b[..|b| - 1];
      SumAppend(a, b[..|b| - 1], weight);
    }
  }

  lemma SumSnoc<T>(s: seq<T>, x: T, weight: T -> real)
    ensures Sum(s + [x], weight) == Sum(s, weight) + weight(x)
  {
    assert (s + [x])[..|s|] == s;
  }

  function Without<T>(s: seq<T>, i: nat): seq<T>
    requires i < |s|
  {
    s[..i] + s[i + 1..]
  }

  /** Removing the element at `i` lowers the sum by exactly its weight. */
  lemma {:induction false} SumRemove<T>(s: seq<T>, i: nat, weight: T -> real)
    requires i < |s|
    ensures Sum(s, weight) == Sum(Without(s, i), weight) + weight(s[i])
  {
    assert s == s[..i] + ([s[i]] + s[i + 1..]);
    SumAppend(s[..i], [s[i]] + s[i + 1..], weight);
    SumAppend([s[i]], s[i + 1..], weight);
    SumAppend(s[..i], s[i + 1..], weight);
    assert Sum([s[i]], weight) == weight(s[i]) by {
      assert [s[i]][..0] == [];
    }
  }

  lemma MultisetWithout<T>(s: seq<T>, i: nat)
    requires i < |s|
    ensures multiset(s) == multiset(Without(s, i)) + multiset{s[i]}
  {
    assert s == s[..i] + ([s[i]] + s[i + 1..]);
  }

  lemma RemoveAlike<T>(a: seq<T>, b: seq<T>, i: nat)
    requires a != [] && i < |b| && multiset(a) == multiset(b) && b[i] == a[|a| - 1]
    ensures multiset(a[..|a| - 1]) == multiset(Without(b, i))
  {
    var n := |a| - 1;
    assert a == a[..n] + [a[n]];
    MultisetWithout(b, i);
    assert multiset(a[..n]) == multiset(a) - multiset{a[n]};
    assert multiset(Without(b, i)) == multiset(b) - multiset{b[i]};
  }

  lemma {:induction false} SumPermutation<T(!new)>(a: seq<T>, b: seq<T>, weight: T -> real)
    requires multiset(a) == multiset(b)
    ensures Sum(a, weight) == Sum(b, weight)
  {
    PermutationMembers(a, b);
    if a != [] {
      var n := |a| - 1;
      assert a[n] in b;
      var i :| 0 <= i < |b| && b[i] == a[n];
      RemoveAlike(a, b, i);
      SumRemove(b, i, weight);
      SumPermutation(a[..n], Without(b, i), weight);
    }
  }

  lemma {:induction false} SumFilter<T>(s: seq<T>, keep: T -> bool, weight: T -> real, gated: T -> real)
    requires forall x :: x in s ==> gated(x) == if keep(x) then weight(x) else 0.0
    ensures Sum(Filter(s, keep), weight) == Sum(s, gated)
  {
    if s != [] {
      var init, last := s[..|s| - 1], s[|s| - 1];
      SumFilter(init, keep, weight, gated);
      SumAppend(Filter(init, keep), if keep(last) then [last] else [], weight);
      if keep(last) {
        assert [last][..0] == [];
      }
    }
  }

  lemma {:induction false} SumAdd<T>(s: seq<T>, f: T -> real, g: T -> real, both: T -> real)
    requires forall x :: x in s ==> both(x) == f(x) + g(x)
    ensures Sum(s, both) == Sum(s, f) + Sum(s, g)
  {
    if s != [] {
      SumAdd(s[..|s| - 1], f, g, both);
    }
  }

  lemma {:induction false} SumZero<T>(s: seq<T>, weight: T -> real)
    requires forall x :: x in s ==> weight(x) == 0.0
    ensures Sum(s, weight) == 0.0
  {
    if s != [] {
      SumZero(s[..|s| - 1], weight);
    }
  }

  lemma {:induction false} SumSame<T>(s: seq<T>, f: T -> real, g: T -> real)
    requires forall x :: x in s ==> f(x) == g(x)
    ensures Sum(s, f) == Sum(s, g)
  {
    if s != [] {
      SumSame(s[..|s| - 1], f, g);
    }
  }

  lemma {:induction false} SumScale<T>(s: seq<T>, f: T -> real, g: T -> real, factor: real)
    requires forall x :: x in s ==> g(x) == factor * f(x)
    ensures Sum(s, g) == factor * Sum(s, f)
  {
    if s != [] {
      SumScale(s[..|s| - 1], f, g, factor);
    }
  }

  lemma {:induction false} SumMonotone<T>(s: seq<T>, f: T -> real, g: T -> real)
    requires forall x :: x in s ==> f(x) <= g(x)
    ensures Sum(s, f) <= Sum(s, g)
  {
    if s != [] {
      SumMonotone(s[..|s| - 1], f, g);
    }
  }

  /** Weighing the images is weighing the originals through the map. */
  lemma {:induction false} SumMap<T, U>(s: seq<T>, f: T -> U, weight: U -> real, through: T -> real)
    requires forall x :: x in s ==> through(x) == weight(f(x))
    ensures Sum(Map(s, f), weight) == Sum(s, through)
  {
    if s != [] {
      assert Map(s, f)[..|s| - 1] == Map(s[..|s| - 1], f);
      SumMap(s[..|s| - 1], f, weight, through);
    }
  }

  predicate Ascending(ids: seq<nat>) {
    forall i, j :: 0 <= i < j < |ids| ==> ids[i] < ids[j]
  }

  /** An ascending list is determined by its members. */
  lemma {:induction false} AscendingUnique(a: seq<nat>, b: seq<nat>)
    requires Ascending(a) && Ascending(b) && forall x :: x in a <==> x in b
    ensures a == b
  {
    assert b != [] ==> b[0] in a;
    if a != [] {
      var n, m := |a| - 1, |b| - 1;
      assert a[n] in b && (m >= 0 ==> b[m] in a);
      assert a[n] == b[m];
      forall x: nat
        ensures x in a[..n] <==> x in b[..m]
      {
        assert x in a[..n] <==> x in a && x != a[n];
        assert x in b[..m] <==> x in b && x != b[m];
      }
      AscendingUnique(a[..n], b[..m]);
      assert a == a[..n] + [a[n]] && b == b[..m] + [b[m]];
    }
  }

  predicate IsLeast(m: nat, ids: set<nat>) {
    m in ids && forall x :: x in ids ==> m <= x
  }

  lemma {:induction false} LeastExists(ids: set<nat>)
    requires ids != {}
    ensures exists m :: IsLeast(m, ids)
  {
    var a :| a in ids;
    var others := ids - {a};
    assert forall x :: x in ids ==> x == a || x in others;
    if others == {} {
      assert IsLeast(a, ids);
    } else {
      LeastExists(others);
      var m :| IsLeast(m, others);
      assert IsLeast(if a <= m then a else m, ids);
    }
  }

  function Least(ids: set<nat>): (m: nat)
    requires ids != {}
    ensures IsLeast(m, ids)
  {
    LeastExists(ids);
    var m :| IsLeast(m, ids);
    m
  }

  /** Python's `sorted` of a set of ids. */
  function SortedIds(ids: set<nat>): (r: seq<nat>)
    ensures Ascending(r)
    ensures forall x :: x in r <==> x in ids
    ensures |r| == |ids|
  {
    if ids == {} then []
    else
      var m := Least(ids);
      [m] + SortedIds(ids - {m})
  }

  predicate Distinct<T(==)>(s: seq<T>) {
    forall i, j :: 0 <= i < j < |s| ==> s[i] != s[j]
  }
}
