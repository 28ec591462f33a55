/** The aggregation rule that open risk, daily realized PnL and position
    lifecycles share: one unsafe item blocks the whole assessment, and no partial
    sum is ever produced. `Assess` is the order-free reference definition; the
    loops in `OpenRisk`, `History` and `PositionLifecycle` are proved against it. */
module FailClosed {
  import opened Common

  /** What one item contributes: nothing, an amount, or a reason to block. */
  datatype Verdict<+R> = Skipped | Counted(amount: real) | Unsafe(reason: R)

  datatype Assessment<+R> =
    | Ready(total: real)
    | Blocked(reasons: seq<R>, tickets: seq<nat>)

  /** The result models reject a repeated unsafe ticket by raising. */
  datatype Fault = DuplicateUnsafeTickets

  function IsUnsafe<T, R>(classify: T -> Verdict<R>): T -> bool {
    x => classify(x).Unsafe?
  }

  function AmountOf<T, R>(classify: T -> Verdict<R>): T -> real {
    x => if classify(x).Counted? then classify(x).amount else 0.0
  }

  function ReasonSet<T(!new, ==), R(==)>(items: seq<T>, classify: T -> Verdict<R>): set<R> {
    set x | x in items && classify(x).Unsafe? :: classify(x).reason
  }

  /** The members of `reasons` in the declaration order of their enum. */
  function Canonical<R(==)>(order: seq<R>, reasons: set<R>): seq<R> {
    Filter(order, r => r in reasons)
  }

  function Assess<T(!new, ==), R(==)>(items: seq<T>, classify: T -> Verdict<R>, ticket: T -> nat, order: seq<R>):
    Assessment<R>
  {
    var unsafe := Filter(items, IsUnsafe(classify));
    if unsafe == [] then Ready(Sum(items, AmountOf(classify)))
    else Blocked(Canonical(order, ReasonSet(items, classify)), Map(unsafe, ticket))
  }

  function Validated<R>(a: Assessment<R>): Result<Assessment<R>, Fault> {
    if a.Blocked? && !Distinct(a.tickets) then Failure(DuplicateUnsafeTickets) else Success(a)
  }

  function UnsafeTickets<T, R>(items: seq<T>, classify: T -> Verdict<R>, ticket: T -> nat): seq<nat> {
    Map(Filter(items, IsUnsafe(classify)), ticket)
  }

  /** What a loop has gathered after the given items. */
  ghost predicate Gathered<T(!new), R>(items: seq<T>, classify: T -> Verdict<R>, ticket: T -> nat,
                                       contributions: seq<real>, reasons: set<R>, tickets: seq<nat>)
  {
    && Sum(contributions, Identity) == Sum(items, AmountOf(classify))
    && reasons == ReasonSet(items, classify)
    && tickets == UnsafeTickets(items, classify, ticket)
  }

  lemma ReasonsSnoc<T(!new), R>(items: seq<T>, x: T, classify: T -> Verdict<R>)
    ensures ReasonSet(items + [x], classify) ==
            ReasonSet(items, classify) + if classify(x).Unsafe? then {classify(x).reason} else {}
  {
    var before, after := ReasonSet(items, classify), ReasonSet(items + [x], classify);
    assert forall y :: y in items + [x] <==> y in items || y == x;
    forall r | r in after
      ensures r in before || (classify(x).Unsafe? && r == classify(x).reason)
    {
      var y :| y in items + [x] && classify(y).Unsafe? && classify(y).reason == r;
    }
    if classify(x).Unsafe? {
      assert x in items + [x];
      assert classify(x).reason in after;
    }
  }

  lemma TicketsSnoc<T, R>(items: seq<T>, x: T, classify: T -> Verdict<R>, ticket: T -> nat)
    ensures UnsafeTickets(items + [x], classify, ticket) ==
            UnsafeTickets(items, classify, ticket) + if classify(x).Unsafe? then [ticket(x)] else []
  {
    FilterAppend(items, [x], IsUnsafe(classify));
    FilterOne(x, IsUnsafe(classify));
  }

  lemma GatherUnsafe<T(!new), R>(items: seq<T>, x: T, classify: T -> Verdict<R>, ticket: T -> nat,
                                 contributions: seq<real>, reasons: set<R>, tickets: seq<nat>)
    requires Gathered(items, classify, ticket, contributions, reasons, tickets) && classify(x).Unsafe?
    ensures Gathered(items + [x], classify, ticket, contributions, reasons + {classify(x).reason}, tickets + [ticket(x)])
  {
    ReasonsSnoc(items, x, classify);
    TicketsSnoc(items, x, classify, ticket);
    SumSnoc(items, x, AmountOf(classify));
  }

  lemma GatherSkipped<T(!new), R>(items: seq<T>, x: T, classify: T -> Verdict<R>, ticket: T -> nat,
                                  contributions: seq<real>, reasons: set<R>, tickets: seq<nat>)
    requires Gathered(items, classify, ticket, contributions, reasons, tickets) && classify(x).Skipped?
    ensures Gathered(items + [x], classify, ticket, contributions, reasons, tickets)
  {
    ReasonsSnoc(items, x, classify);
    TicketsSnoc(items, x, classify, ticket);
    SumSnoc(items, x, AmountOf(classify));
  }

  lemma GatherCounted<T(!new), R>(items: seq<T>, x: T, classify: T -> Verdict<R>, ticket: T -> nat,
                                  contributions: seq<real>, reasons: set<R>, tickets: seq<nat>)
    requires Gathered(items, classify, ticket, contributions, reasons, tickets) && classify(x).Counted?
    ensures Gathered(items + [x], classify, ticket, contributions + [classify(x).amount], reasons, tickets)
  {
    ReasonsSnoc(items, x, classify);
    TicketsSnoc(items, x, classify, ticket);
    SumSnoc(items, x, AmountOf(classify));
    SumSnoc(contributions, classify(x).amount, Identity);
  }

  /** What the loop concludes from everything it gathered. */
  lemma GatheredConclusion<T(!new), R>(items: seq<T>, classify: T -> Verdict<R>, ticket: T -> nat, order: seq<R>,
                                       contributions: seq<real>, reasons: set<R>, tickets: seq<nat>)
    requires Gathered(items, classify, ticket, contributions, reasons, tickets)
    ensures Assess(items, classify, ticket, order) ==
            if reasons != {} then Blocked(Canonical(order, reasons), tickets)
            else Ready(Sum(contributions, Identity))
  {
    ReadyIffAllSafe(items, classify, ticket, order);
  }

  /** READY exactly when no considered item is unsafe. */
  lemma ReadyIffAllSafe<T(!new), R>(items: seq<T>, classify: T -> Verdict<R>, ticket: T -> nat, order: seq<R>)
    ensures Assess(items, classify, ticket, order).Ready? <==> forall x :: x in items ==> !classify(x).Unsafe?
    ensures ReasonSet(items, classify) == {} <==> Filter(items, IsUnsafe(classify)) == []
  {
    var unsafe := Filter(items, IsUnsafe(classify));
    FilterMembers(items, IsUnsafe(classify));
    if unsafe != [] {
      assert unsafe[0] in unsafe;
      assert classify(unsafe[0]).reason in ReasonSet(items, classify);
    }
  }

  ghost predicate SameUpToOrder<R>(a: Assessment<R>, b: Assessment<R>) {
    match a
    case Ready(total) => b == Ready(total)
    case Blocked(reasons, tickets) =>
      b.Blocked? && b.reasons == reasons && multiset(b.tickets) == multiset(tickets)
  }

  /** Every reordering of the input gives the same outcome, the same canonical
      reasons, the same total and the same unsafe tickets with multiplicity. */
  lemma OrderIrrelevant<T(!new), R>(a: seq<T>, b: seq<T>, classify: T -> Verdict<R>, ticket: T -> nat, order: seq<R>)
    requires multiset(a) == multiset(b)
    ensures SameUpToOrder(Assess(a, classify, ticket, order), Assess(b, classify, ticket, order))
    ensures Validated(Assess(a, classify, ticket, order)).Success? <==>
            Validated(Assess(b, classify, ticket, order)).Success?
  {
    PermutationMembers(a, b);
    ReadyIffAllSafe(a, classify, ticket, order);
    ReadyIffAllSafe(b, classify, ticket, order);
    SumPermutation(a, b, AmountOf(classify));
    assert ReasonSet(a, classify) == ReasonSet(b, classify);
    FilterPermutation(a, b, IsUnsafe(classify));
    var ta := Map(Filter(a, IsUnsafe(classify)), ticket);
    var tb := Map(Filter(b, IsUnsafe(classify)), ticket);
    MapPermutation(Filter(a, IsUnsafe(classify)), Filter(b, IsUnsafe(classify)), ticket);
    DistinctPermutation(ta, tb);
  }

  lemma {:induction false} MapPermutation<T(!new)>(a: seq<T>, b: seq<T>, f: T -> nat)
    requires multiset(a) == multiset(b)
    ensures multiset(Map(a, f)) == multiset(Map(b, f))
  {
    PermutationMembers(a, b);
    if a != [] {
      var n := |a| - 1;
      assert a[n] in b;
      var i :| 0 <= i < |b| && b[i] == a[n];
      RemoveAlike(a, b, i);
      assert Without(a, n) == a[..n];
      MapPermutation(a[..n], Without(b, i), f);
      MapWithout(a, n, f);
      MapWithout(b, i, f);
    }
  }

  lemma MapWithout<T>(s: seq<T>, i: nat, f: T -> nat)
    requires i < |s|
    ensures multiset(Map(s, f)) == multiset(Map(Without(s, i), f)) + multiset{f(s[i])}
  {
    var m := Map(s, f);
    MultisetWithout(m, i);
    assert Map(Without(s, i), f) == Without(m, i);
  }

  lemma DistinctPermutation(a: seq<nat>, b: seq<nat>)
    requires multiset(a) == multiset(b)
    ensures Distinct(a) <==> Distinct(b)
  {
    DistinctIffSingle(a);
    DistinctIffSingle(b);
  }

  lemma {:induction false} DistinctIffSingle(s: seq<nat>)
    ensures Distinct(s) <==> forall x :: multiset(s)[x] <= 1
  {
    if s != [] {
      var init, last := s[..|s| - 1], s[|s| - 1];
      assert s == init + [last];
      assert multiset(s) == multiset(init) + multiset{last};
      DistinctIffSingle(init);
      if Distinct(s) {
        assert last !in init;
        assert multiset(init)[last] == 0;
      } else if Distinct(init) {
        assert last in init;
        assert multiset(s)[last] >= 2;
      } else {
        var x :| multiset(init)[x] > 1;
        assert multiset(s)[x] >= multiset(init)[x];
      }
    }
  }
}
