/** What every run of a tick's limit-order queue guarantees when increases are on the side their order
    waits on and the price passes the tick only when its queue is empty: nobody over-claims, the units and
    the tokens paid out are covered by what came in, each order's units are conserved up to one unit per
    segment, and settling early or often never changes what an order is paid. And the two runs, with an
    increase on the other side and with orders passed by the price, in which they are not. */
module LimitOrderTheorems {
  import opened Types
  import opened Arith
  import opened LimitOrder
  import opened LimitOrderRun
  import opened LimitOrderInvariants

  // ---- No over-claim ----

  /** After any run every order can settle; the unit claims of the part-filled cohort sum to at
      most what is left in the tick, those of the unmatched orders to exactly the tick's orders. */
  lemma NoOverClaim(index: int, current: int, q: Quote, steps: seq<Step>, i: nat)
    requires q.Valid() && i < |Run(index, current, q, steps).accounts|
    ensures var s := Run(index, current, q, steps);
            var a := s.accounts[i];
            && a.order.snapshot > 0 && Settle(a.order, s.tick, q.Facing(a.zeroForOne)).Ok?
            && Sum(s.accounts, s.tick.phase, Base) == s.tick.orders
            && (s.tick.phase > 0 ==>
                  s.tick.ratio as real * Weight(s.accounts, s.tick.phase - 1) <= s.tick.remaining as real)
  {
    hide Apply, Sum, Weight, Settle, SettleAccount, Quote.Out, AccountInv, Of;
    RunKeepsCore(index, current, q, steps);
    var s := Run(index, current, q, steps);
    var a := s.accounts[i];
    AccountFacts(s, q, i);
    SettleAccountInv(a, s.tick, q.Facing(a.zeroForOne));
    SettleOk(a, s.tick, q.Facing(a.zeroForOne));
  }

  /** So neither cap of a decrease binds: a decrease that goes through takes out exactly what was
      asked for or, if that is less, all that settling leaves unfilled. */
  lemma DecreaseTakesWhatIsUnfilled(index: int, current: int, q: Quote, steps: seq<Step>, i: nat, amount: nat)
    requires q.Valid() && i < |Run(index, current, q, steps).accounts|
    requires var s := Run(index, current, q, steps);
             var a := s.accounts[i];
             Decrease(a.order, s.tick, q.Facing(a.zeroForOne), amount).Ok?
    ensures var s := Run(index, current, q, steps);
            var a := s.accounts[i];
            && Settle(a.order, s.tick, q.Facing(a.zeroForOne)).Ok?
            && var settled := Settle(a.order, s.tick, q.Facing(a.zeroForOne)).value.order;
               && settled.filled <= settled.total
               && Decrease(a.order, s.tick, q.Facing(a.zeroForOne), amount).value.amount
                  == Min(amount, settled.total - settled.filled)
  {
    hide *;
    var s := Run(index, current, q, steps);
    NoOverClaim(index, current, q, steps, i);
    RunKeepsCore(index, current, q, steps);
    UnfilledWithinTick(s, q, i);
    DecreaseAmountIs(s.accounts[i].order, s.tick, q.Facing(s.accounts[i].zeroForOne), amount);
  }

  /** What settling leaves unfilled is still in the tick. */
  lemma UnfilledWithinTick(s: State, q: Quote, i: nat)
    requires Core(s, q) && i < |s.accounts|
    ensures var a := s.accounts[i];
            && Settle(a.order, s.tick, q.Facing(a.zeroForOne)).Ok?
            && var settled := Settle(a.order, s.tick, q.Facing(a.zeroForOne)).value.order;
               && settled.filled <= settled.total && settled.phase == a.order.phase <= s.tick.phase <= U64_MAX
               && (a.order.phase == s.tick.phase ==> settled.total - settled.filled <= s.tick.orders)
               && (a.order.phase + 1 == s.tick.phase ==> settled.total - settled.filled <= s.tick.remaining)
               && (a.order.phase + 2 <= s.tick.phase ==> settled.total == settled.filled)
  {
    hide AccountInv, Settle, SettleAccount, Core, Of, Sum, Weight, WeightOf, Unfilled, Credited, Quote.Num,
        Quote.Den;
    CoreValid(s, q);
    var a := s.accounts[i];
    var facing := q.Facing(a.zeroForOne);
    AccountFacts(s, q, i);
    SettleAccountInv(a, s.tick, facing);
    SettleOk(a, s.tick, facing);
    Recorded(a, s.tick, facing);
    Recorded(SettleAccount(a, s.tick, facing).value, s.tick, facing);
    BaseIsBase(a);
    if a.order.phase + 1 == s.tick.phase { ClaimWithinCohort(s, q, i); }
  }

  lemma BaseIsBase(a: Account)
    ensures Of(Base, a) == a.order.base
  {}

  lemma Recorded(a: Account, t: Tick, q: Quote)
    requires q.Valid() && AccountInv(a, t, q)
    ensures a.order.phase <= t.phase && a.order.filled <= a.order.total
    ensures a.order.phase == t.phase ==> a.order.total - a.order.filled == Of(Base, a)
  {
    hide Quote.Out, Quote.Num, Quote.Den, Unfilled, Credited;
  }

  lemma DecreaseAmountIs(o: Order, t: Tick, q: Quote, amount: nat)
    requires q.Valid() && Decrease(o, t, q, amount).Ok? && Settle(o, t, q).Ok?
    requires var settled := Settle(o, t, q).value.order;
             && settled.filled <= settled.total && settled.phase == o.phase <= t.phase <= U64_MAX
             && (o.phase == t.phase ==> settled.total - settled.filled <= t.orders)
             && (o.phase + 1 == t.phase ==> settled.total - settled.filled <= t.remaining)
             && (o.phase + 2 <= t.phase ==> settled.total == settled.filled)
    ensures var settled := Settle(o, t, q).value.order;
            Decrease(o, t, q, amount).value.amount == Min(amount, settled.total - settled.filled)
  {
    hide Settle, AmountAllowed;
  }

  // ---- Solvency in units ----

  predicate AllInv(accounts: seq<Account>, t: Tick, q: Quote)
    requires q.Valid()
  {
    forall i :: 0 <= i < |accounts| ==> AccountInv(accounts[i], t, q.Facing(accounts[i].zeroForOne))
  }

  lemma CoreAllInv(s: State, q: Quote)
    requires Core(s, q)
    ensures AllInv(s.accounts, s.tick, q)
    ensures forall i :: 0 <= i < |s.accounts| ==> s.accounts[i].order.phase <= s.tick.phase
  {
    hide AccountInv, Sum, Weight, CohortInv, PartFilledInv;
    forall i | 0 <= i < |s.accounts|
      ensures AccountInv(s.accounts[i], s.tick, q.Facing(s.accounts[i].zeroForOne))
      ensures s.accounts[i].order.phase <= s.tick.phase
    {
      AccountFacts(s, q, i);
    }
  }

  /** Units credited so far plus what the cohort can still claim are within what it put in. */
  lemma {:induction false} UnitsAndClaims(accounts: seq<Account>, t: Tick, q: Quote, k: nat)
    requires q.Valid() && k + 1 == t.phase && AllInv(accounts, t, q)
    ensures Sum(accounts, k, Units) as real + t.ratio as real * Weight(accounts, k) <= Sum(accounts, k, Credit) as real
    decreases |accounts|
  {
    hide AccountInv, Of, WeightOf;
    if accounts != [] {
      var last, rest := accounts[|accounts| - 1], accounts[..|accounts| - 1];
      UnitsAndClaims(rest, t, q, k);
      if last.order.phase == k {
        UnitsAndClaim(last, t, q.Facing(last.zeroForOne));
        AddClaims(t.ratio as real, Weight(rest, k), WeightOf(last.order), Sum(rest, k, Units) as real,
            Of(Units, last) as real,
                  Sum(rest, k, Credit) as real, Of(Credit, last) as real);
      }
    }
  }

  lemma AddClaims(ratio: real, w: real, w': real, units: real, units': real, credit: real, credit': real)
    requires units + ratio * w <= credit && units' + ratio * w' <= credit'
    ensures (units + units') + ratio * (w + w') <= credit + credit'
  {}

  lemma UnitsAndClaim(a: Account, t: Tick, q: Quote)
    requires q.Valid() && AccountInv(a, t, q) && a.order.phase + 1 == t.phase
    ensures Of(Units, a) as real + t.ratio as real * WeightOf(a.order) <= Of(Credit, a) as real
  {
    hide Quote.Out, Quote.Num, Quote.Den, Unfilled, Credited, WeightOf;
    WeightIs(a.order);
    ClaimIsExact(a.order, t.ratio, WeightOf(a.order));
  }

  lemma ClaimIsExact(o: Order, ratio: nat, weight: real)
    requires 0 < o.snapshot && weight == o.base as real / o.snapshot as real
    ensures ratio as real * weight <= (o.base - Credited(o.base, ratio, o.snapshot)) as real
  {
    hide Credited, Unfilled;
    ExactClaim(o.base, ratio, o.snapshot);
  }

  lemma {:induction false} UnitsWithinCredit(accounts: seq<Account>, t: Tick, q: Quote, k: nat)
    requires q.Valid() && AllInv(accounts, t, q)
    ensures Sum(accounts, k, Units) <= Sum(accounts, k, Credit)
    ensures k == t.phase ==> Sum(accounts, k, Units) == 0
    decreases |accounts|
  {
    if accounts != [] {
      hide AccountInv, Of;
      UnitWithinCredit(accounts[|accounts| - 1], t, q.Facing(accounts[|accounts| - 1].zeroForOne));
      UnitsWithinCredit(accounts[..|accounts| - 1], t, q, k);
    }
  }

  lemma UnitWithinCredit(a: Account, t: Tick, q: Quote)
    requires q.Valid() && AccountInv(a, t, q)
    ensures Of(Units, a) <= Of(Credit, a)
    ensures a.order.phase == t.phase ==> Of(Units, a) == 0
  {}

  lemma FromReals(units: nat, consumed: nat, matches: nat, size: nat)
    requires units as real < consumed as real + matches as real * (size as real / Q64 as real)
    ensures units * Q64 < consumed * Q64 + matches * size
  {
    var n, x, q := matches as real, size as real / Q64 as real, Q64 as real;
    RealAssoc3(n, x, q);
    assert x * q == size as real;
    var nx := n * x;
    ScaleBelow(units as real, consumed as real, nx, q);
    assert (matches * size) as real == n * size as real;
    assert (units * Q64) as real == units as real * q && (consumed * Q64) as real == consumed as real * q;
  }

  lemma ScaleBelow(a: real, b: real, c: real, q: real)
    requires a < b + c && 0.0 < q
    ensures a * q < b * q + c * q
  {
    RealDistribute(q, b, c);
    RealDistribute(q, a, 0.0);
    var d := b + c - a;
    assert d * q > 0.0;
    RealDistribute(q, b + c, a);
  }

  /** However the cohort's members open, withdraw and settle between matches, all units ever
      credited stay strictly below the units consumed plus one truncation of the ratio per match;
      once the cohort is complete they are within the units consumed. */
  lemma Solvency(index: int, current: int, q: Quote, steps: seq<Step>, k: nat)
    requires q.Valid() && k < |Run(index, current, q, steps).cohorts|
    ensures var s := Run(index, current, q, steps);
            var c, units := s.cohorts[k], Sum(s.accounts, k, Units);
            && (k + 1 == s.tick.phase ==> units * Q64 < c.consumed * Q64 + c.matches * c.size)
            && (k + 1 < s.tick.phase ==> units <= c.consumed)
            && (c.matches * c.size <= Q64 ==> units <= c.consumed)
  {
    hide Apply, Sum, Weight, AccountInv, Of;
    RunKeepsCore(index, current, q, steps);
    CohortSolvent(Run(index, current, q, steps), q, k);
  }

  lemma CohortSolvent(s: State, q: Quote, k: nat)
    requires Core(s, q) && k < |s.cohorts|
    ensures var c, units := s.cohorts[k], Sum(s.accounts, k, Units);
            && (k + 1 == s.tick.phase ==> units * Q64 < c.consumed * Q64 + c.matches * c.size)
            && (k + 1 < s.tick.phase ==> units <= c.consumed)
            && 0 <= c.matches * c.size
            && (c.matches * c.size <= Q64 ==> units <= c.consumed)
  {
    hide Sum, Weight, AccountInv, Sound;
    var c, units := s.cohorts[k], Sum(s.accounts, k, Units);
    assert CohortInv(s, k);
    MulLe(0, c.matches, c.size);
    CoreAllInv(s, q);
    UnitsWithinCredit(s.accounts, s.tick, q, k);
    if k + 1 == s.tick.phase {
      UnitsAndClaims(s.accounts, s.tick, q, k);
      FromReals(units, c.consumed, c.matches, c.size);
    }
  }

  // ---- Solvency in tokens ----

  function TotalUnits(accounts: seq<Account>, zeroForOne: bool): nat {
    if accounts == [] then 0
    else
      var last := accounts[|accounts| - 1];
      TotalUnits(accounts[..|accounts| - 1], zeroForOne) + if last.zeroForOne == zeroForOne then Of(Units, last) else 0
  }

  /** Units credited in the phases below `n` that go in a direction. */
  function UnitsBelow(s: State, accounts: seq<Account>, n: nat, zeroForOne: bool): nat {
    if n == 0 then 0
    else
      UnitsBelow(s, accounts, n - 1, zeroForOne)
      + if s.Direction(n - 1) == zeroForOne then Sum(accounts, n - 1, Units) else 0
  }

  lemma {:induction false} UnitsBelowSnoc(s: State, accounts: seq<Account>, n: nat, zeroForOne: bool)
    requires accounts != []
    ensures var last := accounts[|accounts| - 1];
            UnitsBelow(s, accounts, n, zeroForOne)
            == UnitsBelow(s, accounts[..|accounts| - 1], n, zeroForOne)
               + if last.order.phase < n && s.Direction(last.order.phase) == zeroForOne then Of(Units, last) else 0
  {
    hide Of;
    if n > 0 { UnitsBelowSnoc(s, accounts, n - 1, zeroForOne); }
  }

  /** Accounts are paid in the direction of their phase, so the units of a direction are those of its phases. */
  lemma {:induction false} TotalIsUnitsBelow(s: State, accounts: seq<Account>, n: nat, zeroForOne: bool)
    requires forall i :: 0 <= i < |accounts| ==> accounts[i].order.phase < n
    requires forall i :: 0 <= i < |accounts| ==>
               Of(Units, accounts[i]) > 0 ==> accounts[i].zeroForOne == s.Direction(accounts[i].order.phase)
    ensures TotalUnits(accounts, zeroForOne) == UnitsBelow(s, accounts, n, zeroForOne)
    decreases |accounts|
  {
    hide Of;
    if accounts == [] {
      NoUnitsBelow(s, n, zeroForOne);
    } else {
      TotalIsUnitsBelow(s, accounts[..|accounts| - 1], n, zeroForOne);
      UnitsBelowSnoc(s, accounts, n, zeroForOne);
    }
  }

  lemma {:induction false} NoUnitsBelow(s: State, n: nat, zeroForOne: bool)
    ensures UnitsBelow(s, [], n, zeroForOne) == 0
  {
    if n > 0 { NoUnitsBelow(s, n - 1, zeroForOne); }
  }

  /** Every truncation the part-filled cohort of a direction can have gained from. */
  function Slack(s: State, zeroForOne: bool): nat {
    if s.cohorts == [] || s.cohorts[|s.cohorts| - 1].zeroForOne != zeroForOne then 0
    else
      var c := s.cohorts[|s.cohorts| - 1];
      MulLe(0, c.matches, c.size);
      c.matches * c.size
  }

  lemma {:induction false} UnitsBelowWithinConsumed(s: State, q: Quote, n: nat, zeroForOne: bool)
    requires Core(s, q) && n <= |s.cohorts|
    ensures n < |s.cohorts| ==> UnitsBelow(s, s.accounts, n, zeroForOne) <= Consumed(s.cohorts[..n], zeroForOne)
    ensures n == |s.cohorts| ==>
              UnitsBelow(s, s.accounts, n, zeroForOne) * Q64
              <= Consumed(s.cohorts, zeroForOne) * Q64 + Slack(s, zeroForOne)
    ensures n == |s.cohorts| && Slack(s, zeroForOne) <= Q64
            ==> UnitsBelow(s, s.accounts, n, zeroForOne) <= Consumed(s.cohorts, zeroForOne)
    decreases n
  {
    hide Core, Sum, Slack;
    if n > 0 {
      UnitsBelowWithinConsumed(s, q, n - 1, zeroForOne);
      if s.Direction(n - 1) == zeroForOne { PhaseWithin(s, q, n - 1, zeroForOne); }
      assert s.cohorts[..n][..n - 1] == s.cohorts[..n - 1];
      if n == |s.cohorts| { assert s.cohorts[..n] == s.cohorts; }
    }
  }

  /** One phase's units against what its cohort gave, in the direction it went. */
  lemma PhaseWithin(s: State, q: Quote, k: nat, zeroForOne: bool)
    requires Core(s, q) && k < |s.cohorts| && s.Direction(k) == zeroForOne
    ensures var units, consumed := Sum(s.accounts, k, Units), s.cohorts[k].consumed;
            && (k + 1 < |s.cohorts| ==> units <= consumed)
            && (k + 1 == |s.cohorts| ==> units * Q64 <= consumed * Q64 + Slack(s, zeroForOne))
            && (k + 1 == |s.cohorts| && Slack(s, zeroForOne) <= Q64 ==> units <= consumed)
  {
    hide Core, Sum;
    CohortSolvent(s, q, k);
    CohortsArePhases(s, q);
  }

  lemma {:induction false} PaidWithinUnits(accounts: seq<Account>, t: Tick, q: Quote, zeroForOne: bool)
    requires q.Valid() && AllInv(accounts, t, q)
    ensures TotalPaid(accounts, zeroForOne) * q.Facing(zeroForOne).Den()
            <= TotalUnits(accounts, zeroForOne) * q.Facing(zeroForOne).Num()
    decreases |accounts|
  {
    hide AccountInv, Of, Quote.Num, Quote.Den;
    if accounts != [] {
      var last, rest, facing := accounts[|accounts| - 1], accounts[..|accounts| - 1], q.Facing(zeroForOne);
      PaidWithinUnits(rest, t, q, zeroForOne);
      if last.zeroForOne == zeroForOne {
        AccountPaidWithinUnits(last, t, facing);
        AddProducts(TotalPaid(rest, zeroForOne), last.paid, facing.Den(), TotalUnits(rest, zeroForOne),
            Of(Units, last), facing.Num());
      }
    }
  }

  lemma AddProducts(a: int, a': int, x: int, b: int, b': int, y: int)
    requires a * x <= b * y && a' * x <= b' * y
    ensures (a + a') * x <= (b + b') * y
  {}

  lemma AccountPaidWithinUnits(a: Account, t: Tick, q: Quote)
    requires q.Valid() && AccountInv(a, t, q)
    ensures a.paid * q.Den() <= Of(Units, a) * q.Num() <= (a.paid + a.segments) * q.Den()
  {
    hide Quote.Out, Quote.Num, Quote.Den, Unfilled, Credited;
    OutMonotone(q, a.units, a.units);
    if a.order.base > 0 {
      ClosePays(a.closedUnits, a.closedPaid, a.segments - 1, a.units, a.order.settled, q.Num(), q.Den());
    }
  }

  /** After any run an owner has been paid the price of the tick for every unit his order was credited with, less
      at most one token for each of its segments. */
  lemma OwnersArePaid(index: int, current: int, q: Quote, steps: seq<Step>, i: nat)
    requires q.Valid() && i < |Run(index, current, q, steps).accounts|
    ensures var a := Run(index, current, q, steps).accounts[i];
            var facing, units := q.Facing(a.zeroForOne), a.closedUnits + a.units;
            && a.paid * facing.Den() <= units * facing.Num()
               <= (a.paid + a.segments) * facing.Den()
  {
    hide Apply, Core, Quote.Out, Quote.Num, Quote.Den, Unfilled, Credited;
    RunKeepsCore(index, current, q, steps);
    AccountFacts(Run(index, current, q, steps), q, i);
    var a := Run(index, current, q, steps).accounts[i];
    AccountPaidWithinUnits(a, Run(index, current, q, steps).tick, q.Facing(a.zeroForOne));
  }

  /** In each direction takers' tokens cover every payment ever made, in exact arithmetic but for the
      truncations of the cohort being filled; and outright while that cohort's matches times size is
      within 2^64. */
  lemma TokenSolvency(index: int, current: int, q: Quote, steps: seq<Step>, zeroForOne: bool)
    requires q.Valid() && SidedRun(index, current, q, steps)
    ensures var s, facing := Run(index, current, q, steps), q.Facing(zeroForOne);
            && TotalPaid(s.accounts, zeroForOne) * facing.Den() * Q64
               <= s.received.Out(zeroForOne) * facing.Den() * Q64 + Slack(s, zeroForOne) * facing.Num()
            && (Slack(s, zeroForOne) <= Q64 ==> TotalPaid(s.accounts, zeroForOne) <= s.received.Out(zeroForOne))
  {
    hide Apply, Core, Directed, TotalPaid, Consumed, Quote.Num, Quote.Den, Slack, Tokens.Out;
    RunKeepsInv(index, current, q, steps);
    var s, facing := Run(index, current, q, steps), q.Facing(zeroForOne);
    UnitsWithinConsumed(s, q, zeroForOne);
    CoreAllInv(s, q);
    PaidWithinUnits(s.accounts, s.tick, q, zeroForOne);
    assert Received(s, q, zeroForOne);
    Covered(TotalPaid(s.accounts, zeroForOne), TotalUnits(s.accounts, zeroForOne), Consumed(s.cohorts, zeroForOne),
        s.received.Out(zeroForOne),
            Slack(s, zeroForOne), facing.Num(), facing.Den());
  }

  lemma Covered(paid: int, units: int, consumed: int, received: int, slack: int, num: int, den: int)
    requires 0 < den && 0 <= num && paid * den <= units * num && consumed * num <= received * den
    requires units * Q64 <= consumed * Q64 + slack && (slack <= Q64 ==> units <= consumed)
    ensures paid * den * Q64 <= received * den * Q64 + slack * num
    ensures slack <= Q64 ==> paid <= received
  {
    MulLe(units * Q64, consumed * Q64 + slack, num);
    CrossQ64(paid, den, units, num);
    CrossQ64(consumed, num, received, den);
    Distribute(num, consumed * Q64, slack);
    Rotate(units, Q64, num);
    Rotate(consumed, Q64, num);
    if slack <= Q64 {
      MulLe(units, consumed, num);
      MulCancelLe(paid, received, den);
    }
  }

  lemma CrossQ64(a: int, x: int, b: int, y: int)
    requires a * x <= b * y
    ensures a * x * Q64 <= b * y * Q64
  {}

  lemma UnitsWithinConsumed(s: State, q: Quote, zeroForOne: bool)
    requires Core(s, q) && Directed(s)
    ensures TotalUnits(s.accounts, zeroForOne) * Q64 <= Consumed(s.cohorts, zeroForOne) * Q64 + Slack(s, zeroForOne)
    ensures Slack(s, zeroForOne) <= Q64 ==> TotalUnits(s.accounts, zeroForOne) <= Consumed(s.cohorts, zeroForOne)
  {
    hide Core, Sum, Consumed, Slack;
    var n := s.tick.phase;
    CoreAllInv(s, q);
    CohortsArePhases(s, q);
    CoreValid(s, q);
    forall i | 0 <= i < |s.accounts|
      ensures Of(Units, s.accounts[i]) > 0 ==> s.accounts[i].zeroForOne == s.Direction(s.accounts[i].order.phase)
    {
      UnitWithinCredit(s.accounts[i], s.tick, q.Facing(s.accounts[i].zeroForOne));
      assert OneWay(s, s.accounts[i]);
    }
    hide AccountInv, Of;
    UnitsWithinCredit(s.accounts, s.tick, q, n);
    UnitsBelowWithinConsumed(s, q, n, zeroForOne);
    TotalIsUnitsBelow(s, s.accounts, n + 1, zeroForOne);
  }

  /** After any run the vault still has every token the queue has to give, in both tokens: whatever
      was paid to settled orders was paid by takers. */
  lemma VaultSolvency(index: int, current: int, q: Quote, steps: seq<Step>, zeroForOne: bool)
    requires q.Valid() && SidedRun(index, current, q, steps)
    ensures var s := Run(index, current, q, steps);
            Slack(s, !zeroForOne) <= Q64 ==> s.vault.In(zeroForOne) >= Held(s, zeroForOne)
  {
    hide Apply, Core, Directed, TotalPaid, Received, Held, Slack;
    RunKeepsInv(index, current, q, steps);
    TokenSolvency(index, current, q, steps, !zeroForOne);
    assert Balanced(Run(index, current, q, steps), zeroForOne);
  }

  // ---- The increase on the other side, and the orders the price passes ----

  /** The prices of tick 0. */
  const PAR: Quote := Quote(Q64, Q64, true)

  /** The lone account's record of an order to sell 1000 of token 0. */
  function Lone(order: Order, deposited: nat, withdrawn: nat, units: nat): Account {
    Account(true, order, deposited, withdrawn, 0, units, 0, units, 0, 1)
  }

  lemma AtPar(zeroForOne: bool, x: nat)
    ensures PAR.Valid() && PAR.Facing(zeroForOne) == QuoteAt(0, zeroForOne)
    ensures PAR.Facing(zeroForOne).Out(x) == x && PAR.Facing(zeroForOne).TakerOut(x) == x
  {
    hide QuoteAt, Quote.Out, Quote.TakerOut;
    ParAtZero(zeroForOne, x);
  }

  lemma OpenLone()
    ensures PAR.Valid()
    ensures Apply(Initial(0, -1), PAR, Open(true, 1000))
            == State(0, Tick(0, 1000, 0, 0), -1, [Lone(Order(0, 1000, 0, 1000, 0, Q64), 1000, 0, 0)], [], Tokens(0, 0),
                Tokens(1000, 0))
  {
    hide Quote.Out, DoIncrease, DoDecrease, DoMatch, DoSettle;
    AtPar(true, 1000);
  }

  lemma EmptyLone()
    ensures PAR.Valid()
    ensures Apply(State(0, Tick(0, 1000, 0, 0), -1, [Lone(Order(0, 1000, 0, 1000, 0, Q64), 1000, 0, 0)], [],
            Tokens(0, 0), Tokens(1000, 0)),
                  PAR, DecreaseOrder(0, 1000))
            == State(0, Tick(0, 0, 0, 0), -1, [Lone(Order(0, 0, 0, 0, 0, Q64), 1000, 1000, 0)], [], Tokens(0, 0),
                Tokens(0, 0))
  {
    hide Quote.Out, DoIncrease, DoOpen, DoMatch, DoSettle, AmountAllowed, Credited, Unfilled;
    AtPar(true, 1000);
  }

  lemma PassLone()
    ensures PAR.Valid()
    ensures Apply(State(0, Tick(0, 0, 0, 0), -1, [Lone(Order(0, 0, 0, 0, 0, Q64), 1000, 1000, 0)], [], Tokens(0, 0),
            Tokens(0, 0)),
                  PAR, MoveTo(7))
            == State(0, Tick(0, 0, 0, 0), 7, [Lone(Order(0, 0, 0, 0, 0, Q64), 1000, 1000, 0)], [], Tokens(0, 0),
                Tokens(0, 0))
  {
    hide DoOpen, DoIncrease, DoDecrease, DoMatch, DoSettle;
  }

  lemma PassWaiting()
    ensures PAR.Valid()
    ensures Apply(State(0, Tick(0, 1000, 0, 0), -1, [Lone(Order(0, 1000, 0, 1000, 0, Q64), 1000, 0, 0)], [],
                        Tokens(0, 0), Tokens(1000, 0)),
                  PAR, MoveTo(7))
            == State(0, Tick(0, 1000, 0, 0), 7, [Lone(Order(0, 1000, 0, 1000, 0, Q64), 1000, 0, 0)], [],
                     Tokens(0, 0), Tokens(1000, 0))
  {
    hide DoOpen, DoIncrease, DoDecrease, DoMatch, DoSettle;
  }

  lemma IncreaseLone()
    ensures PAR.Valid()
    ensures Apply(State(0, Tick(0, 0, 0, 0), 7, [Lone(Order(0, 0, 0, 0, 0, Q64), 1000, 1000, 0)], [], Tokens(0, 0),
            Tokens(0, 0)),
                  PAR, IncreaseOrder(0, 1000))
            == State(0, Tick(0, 1000, 0, 0), 7, [Lone(Order(0, 1000, 0, 1000, 0, Q64), 2000, 1000, 0)], [],
                Tokens(0, 0), Tokens(1000, 0))
  {
    hide Quote.Out, DoOpen, DoDecrease, DoMatch, DoSettle;
    AtPar(true, 1000);
  }

  /** Waiting above the pool's tick, the orders are read as selling token 1. */
  lemma MatchLone(deposited: nat, withdrawn: nat)
    ensures PAR.Valid()
    ensures Apply(State(0, Tick(0, 1000, 0, 0), 7, [Lone(Order(0, 1000, 0, 1000, 0, Q64), deposited, withdrawn, 0)], [],
                        Tokens(0, 0), Tokens(1000, 0)),
                  PAR, MatchOrders(1000, true, 0, true))
            == State(0, Tick(1, 0, 0, 0), 7, [Lone(Order(0, 1000, 0, 1000, 0, Q64), deposited, withdrawn, 0)],
                     [Cohort(false, 1000, 1000, 0, 1)], Tokens(1000, 0), Tokens(2000, -1000))
  {
    hide MatchAmounts, Scale, DoOpen, DoIncrease, DoDecrease, DoSettle;
    MatchAtPar(1000);
    assert Scale(Q64, 0, 1000) == 0 by { NothingScaled(1000); }
  }

  lemma MatchAtPar(x: nat)
    requires 0 < x <= U64_MAX
    ensures PAR.Valid() && MatchAmounts(x, PAR.Facing(false), x, true, 0, true) == Ok(Match(x, x, 0, x))
  {
    hide Quote.Out, Quote.TakerOut, Quote.In;
    AtPar(false, x);
    assert FeeWithin(x, 0) == Ok(0) by { CeilIff(0, LimitOrder.FEE_RATE_DENOMINATOR, 0); }
  }

  lemma NothingScaled(whole: nat)
    requires whole > 0
    ensures Scale(Q64, 0, whole) == 0 && Unfilled(whole, 0, Q64) == 0 && Credited(whole, 0, Q64) == whole
  {}

  lemma SettleLone(deposited: nat, withdrawn: nat)
    ensures PAR.Valid()
    ensures Apply(State(0, Tick(1, 0, 0, 0), 7, [Lone(Order(0, 1000, 0, 1000, 0, Q64), deposited, withdrawn, 0)],
                        [Cohort(false, 1000, 1000, 0, 1)], Tokens(1000, 0), Tokens(2000, -1000)),
                  PAR, SettleOrder(0))
            == State(0, Tick(1, 0, 0, 0), 7, [Lone(Order(0, 1000, 1000, 1000, 1000, Q64), deposited, withdrawn, 1000)],
                     [Cohort(false, 1000, 1000, 0, 1)], Tokens(1000, 0), Tokens(2000, -2000))
  {
    hide Quote.Out, Unfilled, Credited, DoOpen, DoIncrease, DoDecrease, DoMatch;
    AtPar(true, 1000);
    NothingScaled(1000);
  }

  lemma RunSnoc(index: int, current: int, q: Quote, steps: seq<Step>, step: Step)
    requires q.Valid()
    ensures Run(index, current, q, steps + [step]) == Apply(Run(index, current, q, steps), q, step)
    ensures SidedRun(index, current, q, steps) && Sided(Run(index, current, q, steps), step)
            ==> SidedRun(index, current, q, steps + [step])
  {
    hide Apply, Sided;
    assert (steps + [step])[..|steps|] == steps;
  }

  /** An order to sell 1000 of token 0 at tick 0 is opened while the pool's tick is below, and emptied;
      the price passes the tick; the order is increased by 1000 again, which is token 0 waiting where
      orders sell token 1. A taker pays 1000 of token 0 for 1000 of token 1, and the settlement pays
      1000 of token 1 more: 2000 of token 1 leave and none ever came in. */
  lemma WrongSideIncrease()
    ensures var steps := [Open(true, 1000), DecreaseOrder(0, 1000), MoveTo(7)];
            var rest := [IncreaseOrder(0, 1000), MatchOrders(1000, true, 0, true), SettleOrder(0)];
            && PAR.Valid()
            && SidedRun(0, -1, PAR, steps)
            && !Sided(Run(0, -1, PAR, steps), rest[0])
            && var s := Run(0, -1, PAR, steps + rest);
               && s.vault == Tokens(2000, -2000) && Held(s, true) == 0 && Held(s, false) == 0
  {
    hide Apply, Run, SidedRun;
    OpenLone();
    EmptyLone();
    PassLone();
    IncreaseLone();
    MatchLone(2000, 1000);
    SettleLone(2000, 1000);
    var first := [Open(true, 1000)];
    RunStart(0, -1, PAR);
    RunSnoc(0, -1, PAR, [], Open(true, 1000));
    RunSnoc(0, -1, PAR, first, DecreaseOrder(0, 1000));
    RunSnoc(0, -1, PAR, first + [DecreaseOrder(0, 1000)], MoveTo(7));
    var steps := first + [DecreaseOrder(0, 1000)] + [MoveTo(7)];
    RunSnoc(0, -1, PAR, steps, IncreaseOrder(0, 1000));
    RunSnoc(0, -1, PAR, steps + [IncreaseOrder(0, 1000)], MatchOrders(1000, true, 0, true));
    RunSnoc(0, -1, PAR, steps + [IncreaseOrder(0, 1000)] + [MatchOrders(1000, true, 0, true)], SettleOrder(0));
    assert [] + [Open(true, 1000)] == first;
    assert steps == [Open(true, 1000), DecreaseOrder(0, 1000), MoveTo(7)];
    assert steps + [IncreaseOrder(0, 1000)] + [MatchOrders(1000, true, 0, true)] + [SettleOrder(0)]
           == steps + [IncreaseOrder(0, 1000), MatchOrders(1000, true, 0, true), SettleOrder(0)];
  }

  /** An order to sell 1000 of token 0 waits at tick 0 when the price passes it unmatched. The taker on the way
      down pays 1000 of token 0 for 1000 of token 1, and the settlement pays 1000 of token 1 more. */
  lemma PassedOrders()
    ensures var rest := [MoveTo(7), MatchOrders(1000, true, 0, true), SettleOrder(0)];
            && PAR.Valid()
            && SidedRun(0, -1, PAR, [Open(true, 1000)])
            && !Sided(Run(0, -1, PAR, [Open(true, 1000)]), rest[0])
            && var s := Run(0, -1, PAR, [Open(true, 1000)] + rest);
               && s.vault == Tokens(2000, -2000) && Held(s, true) == 0 && Held(s, false) == 0
  {
    hide Apply, Run, SidedRun;
    OpenLone();
    PassWaiting();
    MatchLone(1000, 0);
    SettleLone(1000, 0);
    var first := [Open(true, 1000)];
    RunStart(0, -1, PAR);
    RunSnoc(0, -1, PAR, [], Open(true, 1000));
    assert [] + [Open(true, 1000)] == first;
    RunSnoc(0, -1, PAR, first, MoveTo(7));
    RunSnoc(0, -1, PAR, first + [MoveTo(7)], MatchOrders(1000, true, 0, true));
    RunSnoc(0, -1, PAR, first + [MoveTo(7)] + [MatchOrders(1000, true, 0, true)], SettleOrder(0));
    assert first + [MoveTo(7)] + [MatchOrders(1000, true, 0, true)] + [SettleOrder(0)]
           == first + [MoveTo(7), MatchOrders(1000, true, 0, true), SettleOrder(0)];
  }

  lemma RunStart(index: int, current: int, q: Quote)
    requires q.Valid()
    ensures Run(index, current, q, []) == Initial(index, current) && SidedRun(index, current, q, [])
  {}

  // ---- Conservation for one order ----

  /** What an order was credited with, took out and has left over adds up to what was put in,
      less at most one unit per segment; a complete order has lost less than one per segment. */
  lemma Conservation(index: int, current: int, q: Quote, steps: seq<Step>, i: nat)
    requires q.Valid() && i < |Run(index, current, q, steps).accounts|
    ensures var s := Run(index, current, q, steps);
            var a := s.accounts[i];
            && a.order.filled <= a.order.total
            && var accounted := a.closedUnits + a.units + a.withdrawn + (a.order.total - a.order.filled);
               && a.deposited - a.segments <= accounted <= a.deposited
               && (a.order.total == a.order.filled && a.order.base == 0 ==> accounted > a.deposited - a.segments)
               && (a.order.phase == s.tick.phase ==> accounted == a.deposited)
  {
    hide Apply, Core, Quote.Out, Unfilled, Credited, Of;
    RunKeepsCore(index, current, q, steps);
    AccountFacts(Run(index, current, q, steps), q, i);
  }

  // ---- Settling telescopes ----

  /** Settling at each of the observed ticks in turn; the payouts add up. */
  function SettleMany(o: Order, ticks: seq<Tick>, q: Quote): Result<Settlement>
    requires q.Valid()
  {
    if ticks == [] then Ok(Settlement(o, 0))
    else
      var before :- SettleMany(o, ticks[..|ticks| - 1], q);
      var s :- Settle(before.order, ticks[|ticks| - 1], q);
      Ok(Settlement(s.order, before.payout + s.payout))
  }

  /** A later tick: a later phase, or the same phase at a ratio that has not risen. */
  predicate Later(t: Tick, t': Tick) { t.phase < t'.phase || (t.phase == t'.phase && t'.ratio <= t.ratio) }

  /** Matching is the only thing that moves the phase or the ratio, and moves them this way. */
  lemma MatchesMoveLater(t: Tick, c: nat)
    requires c <= t.remaining + t.orders && t.phase < U64_MAX
    ensures Later(t, Consume(t, c))
  {
    hide Scale;
    if t.remaining > 0 { ScaleFalls(t.ratio, t.remaining - Min(t.remaining, c), t.remaining); }
  }

  lemma ScaleFalls(ratio: nat, part: nat, whole: nat)
    requires part <= whole && 0 < whole
    ensures Scale(ratio, part, whole) <= ratio
  {
    MulLe(0, ratio, part);
    MulLe(part, whole, ratio);
    FloorIff(ratio * part, whole, ratio + 1);
    Expand(ratio, whole);
  }

  /** An order at the start of a segment. */
  predicate SegmentStart(o: Order, q: Quote)
    requires q.Valid()
  {
    && o.settled == 0 && o.total == o.filled + o.base && o.snapshot > 0
    && o.total <= U64_MAX && o.phase <= U64_MAX - 2 && q.Out(o.base) <= U64_MAX
  }

  predicate Observes(o: Order, t: Tick) {
    o.phase + 1 <= t.phase <= U64_MAX && (o.phase + 1 == t.phase ==> t.ratio <= o.snapshot)
  }

  /** The outcome of settling a segment start, without the early return of a settle that finds
      nothing filled. */
  function SegmentOutcome(o: Order, t: Tick, q: Quote): Settlement
    requires q.Valid() && SegmentStart(o, q) && Observes(o, t)
  {
    if o.base == 0 then Settlement(o, 0)
    else if o.phase + 1 == t.phase then
      var left, units := Unfilled(o.base, t.ratio, o.snapshot), Max(0, Credited(o.base, t.ratio, o.snapshot));
      Settlement(o.(filled := Max(0, o.total - left), settled := q.Out(units)), q.Out(units))
    else Settlement(o.(filled := o.total, base := 0, settled := 0), q.Out(o.base))
  }

  lemma SettleSegment(o: Order, t: Tick, q: Quote)
    requires q.Valid() && SegmentStart(o, q) && Observes(o, t)
    ensures Settle(o, t, q) == Ok(SegmentOutcome(o, t, q))
  {
    hide Quote.Out, Quote.Num, Quote.Den, Unfilled, Credited;
    OutMonotone(q, 0, 0);
    if o.phase + 1 == t.phase && o.base > 0 {
      ClaimRange(o.base, t.ratio, o.snapshot);
      OutMonotone(q, Credited(o.base, t.ratio, o.snapshot), o.base);
    }
  }

  /** Settling again, from where an earlier settle of the segment left the order. */
  lemma Resettle(o: Order, settled: Order, t: Tick, t': Tick, q: Quote)
    requires q.Valid() && SegmentStart(o, q) && Observes(o, t) && Observes(o, t') && Later(t, t')
    requires settled == SegmentOutcome(o, t, q).order
    ensures var paid, paid' := SegmentOutcome(o, t, q).payout, SegmentOutcome(o, t', q).payout;
            && paid <= paid'
            && Settle(settled, t', q) == Ok(Settlement(SegmentOutcome(o, t', q).order, paid' - paid))
  {
    hide Quote.Out, Quote.Num, Quote.Den, Unfilled, Credited;
    if o.base > 0 && o.phase + 1 == t.phase {
      ClaimRange(o.base, t.ratio, o.snapshot);
      OutMonotone(q, Credited(o.base, t.ratio, o.snapshot), o.base);
      OutMonotone(q, 0, 0);
      if o.phase + 1 == t'.phase {
        UnfilledMonotone(o.base, t'.ratio, t.ratio, o.snapshot);
        ClaimRange(o.base, t'.ratio, o.snapshot);
        OutMonotone(q, Credited(o.base, t.ratio, o.snapshot), Credited(o.base, t'.ratio, o.snapshot));
        OutMonotone(q, Credited(o.base, t'.ratio, o.snapshot), o.base);
      }
    }
  }

  /** Settling at any times, however often, pays in total what one settle at the last of them
      pays; after a full fill that is the output of the whole base. */
  lemma {:induction false} SettlingTelescopes(o: Order, ticks: seq<Tick>, q: Quote)
    requires q.Valid() && SegmentStart(o, q) && ticks != []
    requires forall i :: 0 <= i < |ticks| ==> Observes(o, ticks[i])
    requires forall i :: 0 < i < |ticks| ==> Later(ticks[i - 1], ticks[i])
    ensures SettleMany(o, ticks, q) == Settle(o, ticks[|ticks| - 1], q)
    ensures var last := ticks[|ticks| - 1];
            && Settle(o, last, q).Ok?
            && var paid := Settle(o, last, q).value.payout;
               if o.phase + 1 == last.phase then
                 && 0 <= Credited(o.base, last.ratio, o.snapshot)
                 && paid == q.Out(Credited(o.base, last.ratio, o.snapshot))
               else
                 paid == q.Out(o.base)
    decreases |ticks|
  {
    hide Settle, Quote.Out, Credited, Observes, SegmentStart, SegmentOutcome;
    var n := |ticks| - 1;
    var rest := ticks[..n];
    SettleSegment(o, ticks[n], q);
    PaysOut(o, ticks[n], q);
    assert ticks[..0] == [];
    if n == 0 {
      assert SettleMany(o, rest, q) == Ok(Settlement(o, 0));
    } else {
      SettlingTelescopes(o, rest, q);
      assert rest[n - 1] == ticks[n - 1] && Later(ticks[n - 1], ticks[n]);
      SettleSegment(o, ticks[n - 1], q);
      Resettle(o, SegmentOutcome(o, ticks[n - 1], q).order, ticks[n - 1], ticks[n], q);
    }
  }

  lemma PaysOut(o: Order, t: Tick, q: Quote)
    requires q.Valid() && SegmentStart(o, q) && Observes(o, t)
    ensures var paid := SegmentOutcome(o, t, q).payout;
            if o.phase + 1 == t.phase then
              0 <= Credited(o.base, t.ratio, o.snapshot) && paid == q.Out(Credited(o.base, t.ratio, o.snapshot))
            else
              paid == q.Out(o.base)
  {
    hide Quote.Out, Credited, Unfilled;
    OutMonotone(q, 0, 0);
    if o.phase + 1 == t.phase { ClaimRange(o.base, t.ratio, o.snapshot); }
  }
}
