/** Every run of one tick's limit-order queue: any interleaving of opening, increasing, decreasing,
    matching and settling while the pool's price passes the tick this way and that, with the ledger
    the program does not keep. */
module LimitOrderRun {
  import opened Types
  import opened Arith
  import opened LimitOrder

  // ---- State ----

  /** An order with its history: what was put in and taken out, the units credited to closed
      segments and to the open one, the tokens paid, and the rounding dust closing left behind. */
  datatype Account = Account(
    zeroForOne: bool, order: Order, deposited: nat, withdrawn: nat,
    closedUnits: nat, units: nat, closedPaid: nat, paid: nat, dust: nat, segments: nat)

  /** A cohort since its first match, and the direction it was matched in. */
  datatype Cohort = Cohort(zeroForOne: bool, size: nat, consumed: nat, withdrawn: nat, matches: nat)

  /** An amount of each token. Orders put in one token, `In`, and are paid the other, `Out`. */
  datatype Tokens = Tokens(token0: int, token1: int) {
    function In(zeroForOne: bool): int { if zeroForOne then token0 else token1 }

    function Out(zeroForOne: bool): int { In(!zeroForOne) }

    function AddIn(zeroForOne: bool, x: int): Tokens {
      if zeroForOne then this.(token0 := token0 + x) else this.(token1 := token1 + x)
    }

    function AddOut(zeroForOne: bool, x: int): Tokens { AddIn(!zeroForOne, x) }

    function Plus(other: Tokens): Tokens { Tokens(token0 + other.token0, token1 + other.token1) }
  }

  /** The queue of the tick `index` while the pool's tick is `current`. `cohorts[k]` is the cohort of
      phase `k`; phases from the tick's on have none yet. `received` counts the tokens takers paid
      in, `vault` every token that came in less every token that left. */
  datatype State = State(index: int, tick: Tick, current: int, accounts: seq<Account>, cohorts: seq<Cohort>,
      received: Tokens, vault: Tokens) {
    /** The tick lies above the pool's: its orders sell token 0. */
    predicate Above() { index > current }

    /** The direction of the orders of a phase. */
    function Direction(k: nat): bool { if k < |cohorts| then cohorts[k].zeroForOne else Above() }
  }

  function Initial(index: int, current: int): State {
    State(index, Tick(0, 0, 0, 0), current, [], [], Tokens(0, 0), Tokens(0, 0))
  }

  datatype Step =
    | Open(zeroForOne: bool, amount: nat)
    | IncreaseOrder(index: nat, amount: nat)
    | DecreaseOrder(index: nat, amount: nat)
    | SettleOrder(index: nat)
    | MatchOrders(swapAmount: nat, baseInput: bool, feeRate: nat, feeOnInput: bool)
    | MoveTo(current: int)

  // ---- Transitions; a failing instruction leaves the state as it was ----

  /** The account after `settle_filled_order`. */
  function SettleAccount(a: Account, t: Tick, q: Quote): Result<Account>
    requires q.Valid()
  {
    var s :- Settle(a.order, t, q);
    var paid := a.paid + s.payout;
    if s.order.base != a.order.base then
      Ok(a.(order := s.order, closedUnits := a.closedUnits + a.order.base, units := 0, closedPaid := paid,
          paid := paid))
    else if a.order.phase == t.phase || a.order.base == 0 then Ok(a)
    else Ok(a.(order := s.order, units := CreditedNow(a.order, t), paid := paid))
  }

  function CreditedNow(o: Order, t: Tick): nat {
    if o.snapshot == 0 then 0 else Max(0, Credited(o.base, t.ratio, o.snapshot))
  }

  /** `check_tick_index`: orders are opened on the side of the pool's tick they wait on. */
  predicate OpenSide(index: int, current: int, zeroForOne: bool)
  {
    if zeroForOne then index > current else index < current
  }

  function DoOpen(s: State, q: Quote, zeroForOne: bool, amount: nat): Option<State>
    requires q.Valid()
  {
    if !OpenSide(s.index, s.current, zeroForOne) then None
    else if amount > U64_MAX || !AmountAllowed(q.Facing(zeroForOne), amount) || s.tick.phase >= U64_MAX
        || s.tick.orders + amount > U64_MAX then None
    else
      var order := Order(s.tick.phase, amount, 0, amount, 0, Q64);
      Some(s.(tick := s.tick.(orders := s.tick.orders + amount),
              accounts := s.accounts + [Account(zeroForOne, order, amount, 0, 0, 0, 0, 0, 0, 1)],
              vault := s.vault.AddIn(zeroForOne, amount)))
  }

  /** `increase_limit_order` does not look at the pool's tick. */
  function DoIncrease(s: State, q: Quote, i: nat, amount: nat): Option<State>
    requires q.Valid() && i < |s.accounts|
  {
    var a := s.accounts[i];
    match Increase(a.order, s.tick, amount)
    case Err(_) => None
    case Ok(r) =>
      if amount == 0 || !AmountAllowed(q.Facing(a.zeroForOne), r.0.total) then None
      else Some(s.(tick := r.1, accounts := s.accounts[i := a.(order := r.0, deposited := a.deposited + amount)],
                   vault := s.vault.AddIn(a.zeroForOne, amount)))
  }

  /** Closing a segment books its units, and as dust whatever neither they nor the rest cover. */
  function CloseSegment(settled: Account, d: Decreased): Account {
    var left := Max(0, settled.order.total - settled.order.filled);
    if d.order.phase == d.tick.phase then settled.(order := d.order, withdrawn := settled.withdrawn + d.amount)
    else settled.(order := d.order, withdrawn := settled.withdrawn + d.amount,
                  closedUnits := settled.closedUnits + settled.units, units := 0, closedPaid := settled.paid,
                  dust := settled.dust + Max(0, settled.order.base - settled.units - left),
                  segments := settled.segments + 1)
  }

  /** An account is paid what its own record says. */
  function Paying(s: State, i: nat, settled: Account): State
    requires i < |s.accounts|
  {
    s.(accounts := s.accounts[i := settled],
        vault := s.vault.AddOut(s.accounts[i].zeroForOne, s.accounts[i].paid - settled.paid))
  }

  /** What a decrease takes out leaves the vault and the books of the order's cohort. */
  function Withdrawing(s: State, i: nat, b: Account, t: Tick, amount: nat): State
    requires i < |s.accounts|
  {
    var k := s.accounts[i].order.phase;
    s.(tick := t, accounts := s.accounts[i := b],
       cohorts := if k < |s.cohorts| then s.cohorts[k := s.cohorts[k].(withdrawn := s.cohorts[k].withdrawn + amount)]
           else s.cohorts,
       vault := s.vault.AddIn(s.accounts[i].zeroForOne, 0 - amount))
  }

  function DoDecrease(s: State, q: Quote, i: nat, amount: nat): Option<State>
    requires q.Valid() && i < |s.accounts|
  {
    var a := s.accounts[i];
    match Decrease(a.order, s.tick, q.Facing(a.zeroForOne), amount)
    case Err(_) => None
    case Ok(d) =>
      match SettleAccount(a, s.tick, q.Facing(a.zeroForOne))
      case Err(_) => None
      case Ok(settled) =>
        if amount == 0 then None
        else if d.amount == 0 then Some(Paying(s, i, settled))
        else Some(Withdrawing(Paying(s, i, settled), i, CloseSegment(settled, d), d.tick, d.amount))
  }

  /** `settle_limit_order` also refuses to pay nothing while something is unfilled. */
  function DoSettle(s: State, q: Quote, i: nat): Option<State>
    requires q.Valid() && i < |s.accounts|
  {
    var a := s.accounts[i];
    match SettleAccount(a, s.tick, q.Facing(a.zeroForOne))
    case Err(_) => None
    case Ok(b) =>
      if b.order.total < b.order.filled || (b.order.total != b.order.filled && b.paid == a.paid) then None
          else Some(Paying(s, i, b))
  }

  /** Booking `c` consumed units: the part-filled cohort first, the rest opens a cohort. */
  function Book(cohorts: seq<Cohort>, t: Tick, zeroForOne: bool, c: nat): seq<Cohort>
    requires c <= t.remaining + t.orders
  {
    var first := Min(t.remaining, c);
    var last := |cohorts| - 1;
    var booked :=
      if first == 0 || cohorts == [] then cohorts
      else cohorts[last := cohorts[last].(consumed := cohorts[last].consumed + first,
          matches := cohorts[last].matches + 1)];
    if c == first then booked else booked + [Cohort(zeroForOne, t.orders, c - first, 0, 1)]
  }

  /** A taker takes from above the pool's tick what sells token 0, from at or below it what sells
      token 1, whatever the orders are. */
  function DoMatch(s: State, q: Quote, swapAmount: nat, baseInput: bool, feeRate: nat, feeOnInput: bool): Option<State>
    requires q.Valid()
  {
    var facing := q.Facing(s.Above());
    match MatchAmounts(s.tick.remaining + s.tick.orders, facing, swapAmount, baseInput, feeRate, feeOnInput)
    case Err(_) => None
    case Ok(m) =>
      MatchCoversOrders(s.tick.remaining + s.tick.orders, facing, swapAmount, baseInput, feeRate, feeOnInput);
      Some(Taking(s, m.gross, m.amountIn))
  }

  function Taking(s: State, gross: nat, amountIn: nat): State
    requires gross <= s.tick.remaining + s.tick.orders
  {
    s.(tick := Consume(s.tick, gross), cohorts := Book(s.cohorts, s.tick, s.Above(), gross),
       received := s.received.AddOut(s.Above(), amountIn),
       vault := s.vault.AddIn(s.Above(), 0 - gross).AddOut(s.Above(), amountIn))
  }

  function Try(s: State, q: Quote, step: Step): Option<State>
    requires q.Valid()
  {
    match step
    case Open(zeroForOne, amount) => DoOpen(s, q, zeroForOne, amount)
    case IncreaseOrder(i, amount) => if i < |s.accounts| then DoIncrease(s, q, i, amount) else None
    case DecreaseOrder(i, amount) => if i < |s.accounts| then DoDecrease(s, q, i, amount) else None
    case SettleOrder(i) => if i < |s.accounts| then DoSettle(s, q, i) else None
    case MatchOrders(swapAmount, baseInput, feeRate, feeOnInput) =>
        DoMatch(s, q, swapAmount, baseInput, feeRate, feeOnInput)
    case MoveTo(current) => Some(s.(current := current))
  }

  function Apply(s: State, q: Quote, step: Step): State
    requires q.Valid()
  {
    match Try(s, q, step)
    case None => s
    case Some(s') => s'
  }

  /** The run of the steps from a new tick; `q` holds the tick's prices, in either direction. */
  function Run(index: int, current: int, q: Quote, steps: seq<Step>): State
    requires q.Valid()
  {
    if steps == [] then Initial(index, current)
        else Apply(Run(index, current, q, steps[..|steps| - 1]), q, steps[|steps| - 1])
  }

  /** The pool's tick goes to the other side of this one only when nothing is left in its queue. */
  predicate PassesEmpty(s: State, current: int) {
    (s.index > current) != s.Above() ==> s.tick.orders + s.tick.remaining == 0
  }

  /** The side of the orders is kept by two kinds of step only under a guard the program lacks. An increase is on
      the side its order waits on, which `open_limit_order` checks and `increase_limit_order` does not; an order
      that matches at its own tick stays on its side. And the price passes an empty queue, which a swap whose
      search looks past orders does not heed. */
  predicate Sided(s: State, step: Step) {
    && (step.IncreaseOrder? && step.index < |s.accounts| ==> s.accounts[step.index].zeroForOne == s.Above())
    && (step.MoveTo? ==> PassesEmpty(s, step.current))
  }

  /** Every increase and every move of the run meets its guard. */
  predicate SidedRun(index: int, current: int, q: Quote, steps: seq<Step>)
    requires q.Valid()
  {
    steps == [] ||
    (SidedRun(index, current, q, steps[..|steps| - 1])
        && Sided(Run(index, current, q, steps[..|steps| - 1]), steps[|steps| - 1]))
  }

  // ---- Sums over a cohort ----

  datatype Measure = Base | Credit | Units

  /** Segment base; everything credited or still in a segment base; everything credited. */
  function Of(m: Measure, a: Account): nat {
    match m
    case Base => a.order.base
    case Credit => a.closedUnits + a.order.base
    case Units => a.closedUnits + a.units
  }

  function Sum(accounts: seq<Account>, k: nat, m: Measure): nat {
    if accounts == [] then 0
    else
      var last := accounts[|accounts| - 1];
      Sum(accounts[..|accounts| - 1], k, m) + (if last.order.phase == k then Of(m, last) else 0)
  }

  /** base / snapshot: the order's weight in the cohort's unfilled ratio. */
  function WeightOf(o: Order): real {
    if o.snapshot == 0 then 0.0 else o.base as real / o.snapshot as real
  }

  function Weight(accounts: seq<Account>, k: nat): real {
    if accounts == [] then 0.0
    else
      var last := accounts[|accounts| - 1];
      Weight(accounts[..|accounts| - 1], k) + (if last.order.phase == k then WeightOf(last.order) else 0.0)
  }

  lemma {:induction false} SumUpdate(accounts: seq<Account>, i: nat, b: Account, k: nat, m: Measure)
    requires i < |accounts| && b.order.phase == accounts[i].order.phase
    ensures Sum(accounts[i := b], k, m)
            == Sum(accounts, k, m) + (if b.order.phase == k then Of(m, b) - Of(m, accounts[i]) else 0)
    decreases |accounts|
  {
    hide Of;
    var n := |accounts| - 1;
    var updated := accounts[i := b];
    if i == n {
      assert updated[..n] == accounts[..n];
    } else {
      assert updated[..n] == accounts[..n][i := b];
      SumUpdate(accounts[..n], i, b, k, m);
    }
  }

  lemma {:induction false} WeightUpdate(accounts: seq<Account>, i: nat, b: Account, k: nat)
    requires i < |accounts| && b.order.phase == accounts[i].order.phase
    ensures Weight(accounts[i := b], k)
            == Weight(accounts, k) + (if b.order.phase == k then WeightOf(b.order) - WeightOf(accounts[i].order)
                else 0.0)
    decreases |accounts|
  {
    hide WeightOf;
    var n := |accounts| - 1;
    var updated := accounts[i := b];
    if i == n {
      assert updated[..n] == accounts[..n];
    } else {
      assert updated[..n] == accounts[..n][i := b];
      WeightUpdate(accounts[..n], i, b, k);
    }
  }

  lemma {:induction false} SumPoint(accounts: seq<Account>, i: nat, m: Measure)
    requires i < |accounts|
    ensures Of(m, accounts[i]) <= Sum(accounts, accounts[i].order.phase, m)
    decreases |accounts|
  {
    var n := |accounts| - 1;
    if i < n { SumPoint(accounts[..n], i, m); }
  }

  lemma {:induction false} WeightPoint(accounts: seq<Account>, i: nat)
    requires i < |accounts|
    ensures 0.0 <= WeightOf(accounts[i].order) <= Weight(accounts, accounts[i].order.phase)
    decreases |accounts|
  {
    var n := |accounts| - 1;
    WeightNonNegative(accounts[..n], accounts[i].order.phase);
    WeightOfNonNegative(accounts[i].order);
    WeightOfNonNegative(accounts[n].order);
    if i < n { WeightPoint(accounts[..n], i); }
  }

  lemma WeightOfNonNegative(o: Order)
    ensures 0.0 <= WeightOf(o)
  {}

  lemma {:induction false} WeightNonNegative(accounts: seq<Account>, k: nat)
    ensures 0.0 <= Weight(accounts, k)
    decreases |accounts|
  {
    if accounts != [] {
      WeightOfNonNegative(accounts[|accounts| - 1].order);
      WeightNonNegative(accounts[..|accounts| - 1], k);
    }
  }

  lemma {:induction false} SumEmptyCohort(accounts: seq<Account>, k: nat, m: Measure)
    requires forall i :: 0 <= i < |accounts| ==> accounts[i].order.phase < k
    ensures Sum(accounts, k, m) == 0
    decreases |accounts|
  {
    if accounts != [] { SumEmptyCohort(accounts[..|accounts| - 1], k, m); }
  }

  // ---- Invariant ----

  /** One account at a tick. */
  predicate AccountInv(a: Account, t: Tick, q: Quote)
    requires q.Valid()
  {
    var o := a.order;
    && o.phase <= t.phase && o.phase < U64_MAX
    && o.filled <= o.total <= U64_MAX
    && 0 < o.snapshot <= Q64
    && q.Out(o.base) <= U64_MAX
    && o.settled == q.Out(a.units)
    && a.paid == a.closedPaid + o.settled
    && a.closedPaid * q.Den() <= a.closedUnits * q.Num()
       <= (a.closedPaid + a.segments - if o.base > 0 then 1 else 0) * q.Den()
    && a.deposited == a.withdrawn + a.closedUnits + o.base + a.dust
    && a.dust < a.segments
    && (if o.phase == t.phase then
          o.snapshot == Q64 && o.base == o.total && o.filled == 0 && a.units == 0 && a.closedUnits == 0 && a.dust == 0
        else
          // The recorded unfilled part is that of the last settlement, and can only be too large.
          var left := o.total - o.filled;
          && left <= o.base && a.units <= o.base - left <= a.units + 1
          && (o.phase + 1 == t.phase ==>
                && t.ratio <= o.snapshot
                && Unfilled(o.base, t.ratio, o.snapshot) <= left
                && a.units <= Credited(o.base, t.ratio, o.snapshot)))
  }

  /** One cohort that has been matched: its units are accounted for, and what its accounts can
      still claim or have been credited with never exceeds its size. */
  predicate CohortInv(s: State, k: nat)
    requires k < |s.cohorts|
  {
    var c := s.cohorts[k];
    && c.matches >= 1
    && c.size == c.consumed + c.withdrawn + (if k + 1 == s.tick.phase then s.tick.remaining else 0)
    && Sum(s.accounts, k, Credit) + c.withdrawn <= c.size
  }

  /** The part-filled cohort: the sum of the unfilled claims never exceeds what is left in the
      tick, and falls short of it by less than one truncation per match, dust aside. */
  predicate PartFilledInv(s: State)
    requires 0 < s.tick.phase == |s.cohorts|
  {
    var k := s.tick.phase - 1;
    var c := s.cohorts[k];
    var w := Weight(s.accounts, k);
    && s.tick.ratio as real * w <= s.tick.remaining as real
    && w <= c.size as real / Q64 as real
    && s.tick.remaining as real - s.tick.ratio as real * w
       < (c.size - Sum(s.accounts, k, Credit) - c.withdrawn) as real
           + c.matches as real * (c.size as real / Q64 as real)
  }

  predicate Sound(a: Account, s: State, q: Quote)
    requires q.Valid()
  {
    AccountInv(a, s.tick, q.Facing(a.zeroForOne))
  }

  /** The units: sound accounts, and cohorts whose claims are covered, whichever way they go. */
  predicate Core(s: State, q: Quote) {
    && q.Valid()
    && s.tick.phase == |s.cohorts| <= U64_MAX
    && s.tick.orders <= U64_MAX && s.tick.ratio <= Q64
    && (s.tick.phase == U64_MAX ==> s.tick.orders == 0)
    && (s.tick.phase == 0 ==> s.tick.remaining == 0)
    && (forall i :: 0 <= i < |s.accounts| ==> Sound(s.accounts[i], s, q))
    && Sum(s.accounts, s.tick.phase, Base) == s.tick.orders
    && (forall k :: 0 <= k < |s.cohorts| ==> CohortInv(s, k))
    && (s.tick.phase > 0 ==> PartFilledInv(s))
  }

  /** Whatever an account has been credited or can still claim is in its own direction. */
  predicate OneWay(s: State, a: Account) {
    Of(Credit, a) > 0 ==> a.order.phase <= s.tick.phase && a.zeroForOne == s.Direction(a.order.phase)
  }

  /** One direction at a time. */
  predicate Directed(s: State) {
    && s.tick.phase == |s.cohorts|
    && (s.tick.remaining > 0 ==> s.cohorts != [] && s.cohorts[|s.cohorts| - 1].zeroForOne == s.Above())
    && forall i :: 0 <= i < |s.accounts| ==> OneWay(s, s.accounts[i])
  }

  /** Units consumed over all cohorts of a direction. */
  function Consumed(cohorts: seq<Cohort>, zeroForOne: bool): nat {
    if cohorts == [] then 0
    else
      var last := cohorts[|cohorts| - 1];
      Consumed(cohorts[..|cohorts| - 1], zeroForOne) + if last.zeroForOne == zeroForOne then last.consumed else 0
  }

  function TotalPaid(accounts: seq<Account>, zeroForOne: bool): nat {
    if accounts == [] then 0
    else
      var last := accounts[|accounts| - 1];
      TotalPaid(accounts[..|accounts| - 1], zeroForOne) + if last.zeroForOne == zeroForOne then last.paid else 0
  }

  /** What the queue has to give of the token orders of a direction put in. */
  function Held(s: State, zeroForOne: bool): nat {
    (if s.Above() == zeroForOne then s.tick.orders else 0)
    + (if s.cohorts != [] && s.cohorts[|s.cohorts| - 1].zeroForOne == zeroForOne then s.tick.remaining else 0)
  }

  /** The vault's token holds what the queue has to give and what takers paid in, less what was paid out. */
  predicate Balanced(s: State, zeroForOne: bool) {
    s.vault.In(zeroForOne) == Held(s, zeroForOne) + s.received.In(zeroForOne) - TotalPaid(s.accounts, !zeroForOne)
  }

  /** What takers paid covers every consumed unit at the orders' rate. */
  predicate Received(s: State, q: Quote, zeroForOne: bool)
    requires q.Valid()
  {
    Consumed(s.cohorts, zeroForOne) * q.Facing(zeroForOne).Num()
        <= s.received.Out(zeroForOne) * q.Facing(zeroForOne).Den()
  }

  predicate Ledger(s: State, q: Quote)
    requires q.Valid()
  {
    forall zeroForOne :: Balanced(s, zeroForOne) && Received(s, q, zeroForOne)
  }

  predicate Inv(s: State, q: Quote) { Core(s, q) && Directed(s) && Ledger(s, q) }
}
