/** Fees drawn from several accounts, the resource tracker, and charging in a sandbox. */
module Fees {
  import opened Basics

  type Amount = u128

  function Sum(amounts: seq<Amount>): nat {
    if amounts == [] then 0 else amounts[0] + Sum(amounts[1..])
  }

  /** The sources after a fee: each one pays what those before it cannot. */
  function Drawn(sources: seq<Amount>, fee: nat): (r: seq<Amount>)
    ensures |r| == |sources|
  {
    if sources == [] then []
    else if sources[0] >= fee then [sources[0] - fee] + sources[1..]
    else [0] + Drawn(sources[1..], fee - sources[0])
  }

  /** A source is touched only for the part of the fee that exceeds everything before it. */
  lemma {:induction false} DrawnInOrder(sources: seq<Amount>, fee: nat, i: nat)
    requires i < |sources|
    ensures Drawn(sources, fee)[i] == Max(0, sources[i] - Max(0, fee - Sum(sources[..i])))
  {
    if i > 0 {
      assert sources[..i][0] == sources[0] && sources[..i][1..] == sources[1..][..i - 1];
      if sources[0] < fee {
        DrawnInOrder(sources[1..], fee - sources[0], i - 1);
      }
    }
  }

  lemma {:induction false} DrawnPays(sources: seq<Amount>, fee: nat)
    ensures Sum(Drawn(sources, fee)) == Max(0, Sum(sources) - fee)
  {
    if sources != [] {
      var drawn := Drawn(sources, fee);
      if sources[0] >= fee {
        assert drawn[1..] == sources[1..];
      } else {
        DrawnPays(sources[1..], fee - sources[0]);
        assert drawn[1..] == Drawn(sources[1..], fee - sources[0]);
      }
    }
  }

  /** Two fees in a row leave the sources as one fee of their sum. */
  lemma {:induction false} DrawnTwice(sources: seq<Amount>, fee: nat, more: nat)
    ensures Drawn(Drawn(sources, fee), more) == Drawn(sources, fee + more)
  {
    if sources != [] {
      var drawn := Drawn(sources, fee);
      if sources[0] >= fee {
        assert drawn[1..] == sources[1..];
      } else {
        assert drawn[1..] == Drawn(sources[1..], fee - sources[0]);
        DrawnTwice(sources[1..], fee - sources[0], more);
        if more == 0 {
          assert [drawn[0] - 0] + drawn[1..] == drawn;
        }
      }
    }
  }

  lemma DrawnNothing(sources: seq<Amount>)
    ensures Drawn(sources, 0) == sources
  {
    if sources != [] {
      assert [sources[0] - 0] + sources[1..] == sources;
    }
  }

  lemma {:induction false} SumOfPrefix(amounts: seq<Amount>, i: nat)
    requires i < |amounts|
    ensures Sum(amounts[..i + 1]) == Sum(amounts[..i]) + amounts[i]
    ensures Sum(amounts[..i + 1]) <= Sum(amounts)
  {
    if i > 0 {
      SumOfPrefix(amounts[1..], i - 1);
      assert amounts[..i + 1][1..] == amounts[1..][..i] && amounts[..i][1..] == amounts[1..][..i - 1];
    } else {
      assert amounts[..1] == [amounts[0]] && amounts[..1][1..] == [];
    }
  }

  lemma {:induction false} PrefixSumsGrow(amounts: seq<Amount>, i: nat, k: nat)
    requires i <= k <= |amounts|
    ensures Sum(amounts[..i]) <= Sum(amounts[..k])
  {
    if i < k {
      PrefixSumsGrow(amounts, i, k - 1);
      SumOfPrefix(amounts, k - 1);
    }
  }

  /** A charge that ends within a source, or empties them all. */
  lemma DrawnPointwise(sources: seq<Amount>, fee: nat, i: nat, after: seq<Amount>)
    requires i <= |sources| == |after| && Sum(sources[..i]) <= fee
    requires i < |sources| ==> fee <= Sum(sources[..i]) + sources[i] == fee + after[i]
    requires forall k | 0 <= k < i :: after[k] == 0
    requires forall k | i < k < |sources| :: after[k] == sources[k]
    ensures after == Drawn(sources, fee)
  {
    forall k | 0 <= k < |sources| ensures after[k] == Drawn(sources, fee)[k] {
      DrawnInOrder(sources, fee, k);
      SumOfPrefix(sources, k);
      if k < i {
        PrefixSumsGrow(sources, k + 1, i);
      } else if i < k {
        SumOfPrefix(sources, i);
        PrefixSumsGrow(sources, i + 1, k);
      }
    }
  }

  /** Draws a fee from the sources in order; if they do not suffice, they are all emptied. */
  method TrySubAssign(sources: seq<Amount>, other: Amount) returns (after: seq<Amount>, ok: bool)
    ensures after == Drawn(sources, other)
    ensures ok <==> other <= Sum(sources)
  {
    var rest: nat := other;
    after := sources;
    for i := 0 to |sources|
      invariant |after| == |sources| && rest == other - Sum(sources[..i])
      invariant forall k | 0 <= k < i :: after[k] == 0
      invariant forall k | i <= k < |sources| :: after[k] == sources[k]
    {
      SumOfPrefix(sources, i);
      if after[i] >= rest {
        after := after[i := after[i] - rest];
        DrawnPointwise(sources, other, i, after);
        return after, true;
      }
      rest := rest - after[i];
      after := after[i := 0];
    }
    assert sources[..|sources|] == sources;
    DrawnPointwise(sources, other, |sources|, after);
    ok := rest == 0;
  }

  /** The sum of the sources, or nothing if it overflows. */
  method Balance(sources: seq<Amount>) returns (r: Option<Amount>)
    ensures r == if Sum(sources) <= U128_MAX then Some(Sum(sources)) else None
  {
    var amount: Amount := 0;
    for i := 0 to |sources|
      invariant amount == Sum(sources[..i])
    {
      SumOfPrefix(sources, i);
      if amount + sources[i] > U128_MAX {
        return None;
      }
      amount := amount + sources[i];
    }
    assert sources[..|sources|] == sources;
    return Some(amount);
  }

  /** Who pays: one balance, or a list of accounts. */
  datatype Account = Single(amount: Amount) | Sources(amounts: seq<Amount>) {
    function Total(): nat {
      match this
      case Single(amount) => amount
      case Sources(amounts) => Sum(amounts)
    }

    function Less(fee: nat): Account
      requires fee <= Total()
    {
      match this
      case Single(amount) => Single(amount - fee)
      case Sources(amounts) => Sources(Drawn(amounts, fee))
    }

    /** The balance as an amount; an overflow counts as the largest one. */
    function Payable(): Amount {
      if Total() <= U128_MAX then Total() else U128_MAX
    }
  }

  lemma LessIsLess(account: Account, fee: nat, more: nat)
    requires fee + more <= account.Total()
    ensures account.Less(fee).Total() == account.Total() - fee
    ensures account.Less(fee).Less(more) == account.Less(fee + more)
    ensures account.Less(0) == account
  {
    if account.Sources? {
      DrawnPays(account.amounts, fee);
      DrawnTwice(account.amounts, fee, more);
      DrawnNothing(account.amounts);
    }
  }

  datatype Policy = Policy(
    block: Amount,
    fuelUnit: Amount,
    readOperation: Amount,
    writeOperation: Amount,
    byteRead: Amount,
    byteWritten: Amount,
    operation: Amount,
    operationByte: Amount,
    message: Amount,
    messageByte: Amount,
    maximumFuelPerBlock: u64,
    maximumBytesReadPerBlock: u64,
    maximumBytesWrittenPerBlock: u64)

  /** The resources used so far. */
  datatype Tracker = Tracker(
    blocks: nat,
    fuel: nat,
    readOperations: nat,
    writeOperations: nat,
    bytesRead: nat,
    bytesWritten: nat,
    operations: nat,
    operationBytes: nat,
    messages: nat,
    messageBytes: nat,
    grants: nat)

  /** What can be tracked; a user operation or message is charged by its size as well. */
  datatype Activity =
    | Grant(amount: Amount)
    | NewBlock
    | SystemOperation
    | UserOperation(size: u64)
    | SystemMessage
    | UserMessage(size: u64)
    | Fuel(units: u64)
    | ReadOperations(count: u32)
    | WriteOperations(count: u32)
    | BytesRead(bytes: u64)
    | BytesWritten(bytes: u64)

  datatype ExecutionError =
    | ArithmeticOverflow
    | InsufficientFunding(balance: Amount)
    | MaximumFuelExceeded
    | ExcessiveRead
    | ExcessiveWrite

  function Times(price: Amount, count: nat): nat {
    price * count
  }

  /** The price of everything tracked so far, grants included. */
  function PriceOf(p: Policy, t: Tracker): nat {
    Times(p.block, t.blocks) + Times(p.fuelUnit, t.fuel)
    + Times(p.readOperation, t.readOperations) + Times(p.writeOperation, t.writeOperations)
    + Times(p.byteRead, t.bytesRead) + Times(p.byteWritten, t.bytesWritten)
    + Times(p.operation, t.operations) + Times(p.operationByte, t.operationBytes)
    + Times(p.message, t.messages) + Times(p.messageByte, t.messageBytes)
    + t.grants
  }

  function Use(t: Tracker, a: Activity): Tracker {
    match a
    case Grant(amount) => t.(grants := t.grants + amount)
    case NewBlock => t.(blocks := t.blocks + 1)
    case SystemOperation => t.(operations := t.operations + 1)
    case UserOperation(size) => t.(operations := t.operations + 1, operationBytes := t.operationBytes + size)
    case SystemMessage => t.(messages := t.messages + 1)
    case UserMessage(size) => t.(messages := t.messages + 1, messageBytes := t.messageBytes + size)
    case Fuel(units) => t.(fuel := t.fuel + units)
    case ReadOperations(count) => t.(readOperations := t.readOperations + count)
    case WriteOperations(count) => t.(writeOperations := t.writeOperations + count)
    case BytesRead(bytes) => t.(bytesRead := t.bytesRead + bytes)
    case BytesWritten(bytes) => t.(bytesWritten := t.bytesWritten + bytes)
  }

  function CostOf(p: Policy, a: Activity): nat {
    match a
    case Grant(amount) => amount
    case NewBlock => p.block
    case SystemOperation => p.operation
    case UserOperation(size) => p.operation + Times(p.operationByte, size)
    case SystemMessage => p.message
    case UserMessage(size) => p.message + Times(p.messageByte, size)
    case Fuel(units) => Times(p.fuelUnit, units)
    case ReadOperations(count) => Times(p.readOperation, count)
    case WriteOperations(count) => Times(p.writeOperation, count)
    case BytesRead(bytes) => Times(p.byteRead, bytes)
    case BytesWritten(bytes) => Times(p.byteWritten, bytes)
  }

  /** The counters that an activity touches fit their types and the limits of the policy. */
  predicate Allowed(p: Policy, t: Tracker, a: Activity) {
    match a
    case Grant(_) => t.grants <= U128_MAX
    case NewBlock => t.blocks <= U32_MAX
    case SystemOperation => t.operations <= U32_MAX
    case UserOperation(_) => t.operations <= U32_MAX && t.operationBytes <= U64_MAX
    case SystemMessage => t.messages <= U32_MAX
    case UserMessage(_) => t.messages <= U32_MAX && t.messageBytes <= U64_MAX
    case Fuel(_) => t.fuel <= p.maximumFuelPerBlock
    case ReadOperations(_) => t.readOperations <= U32_MAX
    case WriteOperations(_) => t.writeOperations <= U32_MAX
    case BytesRead(_) => t.bytesRead < p.maximumBytesReadPerBlock
    case BytesWritten(_) => t.bytesWritten < p.maximumBytesWrittenPerBlock
  }

  /** No single price overflows. */
  predicate PriceFits(p: Policy, a: Activity) {
    match a
    case UserOperation(size) => Times(p.operationByte, size) <= U128_MAX
    case UserMessage(size) => Times(p.messageByte, size) <= U128_MAX
    case _ => CostOf(p, a) <= U128_MAX
  }

  datatype Controller = Controller(policy: Policy, tracker: Tracker, account: Account) {
    predicate CanTrack(a: Activity) {
      Allowed(policy, Use(tracker, a), a) && PriceFits(policy, a) && CostOf(policy, a) <= account.Total()
    }

    function Next(a: Activity): Controller
      requires CanTrack(a)
    {
      Controller(policy, Use(tracker, a), account.Less(CostOf(policy, a)))
    }

    function RemainingFuel(): nat {
      var payable := if policy.fuelUnit == 0 then U64_MAX else Min(account.Payable() / policy.fuelUnit, U64_MAX);
      Min(payable, Max(0, policy.maximumFuelPerBlock - tracker.fuel))
    }
  }

  function Run(c: Controller, activities: seq<Activity>): Option<Controller> {
    if activities == [] then Some(c)
    else
      var before := Run(c, activities[..|activities| - 1]);
      var a := activities[|activities| - 1];
      if before.Some? && before.value.CanTrack(a) then Some(before.value.Next(a)) else None
  }

  function TotalUse(t: Tracker, activities: seq<Activity>): Tracker {
    if activities == [] then t
    else Use(TotalUse(t, activities[..|activities| - 1]), activities[|activities| - 1])
  }

  function TotalCost(p: Policy, activities: seq<Activity>): nat {
    if activities == [] then 0
    else TotalCost(p, activities[..|activities| - 1]) + CostOf(p, activities[|activities| - 1])
  }

  /** No price overflows, every limit holds for what is used in total, and the total can be paid. */
  predicate Affordable(c: Controller, activities: seq<Activity>) {
    && (forall a | a in activities :: Allowed(c.policy, TotalUse(c.tracker, activities), a) && PriceFits(c.policy, a))
    && TotalCost(c.policy, activities) <= c.account.Total()
  }

  lemma LimitsAreCumulative(p: Policy, t: Tracker, a: Activity, x: Activity)
    ensures Allowed(p, Use(t, x), a) ==> Allowed(p, t, a)
    ensures Allowed(p, t, a) && Allowed(p, Use(t, x), x) ==> Allowed(p, Use(t, x), a)
  {}

  lemma AffordableStep(c: Controller, before: seq<Activity>, a: Activity)
    ensures Affordable(c, before + [a]) <==>
            && Affordable(c, before)
            && Allowed(c.policy, Use(TotalUse(c.tracker, before), a), a) && PriceFits(c.policy, a)
            && TotalCost(c.policy, before) + CostOf(c.policy, a) <= c.account.Total()
  {
    var activities := before + [a];
    var t := TotalUse(c.tracker, before);
    assert activities[..|activities| - 1] == before;
    forall x | x in before
      ensures Allowed(c.policy, Use(t, a), a) && Allowed(c.policy, t, x) ==> Allowed(c.policy, Use(t, a), x)
      ensures x in activities && (Allowed(c.policy, Use(t, a), x) ==> Allowed(c.policy, t, x))
    {
      LimitsAreCumulative(c.policy, t, x, a);
    }
    assert a in activities;
  }

  lemma OneMoreCharge(c: Controller, before: seq<Activity>, a: Activity)
    requires TotalCost(c.policy, before) <= c.account.Total()
    ensures var spent, cost := TotalCost(c.policy, before), CostOf(c.policy, a);
            var d := Controller(c.policy, TotalUse(c.tracker, before), c.account.Less(spent));
            && (d.CanTrack(a) <==>
                  Allowed(c.policy, Use(d.tracker, a), a) && PriceFits(c.policy, a)
                      && spent + cost <= c.account.Total())
            && (d.CanTrack(a) ==> d.Next(a) == Controller(c.policy, Use(d.tracker, a), c.account.Less(spent + cost)))
  {
    var spent, cost := TotalCost(c.policy, before), CostOf(c.policy, a);
    LessIsLess(c.account, spent, 0);
    if spent + cost <= c.account.Total() {
      LessIsLess(c.account, spent, cost);
    }
  }

  /**
   * A whole run of track calls succeeds exactly when the totals respect the limits and can be
   * paid; then the tracker holds the totals, and the sources are as after one single charge.
   */
  lemma {:induction false} RunSucceedsWhenAffordable(c: Controller, activities: seq<Activity>)
    ensures Run(c, activities).Some? <==> Affordable(c, activities)
    ensures Run(c, activities).Some? ==>
              Run(c, activities).value == Controller(c.policy, TotalUse(c.tracker, activities),
                                                     c.account.Less(TotalCost(c.policy, activities)))
  {
    if activities == [] {
      LessIsLess(c.account, 0, 0);
    } else {
      var before, a := activities[..|activities| - 1], activities[|activities| - 1];
      assert activities == before + [a];
      RunSucceedsWhenAffordable(c, before);
      AffordableStep(c, before, a);
      if Run(c, before).Some? {
        OneMoreCharge(c, before, a);
      }
    }
  }

  lemma Distribute(price: Amount, count: nat, more: nat)
    ensures Times(price, count + more) == Times(price, count) + Times(price, more)
    ensures Times(price, 1) == price
  {}

  /** What an activity costs is what it adds to the price of the counters. */
  lemma CostIsAddedPrice(p: Policy, t: Tracker, a: Activity)
    ensures PriceOf(p, Use(t, a)) == PriceOf(p, t) + CostOf(p, a)
  {
    match a
    case Grant(_) =>
    case NewBlock => Distribute(p.block, t.blocks, 1);
    case SystemOperation => Distribute(p.operation, t.operations, 1);
    case UserOperation(size) =>
      Distribute(p.operation, t.operations, 1);
      Distribute(p.operationByte, t.operationBytes, size);
    case SystemMessage => Distribute(p.message, t.messages, 1);
    case UserMessage(size) =>
      Distribute(p.message, t.messages, 1);
      Distribute(p.messageByte, t.messageBytes, size);
    case Fuel(units) => Distribute(p.fuelUnit, t.fuel, units);
    case ReadOperations(count) => Distribute(p.readOperation, t.readOperations, count);
    case WriteOperations(count) => Distribute(p.writeOperation, t.writeOperations, count);
    case BytesRead(bytes) => Distribute(p.byteRead, t.bytesRead, bytes);
    case BytesWritten(bytes) => Distribute(p.byteWritten, t.bytesWritten, bytes);
  }

  /** With a balance that does not overflow, no price of a payable total overflows either. */
  lemma {:induction false} PayablePricesFit(p: Policy, activities: seq<Activity>, a: Activity)
    requires TotalCost(p, activities) <= U128_MAX && a in activities
    ensures PriceFits(p, a)
  {
    var n := |activities| - 1;
    if a != activities[n] {
      PayablePricesFit(p, activities[..n], a);
    }
  }

  /** After any successful run, the balance has dropped by the price of the counters and the grants. */
  lemma {:induction false} BalanceDropsByThePrice(c: Controller, activities: seq<Activity>)
    requires Run(c, activities).Some?
    ensures var d := Run(c, activities).value;
            && d.policy == c.policy
            && d.account.Total() + PriceOf(c.policy, d.tracker) == c.account.Total() + PriceOf(c.policy, c.tracker)
  {
    if activities != [] {
      var before, a := activities[..|activities| - 1], activities[|activities| - 1];
      BalanceDropsByThePrice(c, before);
      var d := Run(c, before).value;
      CostIsAddedPrice(c.policy, d.tracker, a);
      LessIsLess(d.account, CostOf(c.policy, a), 0);
    }
  }

  /** The sum of a quantity over some activities. */
  function Tally(activities: seq<Activity>, quantity: Activity -> nat): nat {
    if activities == [] then 0
    else Tally(activities[..|activities| - 1], quantity) + quantity(activities[|activities| - 1])
  }

  function OperationsOf(a: Activity): nat {
    if a.SystemOperation? || a.UserOperation? then 1 else 0
  }

  function OperationBytesOf(a: Activity): nat {
    if a.UserOperation? then a.size else 0
  }

  function MessagesOf(a: Activity): nat {
    if a.SystemMessage? || a.UserMessage? then 1 else 0
  }

  function MessageBytesOf(a: Activity): nat {
    if a.UserMessage? then a.size else 0
  }

  function FuelOf(a: Activity): nat {
    if a.Fuel? then a.units else 0
  }

  function BytesReadOf(a: Activity): nat {
    if a.BytesRead? then a.bytes else 0
  }

  function BytesWrittenOf(a: Activity): nat {
    if a.BytesWritten? then a.bytes else 0
  }

  /** The counters hold how many operations and messages there were, their bytes, the fuel and the bytes accessed. */
  lemma {:induction false} CountersAreExact(t: Tracker, activities: seq<Activity>)
    ensures var total := TotalUse(t, activities);
            && total.operations == t.operations + Tally(activities, OperationsOf)
            && total.operationBytes == t.operationBytes + Tally(activities, OperationBytesOf)
            && total.messages == t.messages + Tally(activities, MessagesOf)
            && total.messageBytes == t.messageBytes + Tally(activities, MessageBytesOf)
            && total.fuel == t.fuel + Tally(activities, FuelOf)
            && total.bytesRead == t.bytesRead + Tally(activities, BytesReadOf)
            && total.bytesWritten == t.bytesWritten + Tally(activities, BytesWrittenOf)
  {
    if activities != [] {
      CountersAreExact(t, activities[..|activities| - 1]);
    }
  }

  /** A successful run stays below the limits of bytes and within the limit of fuel that it uses. */
  lemma RunsStayWithinLimits(c: Controller, activities: seq<Activity>)
    requires Run(c, activities).Some?
    ensures (exists a | a in activities :: a.BytesRead?) ==>
            c.tracker.bytesRead + Tally(activities, BytesReadOf) < c.policy.maximumBytesReadPerBlock
    ensures (exists a | a in activities :: a.BytesWritten?) ==>
            c.tracker.bytesWritten + Tally(activities, BytesWrittenOf) < c.policy.maximumBytesWrittenPerBlock
    ensures (exists a | a in activities :: a.Fuel?) ==>
            c.tracker.fuel + Tally(activities, FuelOf) <= c.policy.maximumFuelPerBlock
  {
    RunSucceedsWhenAffordable(c, activities);
    CountersAreExact(c.tracker, activities);
  }

  /** Bytes can be tracked exactly if they stay below their limit and can be paid. */
  lemma BytesAreTrackedExactly(c: Controller, bytes: u64)
    ensures var price := c.policy.byteRead * bytes;
            c.CanTrack(BytesRead(bytes)) <==>
              && c.tracker.bytesRead + bytes < c.policy.maximumBytesReadPerBlock
              && price <= U128_MAX && price <= c.account.Total()
    ensures var price := c.policy.byteWritten * bytes;
            c.CanTrack(BytesWritten(bytes)) <==>
              && c.tracker.bytesWritten + bytes < c.policy.maximumBytesWrittenPerBlock
              && price <= U128_MAX && price <= c.account.Total()
  {}

  lemma Divide(g: nat, unit: nat, balance: nat)
    requires unit > 0
    ensures g * unit <= balance <==> g <= balance / unit
  {
    var q := balance / unit;
    assert balance == q * unit + balance % unit;
    if g <= q {
      assert g * unit <= q * unit;
    } else {
      assert g * unit >= (q + 1) * unit == q * unit + unit;
    }
  }

  /** The remaining fuel is exactly what can still be tracked, whatever account pays. */
  lemma RemainingFuelIsExact(c: Controller, g: u64)
    ensures c.CanTrack(Fuel(g)) <==> c.tracker.fuel <= c.policy.maximumFuelPerBlock && g <= c.RemainingFuel()
  {
    var unit := c.policy.fuelUnit;
    if unit > 0 {
      Divide(g, unit, c.account.Payable());
      assert unit * g == g * unit;
    } else {
      assert unit * g == 0;
    }
  }

  /** Charging a snapshot of the balance and merging the difference gives the same sources as charging them directly. */
  lemma SandboxedChargingIsDirect(c: Controller, activities: seq<Activity>)
    requires c.account.Sources? && c.account.Total() <= U128_MAX
    ensures var sandbox := Run(c.(account := Single(c.account.Total())), activities);
            var direct := Run(c, activities);
            && (sandbox.Some? <==> direct.Some?)
            && (sandbox.Some? ==>
                  && sandbox.value.account.Single? && sandbox.value.account.amount <= c.account.Total()
                  && direct.value == Controller(c.policy, sandbox.value.tracker,
                                                c.account.Less(c.account.Total() - sandbox.value.account.amount)))
  {
    RunSucceedsWhenAffordable(c, activities);
    RunSucceedsWhenAffordable(c.(account := Single(c.account.Total())), activities);
  }

  lemma UseCommutes(t: Tracker, a: Activity, b: Activity)
    ensures Use(Use(t, a), b) == Use(Use(t, b), a)
  {}

  lemma {:induction false} TotalsWithout(p: Policy, t: Tracker, activities: seq<Activity>, i: nat)
    requires i < |activities|
    ensures var rest := activities[..i] + activities[i + 1..];
            && TotalUse(t, activities) == Use(TotalUse(t, rest), activities[i])
            && TotalCost(p, activities) == TotalCost(p, rest) + CostOf(p, activities[i])
  {
    var n := |activities| - 1;
    var rest := activities[..i] + activities[i + 1..];
    if i == n {
      assert rest == activities[..n];
    } else {
      TotalsWithout(p, t, activities[..n], i);
      var shorter := activities[..n][..i] + activities[..n][i + 1..];
      assert rest[..|rest| - 1] == shorter && rest[|rest| - 1] == activities[n];
      UseCommutes(TotalUse(t, shorter), activities[i], activities[n]);
    }
  }

  /** Some element of a reordered list is the last one of the other; without it, they are still reordered. */
  lemma FindLast(xs: seq<Activity>, ys: seq<Activity>) returns (i: nat)
    requires xs != [] && multiset(xs) == multiset(ys)
    ensures i < |ys| && ys[i] == xs[|xs| - 1]
    ensures multiset(xs[..|xs| - 1]) == multiset(ys[..i] + ys[i + 1..])
  {
    var n := |xs| - 1;
    assert xs == xs[..n] + [xs[n]];
    assert xs[n] in multiset(ys);
    i :| 0 <= i < |ys| && ys[i] == xs[n];
    assert ys == ys[..i] + [ys[i]] + ys[i + 1..];
    assert multiset(xs[..n]) == multiset(xs) - multiset{xs[n]};
    assert multiset(ys[..i] + ys[i + 1..]) == multiset(ys) - multiset{xs[n]};
  }

  lemma {:induction false} TotalsIgnoreTheOrder(p: Policy, t: Tracker, xs: seq<Activity>, ys: seq<Activity>)
    requires multiset(xs) == multiset(ys)
    ensures TotalUse(t, xs) == TotalUse(t, ys) && TotalCost(p, xs) == TotalCost(p, ys)
    decreases |xs|
  {
    if xs == [] {
      assert |multiset(ys)| == 0;
    } else {
      var i := FindLast(xs, ys);
      TotalsIgnoreTheOrder(p, t, xs[..|xs| - 1], ys[..i] + ys[i + 1..]);
      TotalsWithout(p, t, ys, i);
    }
  }

  /** Whether a block's activities can be paid, and what is left, does not depend on their order. */
  lemma ChargesIgnoreTheOrder(c: Controller, xs: seq<Activity>, ys: seq<Activity>)
    requires multiset(xs) == multiset(ys)
    ensures Run(c, xs) == Run(c, ys)
  {
    TotalsIgnoreTheOrder(c.policy, c.tracker, xs, ys);
    RunSucceedsWhenAffordable(c, xs);
    RunSucceedsWhenAffordable(c, ys);
    forall a ensures a in xs <==> a in ys {
      assert a in multiset(xs) <==> a in multiset(ys);
    }
  }
}
