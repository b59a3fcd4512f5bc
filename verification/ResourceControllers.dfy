/** The resource controller: an account and a tracker updated in place by every charge. */
module ResourceControllers {
  import opened Basics
  import opened Fees

  /** The counters that an activity touches fit their integer types. */
  predicate Fits(t: Tracker, a: Activity) {
    match a
    case Fuel(_) => t.fuel <= U64_MAX
    case BytesRead(_) => t.bytesRead <= U64_MAX
    case BytesWritten(_) => t.bytesWritten <= U64_MAX
    case Grant(_) => t.grants <= U128_MAX
    case NewBlock => t.blocks <= U32_MAX
    case SystemOperation => t.operations <= U32_MAX
    case UserOperation(_) => t.operations <= U32_MAX && t.operationBytes <= U64_MAX
    case SystemMessage => t.messages <= U32_MAX
    case UserMessage(_) => t.messages <= U32_MAX && t.messageBytes <= U64_MAX
    case ReadOperations(_) => t.readOperations <= U32_MAX
    case WriteOperations(_) => t.writeOperations <= U32_MAX
  }

  /** What a reported error means. */
  predicate Explains(before: Controller, a: Activity, after: Controller, error: ExecutionError) {
    var t := Use(before.tracker, a);
    match error
    case ArithmeticOverflow => !Fits(t, a) || !PriceFits(before.policy, a)
    case InsufficientFunding(balance) =>
      CostOf(before.policy, a) > before.account.Total() && balance == after.account.Payable()
    case MaximumFuelExceeded => a.Fuel? && t.fuel > before.policy.maximumFuelPerBlock
    case ExcessiveRead => a.BytesRead? && t.bytesRead >= before.policy.maximumBytesReadPerBlock
    case ExcessiveWrite => a.BytesWritten? && t.bytesWritten >= before.policy.maximumBytesWrittenPerBlock
  }

  /** One track call: it succeeds exactly when the activity can be tracked, and then takes its effect. */
  predicate Tracked(before: Controller, a: Activity, after: Controller, error: Option<ExecutionError>) {
    && (error.None? <==> before.CanTrack(a))
    && (error.None? ==> after == before.Next(a))
    && (error.Some? ==> after.policy == before.policy && Explains(before, a, after, error.value))
  }

  /** The account that receives an amount is the last source. */
  function Credited(account: Account, extra: nat): Option<Account>
    requires account.Sources? ==> account.amounts != []
  {
    match account
    case Single(amount) => if amount + extra <= U128_MAX then Some(Single(amount + extra)) else None
    case Sources(amounts) =>
      var last := |amounts| - 1;
      if amounts[last] + extra <= U128_MAX then Some(Sources(amounts[last := amounts[last] + extra])) else None
  }

  /** A credit goes to the last source alone, and fails only if that source overflows. */
  lemma CreditedExactly(account: Account, extra: nat)
    requires account.Sources? ==> account.amounts != []
    ensures var r := Credited(account, extra);
            match account
            case Single(amount) =>
              if amount + extra <= U128_MAX then r == Some(Single(amount + extra)) else r.None?
            case Sources(amounts) =>
              && (r.None? <==> amounts[|amounts| - 1] + extra > U128_MAX)
              && (r.Some? ==>
                    && r.value.Sources? && |r.value.amounts| == |amounts|
                    && r.value.amounts[..|amounts| - 1] == amounts[..|amounts| - 1]
                    && r.value.Total() == account.Total() + extra)
  {
    if account.Sources? && Credited(account, extra).Some? {
      var n, after := |account.amounts| - 1, Credited(account, extra).value.amounts;
      SumOfPrefix(account.amounts, n);
      SumOfPrefix(after, n);
      assert account.amounts[..n + 1] == account.amounts && after[..n + 1] == after;
      assert after[..n] == account.amounts[..n];
    }
  }

  lemma {:induction false} RunStopsAtFailure(c: Controller, activities: seq<Activity>, n: nat)
    requires n <= |activities| && Run(c, activities[..n]).None?
    ensures Run(c, activities).None?
  {
    if n == |activities| {
      assert activities[..n] == activities;
    } else {
      assert activities[..|activities| - 1][..n] == activities[..n];
      RunStopsAtFailure(c, activities[..|activities| - 1], n);
    }
  }

  class ResourceController {
    const policy: Policy
    var tracker: Tracker
    var account: Account

    constructor (policy: Policy, tracker: Tracker, account: Account)
      ensures State() == Controller(policy, tracker, account)
    {
      this.policy, this.tracker, this.account := policy, tracker, account;
    }

    function State(): Controller
      reads this
    {
      Controller(policy, tracker, account)
    }

    method UpdateBalance(fees: Amount) returns (error: Option<ExecutionError>)
      modifies `account
      ensures error.None? <==> fees <= old(account).Total()
      ensures error.None? ==> account == old(account).Less(fees)
      ensures error.Some? ==> error == Some(InsufficientFunding(account.Payable()))
    {
      match account {
        case Single(amount) =>
          if amount < fees {
            return Some(InsufficientFunding(account.Payable()));
          }
          account := Single(amount - fees);
        case Sources(amounts) =>
          var after, ok := TrySubAssign(amounts, fees);
          account := Sources(after);
          if !ok {
            return Some(InsufficientFunding(account.Payable()));
          }
      }
      return None;
    }

    /** A three-way merge: the difference between `initial` and `other` is moved to or from the account. */
    method MergeBalance(initial: Amount, other: Amount) returns (error: Option<ExecutionError>)
      requires account.Sources? ==> account.amounts != []
      modifies `account
      ensures other <= initial ==>
                && (error.None? <==> initial - other <= old(account).Total())
                && (error.None? ==> account == old(account).Less(initial - other))
      ensures other > initial ==>
                && (error.None? <==> Credited(old(account), other - initial).Some?)
                && account == if error.None? then Credited(old(account), other - initial).value else old(account)
    {
      if other <= initial {
        error := UpdateBalance(initial - other);
      } else {
        match Credited(account, other - initial) {
          case None => return Some(ArithmeticOverflow);
          case Some(credited) => account := credited;
        }
        return None;
      }
    }

    method TrackGrant(grant: Amount) returns (error: Option<ExecutionError>)
      modifies this
      ensures Tracked(old(State()), Grant(grant), State(), error)
    {
      if tracker.grants + grant > U128_MAX {
        return Some(ArithmeticOverflow);
      }
      tracker := tracker.(grants := tracker.grants + grant);
      error := UpdateBalance(grant);
    }

    method TrackBlock() returns (error: Option<ExecutionError>)
      modifies this
      ensures Tracked(old(State()), NewBlock, State(), error)
    {
      if tracker.blocks + 1 > U32_MAX {
        return Some(ArithmeticOverflow);
      }
      tracker := tracker.(blocks := tracker.blocks + 1);
      error := UpdateBalance(policy.block);
    }

    /** Tracks an operation; `size` is given for a user operation. */
    method TrackOperation(size: Option<u64>) returns (error: Option<ExecutionError>)
      modifies this
      ensures Tracked(old(State()), if size.Some? then UserOperation(size.value) else SystemOperation, State(), error)
    {
      if tracker.operations + 1 > U32_MAX {
        return Some(ArithmeticOverflow);
      }
      tracker := tracker.(operations := tracker.operations + 1);
      error := UpdateBalance(policy.operation);
      if error.Some? || size.None? {
        return;
      }
      if tracker.operationBytes + size.value > U64_MAX {
        return Some(ArithmeticOverflow);
      }
      tracker := tracker.(operationBytes := tracker.operationBytes + size.value);
      var price := Times(policy.operationByte, size.value);
      if price > U128_MAX {
        return Some(ArithmeticOverflow);
      }
      ChargeTwice(old(account), policy.operation, price);
      error := UpdateBalance(price);
    }

    /** Tracks an outgoing message; `size` is given for a user message. */
    method TrackMessage(size: Option<u64>) returns (error: Option<ExecutionError>)
      modifies this
      ensures Tracked(old(State()), if size.Some? then UserMessage(size.value) else SystemMessage, State(), error)
    {
      if tracker.messages + 1 > U32_MAX {
        return Some(ArithmeticOverflow);
      }
      tracker := tracker.(messages := tracker.messages + 1);
      error := UpdateBalance(policy.message);
      if error.Some? || size.None? {
        return;
      }
      if tracker.messageBytes + size.value > U64_MAX {
        return Some(ArithmeticOverflow);
      }
      tracker := tracker.(messageBytes := tracker.messageBytes + size.value);
      var price := Times(policy.messageByte, size.value);
      if price > U128_MAX {
        return Some(ArithmeticOverflow);
      }
      ChargeTwice(old(account), policy.message, price);
      error := UpdateBalance(price);
    }

    method TrackFuel(fuel: u64) returns (error: Option<ExecutionError>)
      modifies this
      ensures Tracked(old(State()), Fuel(fuel), State(), error)
    {
      if tracker.fuel + fuel > U64_MAX {
        return Some(ArithmeticOverflow);
      }
      tracker := tracker.(fuel := tracker.fuel + fuel);
      if tracker.fuel > policy.maximumFuelPerBlock {
        return Some(MaximumFuelExceeded);
      }
      error := Charge(policy.fuelUnit, fuel);
    }

    method TrackReadOperations(count: u32) returns (error: Option<ExecutionError>)
      modifies this
      ensures Tracked(old(State()), ReadOperations(count), State(), error)
    {
      if tracker.readOperations + count > U32_MAX {
        return Some(ArithmeticOverflow);
      }
      tracker := tracker.(readOperations := tracker.readOperations + count);
      error := Charge(policy.readOperation, count);
    }

    method TrackWriteOperations(count: u32) returns (error: Option<ExecutionError>)
      modifies this
      ensures Tracked(old(State()), WriteOperations(count), State(), error)
    {
      if tracker.writeOperations + count > U32_MAX {
        return Some(ArithmeticOverflow);
      }
      tracker := tracker.(writeOperations := tracker.writeOperations + count);
      error := Charge(policy.writeOperation, count);
    }

    method TrackBytesRead(count: u64) returns (error: Option<ExecutionError>)
      modifies this
      ensures Tracked(old(State()), BytesRead(count), State(), error)
    {
      if tracker.bytesRead + count > U64_MAX {
        return Some(ArithmeticOverflow);
      }
      tracker := tracker.(bytesRead := tracker.bytesRead + count);
      if tracker.bytesRead >= policy.maximumBytesReadPerBlock {
        return Some(ExcessiveRead);
      }
      error := Charge(policy.byteRead, count);
    }

    method TrackBytesWritten(count: u64) returns (error: Option<ExecutionError>)
      modifies this
      ensures Tracked(old(State()), BytesWritten(count), State(), error)
    {
      if tracker.bytesWritten + count > U64_MAX {
        return Some(ArithmeticOverflow);
      }
      tracker := tracker.(bytesWritten := tracker.bytesWritten + count);
      if tracker.bytesWritten >= policy.maximumBytesWrittenPerBlock {
        return Some(ExcessiveWrite);
      }
      error := Charge(policy.byteWritten, count);
    }

    /** Charges a price per unit, if their product does not overflow. */
    method Charge(unit: Amount, count: nat) returns (error: Option<ExecutionError>)
      modifies `account
      ensures Times(unit, count) > U128_MAX ==> error == Some(ArithmeticOverflow)
      ensures Times(unit, count) <= U128_MAX ==>
                && (error.None? <==> Times(unit, count) <= old(account).Total())
                && (error.None? ==> account == old(account).Less(Times(unit, count)))
                && (error.Some? ==> error == Some(InsufficientFunding(account.Payable())))
    {
      if Times(unit, count) > U128_MAX {
        return Some(ArithmeticOverflow);
      }
      error := UpdateBalance(Times(unit, count));
    }

    method Track(a: Activity) returns (error: Option<ExecutionError>)
      modifies this
      ensures Tracked(old(State()), a, State(), error)
    {
      match a
      case Grant(amount) => error := TrackGrant(amount);
      case NewBlock => error := TrackBlock();
      case SystemOperation => error := TrackOperation(None);
      case UserOperation(size) => error := TrackOperation(Some(size));
      case SystemMessage => error := TrackMessage(None);
      case UserMessage(size) => error := TrackMessage(Some(size));
      case Fuel(units) => error := TrackFuel(units);
      case ReadOperations(count) => error := TrackReadOperations(count);
      case WriteOperations(count) => error := TrackWriteOperations(count);
      case BytesRead(bytes) => error := TrackBytesRead(bytes);
      case BytesWritten(bytes) => error := TrackBytesWritten(bytes);
    }

    /**
     * Runs a user action in a sandbox that charges a snapshot of the balance, and merges the result.
     * It succeeds exactly when the balance does not overflow and charging the sources directly
     * succeeds, with the same tracker and the same balance of every source.
     */
    method RunUserAction(activities: seq<Activity>) returns (error: Option<ExecutionError>)
      requires account.Sources? && account.amounts != []
      modifies this
      ensures error.None? <==> old(account).Total() <= U128_MAX && Run(old(State()), activities).Some?
      ensures State() == if error.None? then Run(old(State()), activities).value else old(State())
    {
      var initial := Balance(account.amounts);
      if initial.None? {
        return Some(ArithmeticOverflow);
      }
      SandboxedChargingIsDirect(State(), activities);
      var sandbox := new ResourceController(policy, tracker, Single(initial.value));
      ghost var snapshot := sandbox.State();
      for i := 0 to |activities|
        invariant State() == old(State())
        invariant Run(snapshot, activities[..i]) == Some(sandbox.State())
      {
        assert activities[..i + 1][..i] == activities[..i];
        error := sandbox.Track(activities[i]);
        if error.Some? {
          RunStopsAtFailure(snapshot, activities, i + 1);
          return;
        }
      }
      assert activities[..|activities|] == activities;
      error := MergeBalance(initial.value, sandbox.account.amount);
      if error.None? {
        tracker := sandbox.tracker;
      }
    }
  }

  /** Two charges in a row fail exactly when their sum cannot be paid. */
  lemma ChargeTwice(account: Account, fee: nat, more: nat)
    requires fee <= account.Total()
    ensures more <= account.Less(fee).Total() <==> fee + more <= account.Total()
    ensures fee + more <= account.Total() ==> account.Less(fee).Less(more) == account.Less(fee + more)
  {
    LessIsLess(account, fee, 0);
    if fee + more <= account.Total() {
      LessIsLess(account, fee, more);
    }
  }
}
