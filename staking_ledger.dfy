/**
 * The ConfidentialStaking ledger: per account, a staked balance, an accrued
 * reward balance and the time of the last settlement. Every mutating call
 * first settles the reward earned since that time, then applies its own
 * effect. Amounts are plain naturals in 6-decimal base units; the block
 * timestamp is the explicit argument `now`.
 */
module StakingLedger {
  import opened Wrappers

  /** One staked unit, 1.000000 cETH. */
  const ONE: nat := 1_000_000
  /** Reward base units earned per day by one staked unit: 10.000000 cUSDT. */
  const RATE_PER_DAY: nat := 10_000_000
  const SECONDS_PER_DAY: nat := 86_400
  /** Largest value of the uint64 balances the contract stores. */
  const UINT64_MAX: nat := 0xFFFF_FFFF_FFFF_FFFF
  /** Divisor of the accrual formula: per second, per base unit of stake. */
  const ACCRUAL_DIVISOR: nat := SECONDS_PER_DAY * ONE

  type Account = string

  /** The custom errors of the modelled operations. */
  datatype Error = AccrualOverflow | InsufficientStaked | NothingToClaim

  datatype Position = Position(staked: nat, accrued: nat, lastUpdate: nat)

  /** What every account reads before it is first touched. */
  const UNTOUCHED: Position := Position(0, 0, 0)

  /** The events the contract emits (kept as a ghost log). */
  datatype Event = Staked(who: Account, units: nat) | Withdrawn(who: Account, units: nat) | Claimed(who: Account, amount: nat)

  /** What the contract's storage can hold: uint64 rewards and whole staked units. */
  predicate Storable(p: Position) {
    p.accrued <= UINT64_MAX && p.staked % ONE == 0
  }

  function Max(a: nat, b: nat): nat {
    if a >= b then a else b
  }

  // ---------------------------------------------------------------------------
  // Floor division

  /** A quotient is determined by the interval the dividend falls in. */
  lemma QuotientByBounds(z: nat, d: nat, q: nat)
    requires d > 0
    requires q * d <= z < (q + 1) * d
    ensures z / d == q
  {
    var r := z / d;
    assert z == r * d + z % d;
    if r < q {
      MulMonotone(r + 1, q, d);
    }
  }

  lemma MulMonotone(a: nat, b: nat, d: nat)
    requires a <= b
    ensures a * d <= b * d
  {
    assert b * d == a * d + (b - a) * d;
  }

  // ---------------------------------------------------------------------------
  // Accrual

  /**
   * Reward earned by `staked` base units over `elapsed` seconds, truncated to
   * a whole base unit: RATE_PER_DAY * elapsed * staked / (SECONDS_PER_DAY * ONE).
   */
  function Accrual(staked: nat, elapsed: nat): (r: nat)
    ensures r * ACCRUAL_DIVISOR <= RATE_PER_DAY * elapsed * staked < (r + 1) * ACCRUAL_DIVISOR
    ensures staked == 0 || elapsed == 0 ==> r == 0
  {
    RATE_PER_DAY * elapsed * staked / ACCRUAL_DIVISOR
  }

  /** For one staked unit the formula is the test's RATE_PER_DAY * elapsed / SECONDS_PER_DAY. */
  lemma AccrualOfOneUnit(elapsed: nat)
    ensures Accrual(ONE, elapsed) == RATE_PER_DAY * elapsed / SECONDS_PER_DAY
  {
    var x := RATE_PER_DAY * elapsed;
    var q := x / SECONDS_PER_DAY;
    assert q * SECONDS_PER_DAY <= x < (q + 1) * SECONDS_PER_DAY;
    assert RATE_PER_DAY * elapsed * ONE == x * ONE;
    assert q * ACCRUAL_DIVISOR <= x * ONE < (q + 1) * ACCRUAL_DIVISOR;
    QuotientByBounds(x * ONE, ACCRUAL_DIVISOR, q);
  }

  /** One unit staked for one hour earns 416_666 base units (0.416666 cUSDT). */
  lemma AccrualOfOneUnitForOneHour()
    ensures Accrual(ONE, 3600) == 416_666
  {
    AccrualOfOneUnit(3600);
  }

  /**
   * Settling in between loses at most one base unit to truncation: the reward
   * over two consecutive spans is the reward over the whole span, or one less.
   */
  lemma AccrualSplit(staked: nat, e1: nat, e2: nat)
    ensures Accrual(staked, e1) + Accrual(staked, e2) <= Accrual(staked, e1 + e2)
    ensures Accrual(staked, e1 + e2) <= Accrual(staked, e1) + Accrual(staked, e2) + 1
  {
    var x, y := RATE_PER_DAY * e1 * staked, RATE_PER_DAY * e2 * staked;
    assert RATE_PER_DAY * (e1 + e2) * staked == x + y;
    var q1, q2 := Accrual(staked, e1), Accrual(staked, e2);
    var q := Accrual(staked, e1 + e2);
    // q is the quotient of x + y, whose interval starts at q1 + q2 or one above
    assert (q1 + q2) * ACCRUAL_DIVISOR <= x + y < (q1 + q2 + 2) * ACCRUAL_DIVISOR;
    if q < q1 + q2 {
      MulMonotone(q + 1, q1 + q2, ACCRUAL_DIVISOR);
    } else if q > q1 + q2 + 1 {
      MulMonotone(q1 + q2 + 2, q, ACCRUAL_DIVISOR);
    }
  }

  /** With at least one unit staked, every second adds at least one base unit. */
  lemma AccrualGrows(staked: nat, e1: nat, e2: nat)
    requires staked >= ONE
    requires e1 < e2
    ensures Accrual(staked, e1) < Accrual(staked, e2)
  {
    var d := e2 - e1;
    AccrualSplit(staked, e1, d);
    assert d * staked >= ONE by { MulMonotone(1, d, staked); MulMonotone(ONE, staked, 1); }
    assert RATE_PER_DAY * d * staked >= RATE_PER_DAY * ONE;
    assert Accrual(staked, d) >= 1;
  }

  // ---------------------------------------------------------------------------
  // Settlement

  /** Seconds since the last settlement; a clock reading before it counts as none. */
  function Elapsed(p: Position, now: nat): (e: nat)
    ensures p.lastUpdate + e == Max(p.lastUpdate, now)
  {
    if now > p.lastUpdate then now - p.lastUpdate else 0
  }

  /** The reward a position has earned by `now`, whether settled or not. */
  function ProjectedAccrued(p: Position, now: nat): (r: nat)
    ensures r >= p.accrued
    ensures now <= p.lastUpdate || p.staked == 0 ==> r == p.accrued
  {
    p.accrued + Accrual(p.staked, Elapsed(p, now))
  }

  /**
   * Brings a position up to `now`: adds the pending reward and moves the last
   * update time forward, or fails with AccrualOverflow when the reward no
   * longer fits a uint64.
   */
  function Settle(p: Position, now: nat): (r: Result<Position, Error>)
    ensures r.Failure? <==> ProjectedAccrued(p, now) > UINT64_MAX
    ensures r.Failure? ==> r.error == AccrualOverflow
    ensures r.Success? ==> r.value.staked == p.staked && p.accrued <= r.value.accrued <= UINT64_MAX
    ensures r.Success? ==> r.value.lastUpdate >= p.lastUpdate && r.value.lastUpdate >= now
    ensures r.Success? ==> ProjectedAccrued(r.value, now) == ProjectedAccrued(p, now)
  {
    var total := ProjectedAccrued(p, now);
    if total > UINT64_MAX then Failure(AccrualOverflow)
    else Success(Position(p.staked, total, Max(p.lastUpdate, now)))
  }

  /** Settling twice at the same instant is settling once. */
  lemma SettleIdempotent(p: Position, now: nat)
    requires Settle(p, now).Success?
    ensures Settle(Settle(p, now).value, now) == Settle(p, now)
  {
  }

  /**
   * An intermediate settlement at `t1` changes the projection at a later `t2`
   * by at most the one base unit truncation drops.
   */
  lemma SettleThenProject(p: Position, t1: nat, t2: nat)
    requires p.lastUpdate <= t1 <= t2
    requires Settle(p, t1).Success?
    ensures var q := Settle(p, t1).value;
      ProjectedAccrued(q, t2) <= ProjectedAccrued(p, t2) <= ProjectedAccrued(q, t2) + 1
  {
    AccrualSplit(p.staked, t1 - p.lastUpdate, t2 - t1);
  }

  /**
   * With a unit staked, advancing the clock alone raises the projected reward:
   * the reward read is a projection up to `now`, not the stored value.
   */
  lemma ProjectionGrowsWithTime(p: Position, t1: nat, t2: nat)
    requires p.staked >= ONE
    requires p.lastUpdate <= t1 < t2
    ensures ProjectedAccrued(p, t1) < ProjectedAccrued(p, t2)
  {
    AccrualGrows(p.staked, t1 - p.lastUpdate, t2 - p.lastUpdate);
  }

  // ---------------------------------------------------------------------------
  // The three mutating operations on one position

  /** stakeOne: settle, then add one unit. */
  function StakeStep(p: Position, now: nat): (r: Result<Position, Error>)
    ensures r.Success? <==> ProjectedAccrued(p, now) <= UINT64_MAX
    ensures r.Failure? ==> r.error == AccrualOverflow
    ensures r.Success? ==> r.value.staked == p.staked + ONE
    ensures r.Success? ==> r.value.accrued == ProjectedAccrued(p, now)
    ensures r.Success? ==> r.value.lastUpdate == Max(p.lastUpdate, now)
    ensures Storable(p) && r.Success? ==> Storable(r.value)
  {
    match Settle(p, now)
    case Failure(e) => Failure(e)
    case Success(q) => Success(q.(staked := q.staked + ONE))
  }

  /** withdrawOne: fail with InsufficientStaked below one unit, else settle and remove one unit. */
  function WithdrawStep(p: Position, now: nat): (r: Result<Position, Error>)
    ensures p.staked < ONE ==> r == Failure(InsufficientStaked)
    ensures p.staked >= ONE ==> (r.Success? <==> ProjectedAccrued(p, now) <= UINT64_MAX)
    ensures p.staked >= ONE && r.Failure? ==> r.error == AccrualOverflow
    ensures r.Success? ==> r.value.staked + ONE == p.staked
    ensures r.Success? ==> r.value.accrued == ProjectedAccrued(p, now)
    ensures r.Success? ==> r.value.lastUpdate == Max(p.lastUpdate, now)
    ensures Storable(p) && r.Success? ==> Storable(r.value)
  {
    if p.staked < ONE then Failure(InsufficientStaked)
    else
      match Settle(p, now)
      case Failure(e) => Failure(e)
      case Success(q) => Success(q.(staked := q.staked - ONE))
  }

  /**
   * claim: settle, then pay out the whole settled reward and reset it to zero.
   * When `failWhenNothing` is set, a zero reward fails with NothingToClaim.
   * The result pairs the new position with the amount paid out.
   */
  function ClaimStep(p: Position, now: nat, failWhenNothing: bool): (r: Result<(Position, nat), Error>)
    ensures r.Failure? <==> ProjectedAccrued(p, now) > UINT64_MAX || (failWhenNothing && ProjectedAccrued(p, now) == 0)
    ensures r.Failure? ==> r.error == if ProjectedAccrued(p, now) > UINT64_MAX then AccrualOverflow else NothingToClaim
    ensures r.Success? ==> r.value.1 == ProjectedAccrued(p, now)
    ensures r.Success? ==> r.value.0 == Position(p.staked, 0, Max(p.lastUpdate, now))
    ensures r.Success? ==> ProjectedAccrued(r.value.0, now) == 0
    ensures Storable(p) && r.Success? ==> Storable(r.value.0)
  {
    match Settle(p, now)
    case Failure(e) => Failure(e)
    case Success(q) =>
      if failWhenNothing && q.accrued == 0 then Failure(NothingToClaim)
      else Success((q.(accrued := 0), q.accrued))
  }

  // ---------------------------------------------------------------------------
  // The contract

  class Ledger {
    /** Positions of the accounts touched so far; the others read UNTOUCHED. */
    var positions: map<Account, Position>
    /** Policy: whether a claim of a zero reward reverts with NothingToClaim. */
    const failOnNothingToClaim: bool
    /** Staked, Withdrawn and Claimed events, oldest first. */
    ghost var events: seq<Event>

    ghost predicate Valid()
      reads this
    {
      forall a :: a in positions ==> Storable(positions[a])
    }

    constructor (failOnNothingToClaim: bool)
      ensures Valid()
      ensures positions == map[] && events == []
      ensures this.failOnNothingToClaim == failOnNothingToClaim
    {
      positions := map[];
      this.failOnNothingToClaim := failOnNothingToClaim;
      events := [];
    }

    function PositionOf(account: Account): (p: Position)
      reads this
    {
      if account in positions then positions[account] else UNTOUCHED
    }

    /** getStaked: the staked balance, a whole number of units. */
    function GetStaked(account: Account): (r: nat)
      reads this
      requires Valid()
      ensures account !in positions ==> r == 0
      ensures r % ONE == 0
    {
      PositionOf(account).staked
    }

    /** getLastUpdate: the time of the last settlement, 0 for an untouched account. */
    function GetLastUpdate(account: Account): (r: nat)
      reads this
      ensures account !in positions ==> r == 0
    {
      PositionOf(account).lastUpdate
    }

    /**
     * getAccruedUSDT: the reward earned up to `now`, computed without changing
     * storage; it is exactly what a settlement at `now` would store.
     */
    function GetAccruedUSDT(account: Account, now: nat): (r: Result<nat, Error>)
      reads this
      ensures account !in positions ==> r == Success(0)
      ensures r.Success? <==> Settle(PositionOf(account), now).Success?
      ensures r.Success? ==> r.value == Settle(PositionOf(account), now).value.accrued
      ensures r.Success? ==> r.value >= PositionOf(account).accrued
      ensures Valid() && now <= GetLastUpdate(account) ==> r == Success(PositionOf(account).accrued)
    {
      var p := PositionOf(account);
      var total := ProjectedAccrued(p, now);
      if total > UINT64_MAX then Failure(AccrualOverflow) else Success(total)
    }

    method StakeOne(account: Account, now: nat) returns (r: Outcome<Error>)
      requires Valid()
      modifies this
      ensures Valid()
      ensures var step := StakeStep(old(PositionOf(account)), now);
        && (r.Pass? <==> step.Success?)
        && (r.Pass? ==> positions == old(positions)[account := step.value])
        && (r.Pass? ==> events == old(events) + [Staked(account, ONE)])
        && (r.Fail? ==> r.error == step.error && positions == old(positions) && events == old(events))
      ensures r.Pass? ==> GetStaked(account) == old(GetStaked(account)) + ONE
      ensures r.Pass? ==> GetLastUpdate(account) == Max(old(GetLastUpdate(account)), now)
      ensures forall other :: other != account ==> PositionOf(other) == old(PositionOf(other))
    {
      match StakeStep(PositionOf(account), now)
      case Failure(e) =>
        r := Fail(e);
      case Success(q) =>
        positions := positions[account := q];
        events := events + [Staked(account, ONE)];
        r := Pass;
    }

    method WithdrawOne(account: Account, now: nat) returns (r: Outcome<Error>)
      requires Valid()
      modifies this
      ensures Valid()
      ensures var step := WithdrawStep(old(PositionOf(account)), now);
        && (r.Pass? <==> step.Success?)
        && (r.Pass? ==> positions == old(positions)[account := step.value])
        && (r.Pass? ==> events == old(events) + [Withdrawn(account, ONE)])
        && (r.Fail? ==> r.error == step.error && positions == old(positions) && events == old(events))
      ensures old(GetStaked(account)) == 0 ==> r == Fail(InsufficientStaked)
      ensures r.Pass? ==> GetStaked(account) + ONE == old(GetStaked(account))
      ensures r.Pass? ==> GetLastUpdate(account) == Max(old(GetLastUpdate(account)), now)
      ensures forall other :: other != account ==> PositionOf(other) == old(PositionOf(other))
    {
      match WithdrawStep(PositionOf(account), now)
      case Failure(e) =>
        r := Fail(e);
      case Success(q) =>
        positions := positions[account := q];
        events := events + [Withdrawn(account, ONE)];
        r := Pass;
    }

    /** claim: returns the amount paid out in cUSDT base units. */
    method Claim(account: Account, now: nat) returns (r: Result<nat, Error>)
      requires Valid()
      modifies this
      ensures Valid()
      ensures var step := ClaimStep(old(PositionOf(account)), now, failOnNothingToClaim);
        && (r.Success? <==> step.Success?)
        && (r.Success? ==> r.value == step.value.1 && positions == old(positions)[account := step.value.0])
        && (r.Success? ==> events == old(events) + [Claimed(account, r.value)])
        && (r.Failure? ==> r.error == step.error && positions == old(positions) && events == old(events))
      ensures r.Success? ==> r.value == old(GetAccruedUSDT(account, now)).value
      ensures r.Success? ==> GetAccruedUSDT(account, now) == Success(0)
      ensures r.Success? ==> GetStaked(account) == old(GetStaked(account))
      ensures forall other :: other != account ==> PositionOf(other) == old(PositionOf(other))
    {
      match ClaimStep(PositionOf(account), now, failOnNothingToClaim)
      case Failure(e) =>
        r := Failure(e);
      case Success(paid) =>
        positions := positions[account := paid.0];
        events := events + [Claimed(account, paid.1)];
        r := Success(paid.1);
    }
  }

  // ---------------------------------------------------------------------------
  // The scenarios of the contract's test suite, replayed on a fresh ledger

  /** A stake makes the staked balance one unit and accrues nothing at that instant. */
  method StakeScenario(user: Account, t: nat, failOnNothingToClaim: bool)
    returns (stakedBefore: nat, accruedBefore: Result<nat, Error>, stakedAfter: nat, accruedAfter: Result<nat, Error>, lastUpdate: nat)
    ensures stakedBefore == 0 && accruedBefore == Success(0)
    ensures stakedAfter == ONE && accruedAfter == Success(0) && lastUpdate == t
  {
    var ledger := new Ledger(failOnNothingToClaim);
    stakedBefore := ledger.GetStaked(user);
    accruedBefore := ledger.GetAccruedUSDT(user, t);
    var staked := ledger.StakeOne(user, t);
    assert staked.Pass?;
    stakedAfter := ledger.GetStaked(user);
    accruedAfter := ledger.GetAccruedUSDT(user, t);
    lastUpdate := ledger.GetLastUpdate(user);
  }

  /**
   * One unit staked for an hour reads 416_666 (the test accepts 416_666 +/- 10),
   * a later claim pays at least that, and the reward then reads zero.
   */
  method AccrueAndClaimScenario(user: Account, t: nat, claimAt: nat, failOnNothingToClaim: bool)
    returns (accrued: Result<nat, Error>, paid: Result<nat, Error>, accruedAfterClaim: Result<nat, Error>)
    requires claimAt >= t + 3600
    requires claimAt - t <= 86_400
    ensures accrued.Success? && 416_666 - 10 <= accrued.value <= 416_666 + 10
    ensures accrued == Success(416_666)
    ensures paid.Success? && paid.value >= 416_666
    ensures accruedAfterClaim == Success(0)
  {
    var ledger := new Ledger(failOnNothingToClaim);
    var staked := ledger.StakeOne(user, t);
    assert staked.Pass?;
    assert ledger.PositionOf(user) == Position(ONE, 0, t);
    AccrualOfOneUnitForOneHour();
    accrued := ledger.GetAccruedUSDT(user, t + 3600);
    if claimAt - t > 3600 {
      AccrualGrows(ONE, 3600, claimAt - t);
    }
    AccrualOfOneUnit(claimAt - t);
    paid := ledger.Claim(user, claimAt);
    accruedAfterClaim := ledger.GetAccruedUSDT(user, claimAt);
  }

  /**
   * Stake then withdraw returns the staked balance to zero; a second withdraw
   * fails with InsufficientStaked and changes nothing.
   */
  method WithdrawScenario(user: Account, t: nat, t1: nat, t2: nat, failOnNothingToClaim: bool)
    returns (stakedAfterStake: nat, stakedAfterWithdraw: nat, second: Outcome<Error>, untouched: bool)
    requires t <= t1 <= t + SECONDS_PER_DAY
    requires t1 <= t2
    ensures stakedAfterStake == ONE && stakedAfterWithdraw == 0
    ensures second == Fail(InsufficientStaked) && untouched
  {
    var ledger := new Ledger(failOnNothingToClaim);
    var staked := ledger.StakeOne(user, t);
    assert staked.Pass?;
    stakedAfterStake := ledger.GetStaked(user);
    assert ledger.PositionOf(user) == Position(ONE, 0, t);
    AccrualOfOneUnit(t1 - t);
    var first := ledger.WithdrawOne(user, t1);
    assert first.Pass?;
    stakedAfterWithdraw := ledger.GetStaked(user);
    var before := ledger.PositionOf(user);
    second := ledger.WithdrawOne(user, t2);
    untouched := ledger.PositionOf(user) == before;
  }
}
