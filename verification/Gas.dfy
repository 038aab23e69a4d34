/**
 Gas accounting (core/gaspool.go, core/state_transition.go, core/state_processor.go): a block's transactions draw on one
 gas pool, pay for gas before they run and are refunded afterwards. The EVM is an arbitrary function.
 */
module Gas {
  import opened Basics
  import opened Sums

  const MAX_UINT64 := 0xFFFF_FFFF_FFFF_FFFF

  const TX_GAS := 21000
  const TX_GAS_CONTRACT_CREATION := 53000
  const TX_DATA_ZERO_GAS := 4
  const TX_DATA_NON_ZERO_GAS := 68

  // ---------- Intrinsic gas ----------

  function NonZeros(data: seq<bv8>): nat {
    if data == [] then 0 else NonZeros(data[..|data| - 1]) + if data[|data| - 1] != 0 then 1 else 0
  }

  /** The price of a message's data on top of the base price. */
  function DataGas(data: seq<bv8>): int {
    NonZeros(data) * TX_DATA_NON_ZERO_GAS + (|data| - NonZeros(data)) * TX_DATA_ZERO_GAS
  }

  lemma {:induction false} NonZerosBound(data: seq<bv8>)
    ensures NonZeros(data) <= |data|
  {
    if data != [] { NonZerosBound(data[..|data| - 1]); }
  }

  /** The base price and the price of the data, if that fits in 64 bits. */
  function Intrinsic(data: seq<bv8>, creation: bool): Option<nat> {
    var total := (if creation then TX_GAS_CONTRACT_CREATION else TX_GAS) + DataGas(data);
    if 0 <= total <= MAX_UINT64 then Some(total) else None
  }

  /** The overflow checks refuse exactly the messages whose price does not fit in 64 bits. */
  method IntrinsicGas(data: seq<bv8>, contractCreation: bool, homestead: bool) returns (r: Option<nat>)
    ensures var total := (if contractCreation && homestead then TX_GAS_CONTRACT_CREATION else TX_GAS) + DataGas(data);
            r == if total <= MAX_UINT64 then Some(total) else None
    ensures r == Intrinsic(data, contractCreation && homestead)
  {
    var gas := if contractCreation && homestead then TX_GAS_CONTRACT_CREATION else TX_GAS;
    NonZerosBound(data);
    if |data| > 0 {
      var nz := 0;
      for i := 0 to |data|
        invariant nz == NonZeros(data[..i])
      {
        assert data[..i + 1][..i] == data[..i];
        if data[i] != 0 { nz := nz + 1; }
      }
      assert data[..|data|] == data;
      if (MAX_UINT64 - gas) / TX_DATA_NON_ZERO_GAS < nz { return None; }
      gas := gas + nz * TX_DATA_NON_ZERO_GAS;
      var z := |data| - nz;
      if (MAX_UINT64 - gas) / TX_DATA_ZERO_GAS < z { return None; }
      gas := gas + z * TX_DATA_ZERO_GAS;
    }
    r := Some(gas);
  }

  // ---------- The pool ----------

  class GasPool {
    var gas: nat

    constructor (gas: nat)
      ensures this.gas == gas
    {
      this.gas := gas;
    }

    /** AddGas panics if the pool would exceed 64 bits. */
    method AddGas(amount: nat) returns (panics: bool)
      requires gas <= MAX_UINT64 && amount <= MAX_UINT64
      modifies this
      ensures panics == (old(gas) + amount > MAX_UINT64) && gas == if panics then old(gas) else old(gas) + amount
    {
      panics := gas > MAX_UINT64 - amount;
      if !panics { gas := gas + amount; }
    }

    method SubGas(amount: nat) returns (ok: bool)
      modifies this
      ensures ok == (amount <= old(gas)) && gas == if ok then old(gas) - amount else old(gas)
    {
      ok := gas >= amount;
      if ok { gas := gas - amount; }
    }
  }

  // ---------- A message ----------

  /** `tokenFee` is set when a TRC21 issuer pays for the gas. */
  datatype Message = Message(from: Address, to: Option<Address>, gas: nat, price: nat, value: nat, nonce: nat,
                             checkNonce: bool,
                             data: seq<bv8>, tokenFee: Option<int>)

  datatype World = World(balances: Amounts, nonces: map<Address, nat>) {
    function Nonce(a: Address): nat { if a in nonces then nonces[a] else 0 }

    function AddBalance(a: Address, x: nat): World { this.(balances := balances[a := Value(balances, a) + x]) }

    function SubBalance(a: Address, x: nat): World
      requires x <= Value(balances, a)
    {
      this.(balances := balances[a := Value(balances, a) - x])
    }
  }

  datatype VmError = NoError | InsufficientBalance | OtherError

  /** What Create or Call leaves: the world, the gas that is left, the refund counter and the VM's error. */
  datatype EvmResult = EvmResult(world: World, gas: nat, refund: nat, err: VmError)

  type Evm = (World, Message, nat) -> EvmResult

  /** The EVM moves Ether but neither creates nor destroys it, and returns no more gas than it was given. */
  ghost predicate Honest(evm: Evm) {
    forall w, m, g: nat {:trigger evm(w, m, g)} ::
      evm(w, m, g).gas <= g && Sum(evm(w, m, g).world.balances) == Sum(w.balances)
  }

  datatype Error = NonceTooHigh | NonceTooLow | InsufficientBalanceForGas | GasLimitReached | OutOfGas
    | VmInsufficientBalance | Panic

  datatype Result<+T> = Ok(value: T) | Err(error: Error)

  // ---------- When a message goes through ----------

  /** buyGas fails for want of funds, of the sender or the issuer, or of gas in the pool, in this order. */
  function BuyError(msg: Message, w: World, pool: nat): Option<Error> {
    var price := msg.gas * msg.price;
    if (if msg.tokenFee.None? then Value(w.balances, msg.from) else msg.tokenFee.value) < price
      then Some(InsufficientBalanceForGas)
    else if pool < msg.gas then Some(GasLimitReached)
    else None
  }

  /** preCheck: a wrong nonce comes first. */
  function PreError(msg: Message, w: World, pool: nat): Option<Error> {
    if msg.checkNonce && w.Nonce(msg.from) < msg.nonce then Some(NonceTooHigh)
    else if msg.checkNonce && w.Nonce(msg.from) > msg.nonce then Some(NonceTooLow)
    else BuyError(msg, w, pool)
  }

  /** The world after buyGas. */
  function Bought(msg: Message, w: World): World {
    if msg.tokenFee.None? && msg.gas * msg.price <= Value(w.balances, msg.from)
      then w.SubBalance(msg.from, msg.gas * msg.price) else w
  }

  /** What the EVM makes of the message: a call has advanced the sender's nonce before. */
  function Ran(msg: Message, evm: Evm, w: World, gas: nat): EvmResult { evm(Counted(msg, w), msg, gas) }

  function Counted(msg: Message, w: World): World {
    if msg.to.Some? then w.(nonces := w.nonces[msg.from := w.Nonce(msg.from) + 1]) else w
  }

  /** Why a message does not get to the EVM: its own checks, or its intrinsic gas. */
  function PrepareError(msg: Message, homestead: bool, w: World, pool: nat): Option<Error> {
    var pre, intrinsic := PreError(msg, w, pool), Intrinsic(msg.data, msg.to.None? && homestead);
    if pre.Some? then pre
    else if intrinsic.None? || intrinsic.value > msg.gas then Some(OutOfGas)
    else None
  }

  /** Why a message does not go through: that, or a transfer that the sender cannot make. */
  function TransitionError(msg: Message, evm: Evm, homestead: bool, w: World, pool: nat): Option<Error> {
    var error := PrepareError(msg, homestead, w, pool);
    if error.Some? then error
    else if Ran(msg, evm, Bought(msg, w), msg.gas - Intrinsic(msg.data, msg.to.None? && homestead).value).err ==
      InsufficientBalance
    then Some(VmInsufficientBalance)
    else None
  }

  /**
   When a message goes through: a checked nonce is the account's, the payer has the price of all the gas, the pool has
   the gas, the gas covers the data, and the sender can make the transfer.
   */
  ghost predicate GoesThrough(msg: Message, evm: Evm, homestead: bool, w: World, pool: nat) {
    && (msg.checkNonce ==> w.Nonce(msg.from) == msg.nonce)
    && msg.gas * msg.price <= (if msg.tokenFee.Some? then msg.tokenFee.value else Value(w.balances, msg.from))
    && msg.gas <= pool
    && var base := if msg.to.None? && homestead then TX_GAS_CONTRACT_CREATION else TX_GAS;
       && 0 <= base + DataGas(msg.data) <= MAX_UINT64 && base + DataGas(msg.data) <= msg.gas
       && evm(Counted(msg, Bought(msg, w)), msg, msg.gas - base - DataGas(msg.data)).err != InsufficientBalance
  }

  lemma GoesThroughIff(msg: Message, evm: Evm, homestead: bool, w: World, pool: nat)
    ensures TransitionError(msg, evm, homestead, w, pool).None? <==> GoesThrough(msg, evm, homestead, w, pool)
  {
  }

  /** The gas that is left after the refund, which is at most half of what was used. */
  function Refunded(initial: nat, left: nat, refund: nat): (gas: nat)
    requires left <= initial
    ensures left <= gas <= initial
  {
    left + if (initial - left) / 2 > refund then refund else (initial - left) / 2
  }

  /** The gas of a message that goes through. */
  function UsedGas(msg: Message, evm: Evm, homestead: bool, w: World, pool: nat): (used: nat)
    requires TransitionError(msg, evm, homestead, w, pool).None?
    ensures used <= msg.gas
  {
    var result := Outcome(msg, evm, homestead, w, pool);
    if result.gas <= msg.gas then msg.gas - Refunded(msg.gas, result.gas, result.refund) else 0
  }

  /** What the EVM makes of a message that goes through. */
  function Outcome(msg: Message, evm: Evm, homestead: bool, w: World, pool: nat): EvmResult
    requires TransitionError(msg, evm, homestead, w, pool).None?
  {
    Ran(msg, evm, Bought(msg, w), msg.gas - Intrinsic(msg.data, msg.to.None? && homestead).value)
  }

  /**
   The world after it: the sender gets the unused gas back, unless an issuer pays, and the coinbase gets the used gas.
   */
  function WorldAfter(msg: Message, evm: Evm, coinbase: Address, homestead: bool, w: World, pool: nat): World
    requires TransitionError(msg, evm, homestead, w, pool).None?
  {
    Paid(msg, coinbase, Outcome(msg, evm, homestead, w, pool).world, UsedGas(msg, evm, homestead, w, pool))
  }

  function Paid(msg: Message, coinbase: Address, world: World, used: nat): World
    requires used <= msg.gas
  {
    var left: nat := msg.gas - used;
    var refunded := if msg.tokenFee.None? then world.AddBalance(msg.from, left * msg.price) else world;
    refunded.AddBalance(coinbase, used * msg.price)
  }

  lemma Credited(w: World, a: Address, x: nat)
    ensures Sum(w.AddBalance(a, x).balances) == Sum(w.balances) + x
  {
    SumPut(w.balances, a, Value(w.balances, a) + x);
  }

  function Price(gas: nat, price: nat): nat { gas * price }

  lemma CreditedTwice(w: World, a: Address, x: nat, b: Address, y: nat)
    ensures Sum(w.AddBalance(a, x).AddBalance(b, y).balances) == Sum(w.balances) + x + y
  {
    Credited(w, a, x);
    Credited(w.AddBalance(a, x), b, y);
  }

  /** The payments hand out what the gas has cost, or what it costs if an issuer pays. */
  lemma PaidSum(msg: Message, coinbase: Address, world: World, used: nat)
    requires used <= msg.gas
    ensures Sum(Paid(msg, coinbase, world, used).balances) ==
            Sum(world.balances) + if msg.tokenFee.None? then msg.gas * msg.price else used * msg.price
  {
    var back, fee := Price(msg.gas - used, msg.price), Price(used, msg.price);
    if msg.tokenFee.None? {
      CreditedTwice(world, msg.from, back, coinbase, fee);
      SplitPrice(msg.gas, used, msg.gas - used, msg.price);
      assert Paid(msg, coinbase, world, used) == world.AddBalance(msg.from, back).AddBalance(coinbase, fee);
    } else {
      Credited(world, coinbase, fee);
      assert Paid(msg, coinbase, world, used) == world.AddBalance(coinbase, fee);
    }
  }

  lemma BoughtSum(msg: Message, w: World)
    requires msg.tokenFee.None? ==> msg.gas * msg.price <= Value(w.balances, msg.from)
    ensures Sum(Bought(msg, w).balances) + (if msg.tokenFee.None? then msg.gas * msg.price else 0) == Sum(w.balances)
  {
    if msg.tokenFee.None? {
      SumPut(w.balances, msg.from, Value(w.balances, msg.from) - Price(msg.gas, msg.price));
    }
  }

  /** Ether is conserved, or grows by the fee if an issuer pays. */
  lemma WorldAfterSum(msg: Message, evm: Evm, coinbase: Address, homestead: bool, w: World, pool: nat)
    requires Honest(evm) && TransitionError(msg, evm, homestead, w, pool).None?
    ensures Sum(WorldAfter(msg, evm, coinbase, homestead, w, pool).balances) ==
            Sum(w.balances) + if msg.tokenFee.None? then 0 else UsedGas(msg, evm, homestead, w, pool) * msg.price
  {
    BoughtSum(msg, w);
    PaidSum(msg, coinbase, Outcome(msg, evm, homestead, w, pool).world, UsedGas(msg, evm, homestead, w, pool));
  }

  // ---------- Who pays and who gets what ----------

  /** What the EVM is given: only the sender has paid, unless an issuer does, and only a call has advanced its nonce. */
  ghost predicate IsGiven(msg: Message, w: World, given: World) {
    forall a: Address {:trigger Value(given.balances, a)} {:trigger given.Nonce(a)} ::
      && Value(given.balances, a) + (if a == msg.from && msg.tokenFee.None? then msg.gas * msg.price else 0) ==
           Value(w.balances, a)
      && given.Nonce(a) == w.Nonce(a) + if a == msg.from && msg.to.Some? then 1 else 0
  }

  /** The gas used is what the EVM spent less the refund, which is the counter or as much as half of it allows. */
  ghost predicate IsUsed(gas: nat, left: nat, refund: nat, used: nat) {
    && left + used <= gas
    && var spent, back := gas - left, gas - left - used;
       back <= refund && 2 * back <= spent && (back == refund || 2 * (back + 1) > spent)
  }

  /** What everybody has in the end: the coinbase gets the fee, and the sender what it has paid for and not used. */
  ghost predicate IsPaid(msg: Message, coinbase: Address, after: World, used: nat, w': World) {
    && used <= msg.gas && w'.nonces == after.nonces
    && forall a: Address {:trigger Value(w'.balances, a)} ::
         Value(w'.balances, a) == Value(after.balances, a) + (if a == coinbase then used * msg.price else 0)
           + if a == msg.from && msg.tokenFee.None? then (msg.gas - used) * msg.price else 0
  }

  /** A message that goes through, from what the EVM is given to what everybody has in the end. */
  ghost predicate Settled(msg: Message, evm: Evm, coinbase: Address, intrinsic: nat, w: World, given: World, w': World,
                          used: nat, failed: bool)
  {
    && intrinsic <= msg.gas && IsGiven(msg, w, given)
    && var result := evm(given, msg, msg.gas - intrinsic);
       && result.gas <= msg.gas && IsUsed(msg.gas, result.gas, result.refund, used)
       && failed == (result.err != NoError) && IsPaid(msg, coinbase, result.world, used, w')
  }

  lemma GivenIs(msg: Message, w: World)
    requires msg.tokenFee.None? ==> msg.gas * msg.price <= Value(w.balances, msg.from)
    ensures IsGiven(msg, w, Counted(msg, Bought(msg, w)))
  {
  }

  lemma RefundedIs(gas: nat, left: nat, refund: nat)
    requires left <= gas
    ensures IsUsed(gas, left, refund, gas - Refunded(gas, left, refund))
  {
  }

  lemma PaidIs(msg: Message, coinbase: Address, after: World, used: nat)
    requires used <= msg.gas
    ensures IsPaid(msg, coinbase, after, used, Paid(msg, coinbase, after, used))
  {
  }

  lemma TransitionSettles(msg: Message, evm: Evm, coinbase: Address, homestead: bool, w: World, pool: nat)
    requires Honest(evm) && TransitionError(msg, evm, homestead, w, pool).None?
    ensures Settled(msg, evm, coinbase, Intrinsic(msg.data, msg.to.None? && homestead).value, w,
                    Counted(msg, Bought(msg, w)), WorldAfter(msg, evm, coinbase, homestead, w, pool),
                    UsedGas(msg, evm, homestead, w, pool), Outcome(msg, evm, homestead, w, pool).err != NoError)
  {
    var result := Outcome(msg, evm, homestead, w, pool);
    GivenIs(msg, w);
    RefundedIs(msg.gas, result.gas, result.refund);
    PaidIs(msg, coinbase, result.world, UsedGas(msg, evm, homestead, w, pool));
  }

  /** What comes of a message that the EVM has run. */
  ghost predicate Finished(msg: Message, coinbase: Address, result: EvmResult, r: Result<(nat, bool)>, w': World) {
    && result.gas <= msg.gas
    && if result.err == InsufficientBalance then r == Err(VmInsufficientBalance)
       else && r == Ok((msg.gas - Refunded(msg.gas, result.gas, result.refund), result.err != NoError))
            && w' == Paid(msg, coinbase, result.world, r.value.0)
  }

  lemma FinishedIs(msg: Message, evm: Evm, coinbase: Address, homestead: bool, w: World, pool: nat,
                   r: Result<(nat, bool)>, w': World)
    requires PrepareError(msg, homestead, w, pool).None?
    requires var gas := msg.gas - Intrinsic(msg.data, msg.to.None? && homestead).value;
             Finished(msg, coinbase, Ran(msg, evm, Bought(msg, w), gas), r, w')
    ensures (if r.Err? then Some(r.error) else None) == TransitionError(msg, evm, homestead, w, pool)
    ensures r.Ok? ==> r.value == (UsedGas(msg, evm, homestead, w, pool),
                                  Outcome(msg, evm, homestead, w, pool).err != NoError)
    ensures r.Ok? ==> w' == WorldAfter(msg, evm, coinbase, homestead, w, pool)
  {
  }

  class StateTransition {
    const gp: GasPool
    const msg: Message
    const evm: Evm
    const coinbase: Address
    const homestead: bool
    var gas: nat
    var initialGas: nat
    var world: World

    constructor (gp: GasPool, msg: Message, evm: Evm, coinbase: Address, homestead: bool, world: World)
      ensures this.gp == gp && this.msg == msg && this.evm == evm && this.coinbase == coinbase && this.world == world
      ensures this.homestead == homestead
      ensures gas == 0 && initialGas == 0
    {
      this.gp, this.msg, this.evm, this.coinbase, this.homestead, this.world :=
        gp, msg, evm, coinbase, homestead, world;
      gas, initialGas := 0, 0;
    }

    function GasUsed(): int
      reads this
    {
      initialGas - gas
    }

    method UseGas(amount: nat) returns (ok: bool)
      modifies this`gas
      ensures ok == (amount <= old(gas)) && gas == if ok then old(gas) - amount else old(gas)
    {
      ok := gas >= amount;
      if ok { gas := gas - amount; }
    }

    /** buyGas: take the gas out of the pool, and its price from the sender unless a token issuer pays. */
    method BuyGas() returns (err: Option<Error>)
      requires gas == 0
      modifies this, gp
      ensures err.None? ==>
                gp.gas == old(gp.gas) - msg.gas && gas == initialGas == msg.gas && world.nonces == old(world.nonces)
      ensures err.None? && msg.tokenFee.None? ==> Sum(world.balances) + msg.gas * msg.price == Sum(old(world.balances))
      ensures err.None? && msg.tokenFee.None? ==> msg.gas * msg.price <= Value(old(world.balances), msg.from)
                                                  && world == old(world).SubBalance(msg.from, msg.gas * msg.price)
      ensures err.None? && msg.tokenFee.Some? ==> world == old(world) && msg.gas * msg.price <= msg.tokenFee.value
      ensures err.Some? ==> world == old(world) && gp.gas == old(gp.gas) && err.value != Panic
      ensures err == BuyError(msg, old(world), old(gp.gas)) && (err.None? ==> world == Bought(msg, old(world)))
    {
      var mgval := msg.gas * msg.price;
      if msg.tokenFee.None? {
        if Value(world.balances, msg.from) < mgval { return Some(InsufficientBalanceForGas); }
      } else if msg.tokenFee.value < mgval {
        return Some(InsufficientBalanceForGas);
      }
      var ok := gp.SubGas(msg.gas);
      if !ok { return Some(GasLimitReached); }
      gas := gas + msg.gas;
      initialGas := msg.gas;
      if msg.tokenFee.None? {
        SumPut(world.balances, msg.from, Value(world.balances, msg.from) - mgval);
        world := world.SubBalance(msg.from, mgval);
      }
      err := None;
    }

    method PreCheck() returns (err: Option<Error>)
      requires gas == 0
      modifies this, gp
      ensures err.None? ==> gp.gas == old(gp.gas) - msg.gas && gas == initialGas == msg.gas
      ensures err.None? ==>
                Sum(world.balances) + (if msg.tokenFee.None? then msg.gas * msg.price else 0) ==
                  Sum(old(world.balances))
      ensures err.None? && msg.checkNonce ==> old(world).Nonce(msg.from) == msg.nonce
      ensures err == PreError(msg, old(world), old(gp.gas)) && (err.None? ==> world == Bought(msg, old(world)))
      ensures err != Some(Panic)
    {
      if msg.checkNonce {
        var nonce := world.Nonce(msg.from);
        if nonce < msg.nonce { return Some(NonceTooHigh); }
        if nonce > msg.nonce { return Some(NonceTooLow); }
      }
      err := BuyGas();
    }

    /** The refund counter, capped to half of the used gas. */
    method ApplyRefund(refundCounter: nat)
      requires gas <= initialGas
      modifies this`gas
      ensures gas == Refunded(initialGas, old(gas), refundCounter) && gas - old(gas) <= (initialGas - old(gas)) / 2
    {
      var refund := GasUsed() / 2;
      if refund > refundCounter { refund := refundCounter; }
      gas := gas + refund;
    }

    /** refundGas: up to half of the used gas comes back; what is left is paid back and returned to the pool. */
    method RefundGas(refundCounter: nat) returns (panics: bool)
      requires gas <= initialGas <= MAX_UINT64 && gp.gas <= MAX_UINT64
      modifies this`gas, this`world, gp
      ensures panics == (old(gp.gas) + gas > MAX_UINT64) && (!panics ==> gp.gas == old(gp.gas) + gas)
      ensures old(gas) <= gas <= initialGas && gas - old(gas) <= (initialGas - old(gas)) / 2
      ensures gas == Refunded(initialGas, old(gas), refundCounter)
      ensures Sum(world.balances) == Sum(old(world.balances)) + if msg.tokenFee.None? then gas * msg.price else 0
      ensures world == if msg.tokenFee.None? then old(world).AddBalance(msg.from, gas * msg.price) else old(world)
    {
      ApplyRefund(refundCounter);
      if msg.tokenFee.None? {
        var remaining := gas * msg.price;
        SumPut(world.balances, msg.from, Value(world.balances, msg.from) + remaining);
        world := world.AddBalance(msg.from, remaining);
      }
      panics := gp.AddGas(gas);
    }

    /** Run the EVM on what is left of the gas. */
    method Execute() returns (refund: nat, vmerr: VmError)
      requires Honest(evm)
      modifies this`gas, this`world
      ensures gas <= old(gas) && Sum(world.balances) == Sum(old(world.balances))
      ensures EvmResult(world, gas, refund, vmerr) == Ran(msg, evm, old(world), old(gas))
    {
      if msg.to.Some? {
        world := world.(nonces := world.nonces[msg.from := world.Nonce(msg.from) + 1]);
      }
      var result := evm(world, msg, gas);
      world, gas := result.world, result.gas;
      refund, vmerr := result.refund, result.err;
    }

    /** The end of TransitionDb: refund, and credit the coinbase with the price of the gas used. */
    method Settle(refund: nat) returns (used: nat)
      requires gas <= initialGas == msg.gas <= MAX_UINT64 && gp.gas + initialGas <= MAX_UINT64
      modifies this`gas, this`world, gp
      ensures used <= msg.gas && gp.gas == old(gp.gas) + msg.gas - used
      ensures used == msg.gas - Refunded(msg.gas, old(gas), refund)
      ensures Sum(world.balances) ==
              Sum(old(world.balances)) + if msg.tokenFee.None? then msg.gas * msg.price else used * msg.price
      ensures world == Paid(msg, coinbase, old(world), used)
    {
      var panics := RefundGas(refund);
      assert !panics;
      used := GasUsed();
      world := world.AddBalance(coinbase, used * msg.price);
      PaidSum(msg, coinbase, old(world), used);
    }

    /** The part of TransitionDb before the EVM: the checks, the purchase of the gas, and the intrinsic gas. */
    method Prepare() returns (err: Option<Error>)
      requires gas == 0
      modifies this, gp
      ensures err == PrepareError(msg, homestead, old(world), old(gp.gas)) && err != Some(Panic)
      ensures err.None? ==> gp.gas == old(gp.gas) - msg.gas && initialGas == msg.gas && world == Bought(msg, old(world))
                            && gas == msg.gas - Intrinsic(msg.data, msg.to.None? && homestead).value
      ensures err.None? ==>
                Sum(world.balances) + (if msg.tokenFee.None? then msg.gas * msg.price else 0) ==
                  Sum(old(world.balances))
    {
      err := PreCheck();
      if err.Some? { return; }
      var intrinsic := IntrinsicGas(msg.data, msg.to.None?, homestead);
      if intrinsic.None? { return Some(OutOfGas); }
      var ok := UseGas(intrinsic.value);
      if !ok { return Some(OutOfGas); }
    }

    /**
     TransitionDb: a message that goes through takes exactly its used gas out of the pool, and moves Ether without
     creating any; if an issuer pays the fee, exactly the fee is credited to the coinbase on top. AddGas never panics.
     */
    method TransitionDb() returns (r: Result<(nat, bool)>)
      requires gas == 0 && Honest(evm) && gp.gas <= MAX_UINT64
      modifies this, gp
      ensures r != Err(Panic)
      ensures (if r.Err? then Some(r.error) else None) == TransitionError(msg, evm, homestead, old(world), old(gp.gas))
      ensures r.Ok? ==> r.value == (UsedGas(msg, evm, homestead, old(world), old(gp.gas)),
                                    Outcome(msg, evm, homestead, old(world), old(gp.gas)).err != NoError)
      ensures r.Ok? ==> world == WorldAfter(msg, evm, coinbase, homestead, old(world), old(gp.gas))
      ensures r.Ok? <==> GoesThrough(msg, evm, homestead, old(world), old(gp.gas))
      ensures r.Ok? ==> Settled(msg, evm, coinbase, Intrinsic(msg.data, msg.to.None? && homestead).value, old(world),
                                Counted(msg, Bought(msg, old(world))), world, r.value.0, r.value.1)
      ensures r.Ok? ==> r.value.0 <= msg.gas && gp.gas == old(gp.gas) - r.value.0
      ensures r.Ok? ==>
                Sum(world.balances) ==
                Sum(old(world.balances)) + if msg.tokenFee.None? then 0 else r.value.0 * msg.price
    {
      ghost var w, pool := world, gp.gas;
      GoesThroughIff(msg, evm, homestead, w, pool);
      r := Transition();
      if r.Ok? {
        TransitionSettles(msg, evm, coinbase, homestead, w, pool);
        WorldAfterSum(msg, evm, coinbase, homestead, w, pool);
      }
    }

    method Transition() returns (r: Result<(nat, bool)>)
      requires gas == 0 && Honest(evm) && gp.gas <= MAX_UINT64
      modifies this, gp
      ensures r != Err(Panic)
      ensures (if r.Err? then Some(r.error) else None) == TransitionError(msg, evm, homestead, old(world), old(gp.gas))
      ensures r.Ok? ==> r.value == (UsedGas(msg, evm, homestead, old(world), old(gp.gas)),
                                    Outcome(msg, evm, homestead, old(world), old(gp.gas)).err != NoError)
      ensures r.Ok? ==> world == WorldAfter(msg, evm, coinbase, homestead, old(world), old(gp.gas))
      ensures r.Ok? ==> r.value.0 <= msg.gas && gp.gas == old(gp.gas) - r.value.0
    {
      var err := Prepare();
      if err.Some? { return Err(err.value); }
      r := RunAndSettle();
      FinishedIs(msg, evm, coinbase, homestead, old(world), old(gp.gas), r, world);
    }

    /** The part from the EVM on. */
    method RunAndSettle() returns (r: Result<(nat, bool)>)
      requires Honest(evm) && gas <= initialGas == msg.gas <= MAX_UINT64 && gp.gas + initialGas <= MAX_UINT64
      modifies this`gas, this`world, gp
      ensures var result := Ran(msg, evm, old(world), old(gas));
              Finished(msg, coinbase, result, r, world) && (r.Ok? ==> gp.gas == old(gp.gas) + msg.gas - r.value.0)
    {
      var refund, vmerr := Execute();
      if vmerr == InsufficientBalance { return Err(VmInsufficientBalance); }
      var used := Settle(refund);
      r := Ok((used, vmerr != NoError));
    }
  }

  lemma SplitPrice(total: nat, used: nat, left: nat, price: nat)
    requires total == used + left
    ensures total * price == used * price + left * price
  {
  }

  // ---------- A block ----------

  /**
   A transaction as a block applies it: a sign transaction, which
   uses no gas, or a message; AsMessage adds its token fee.
   */
  datatype Tx = Sign(from: Address, nonce: nat) | Plain(msg: Message)

  datatype Receipt = Receipt(failed: bool, cumulativeGasUsed: nat, gasUsed: nat)

  /** What token issuers have left for the fees of transactions sent to them. */
  type Fees = map<Address, int>

  function FeeBalance(fees: Fees, tx: Tx): Option<int> {
    if tx.Plain? && tx.msg.to.Some? && tx.msg.to.value in fees then Some(fees[tx.msg.to.value]) else None
  }

  /** The gas of a transaction if the given issuer pays for it. */
  function GasFor(tx: Tx, receipt: Receipt, issuer: Address): nat {
    if tx.Plain? && tx.msg.to == Some(issuer) then receipt.gasUsed else 0
  }

  function GasOf(txs: seq<Tx>, receipts: seq<Receipt>, issuer: Address): nat
    requires |txs| == |receipts|
  {
    if txs == [] then 0
    else var i := |txs| - 1; GasOf(txs[..i], receipts[..i], issuer) + GasFor(txs[i], receipts[i], issuer)
  }

  /** The fee of a transaction, in Ether, if an issuer pays for it. */
  function IssuerFee(tx: Tx, receipt: Receipt, issuers: set<Address>): nat {
    if tx.Plain? && tx.msg.to.Some? && tx.msg.to.value in issuers then receipt.gasUsed * tx.msg.price else 0
  }

  function IssuerFees(txs: seq<Tx>, receipts: seq<Receipt>, issuers: set<Address>): nat
    requires |txs| == |receipts|
  {
    if txs == [] then 0
    else var i := |txs| - 1; IssuerFees(txs[..i], receipts[..i], issuers) + IssuerFee(txs[i], receipts[i], issuers)
  }

  function CumulativeBefore(receipts: seq<Receipt>, i: nat): nat
    requires i <= |receipts|
  {
    if i == 0 then 0 else receipts[i - 1].cumulativeGasUsed
  }

  /** Each receipt's cumulative gas is its own gas on top of the previous receipt's. */
  ghost predicate Accumulates(receipts: seq<Receipt>) {
    forall i {:trigger AccumulatesAt(receipts, i)} | 0 <= i < |receipts| :: AccumulatesAt(receipts, i)
  }

  ghost predicate AccumulatesAt(receipts: seq<Receipt>, i: nat)
    requires i < |receipts|
  {
    receipts[i].cumulativeGasUsed == CumulativeBefore(receipts, i) + receipts[i].gasUsed
  }

  lemma OneMoreReceipt(txs: seq<Tx>, receipts: seq<Receipt>, receipt: Receipt, issuers: set<Address>)
    requires |receipts| < |txs| && Accumulates(receipts)
    requires receipt.cumulativeGasUsed == CumulativeBefore(receipts, |receipts|) + receipt.gasUsed
    ensures Accumulates(receipts + [receipt])
    ensures CumulativeBefore(receipts + [receipt], |receipts| + 1) == receipt.cumulativeGasUsed
    ensures IssuerFees(txs[..|receipts| + 1], receipts + [receipt], issuers)
         == IssuerFees(txs[..|receipts|], receipts, issuers) + IssuerFee(txs[|receipts|], receipt, issuers)
  {
    var i := |receipts|;
    assert txs[..i + 1][..i] == txs[..i] && (receipts + [receipt])[..i] == receipts;
    forall j | 0 <= j < i + 1 ensures AccumulatesAt(receipts + [receipt], j) {
      if j < i { assert AccumulatesAt(receipts, j); }
    }
  }

  /** Every issuer's balance has gone down by the gas of the transactions sent to it. */
  ghost predicate FeesPaid(fees0: Fees, fees: Fees, txs: seq<Tx>, receipts: seq<Receipt>)
    requires |txs| == |receipts|
  {
    fees.Keys == fees0.Keys && forall a | a in fees :: fees[a] == fees0[a] - GasOf(txs, receipts, a)
  }

  /** The fee balances after a transaction. */
  function FeesAfter(fees: Fees, tx: Tx, receipt: Receipt): Fees {
    if FeeBalance(fees, tx).Some? then fees[tx.msg.to.value := fees[tx.msg.to.value] - receipt.gasUsed] else fees
  }

  lemma OneMoreFee(fees0: Fees, fees: Fees, txs: seq<Tx>, receipts: seq<Receipt>, receipt: Receipt)
    requires |receipts| < |txs| && FeesPaid(fees0, fees, txs[..|receipts|], receipts)
    ensures FeesPaid(fees0, FeesAfter(fees, txs[|receipts|], receipt), txs[..|receipts| + 1], receipts + [receipt])
  {
    var i := |receipts|;
    assert txs[..i + 1][..i] == txs[..i] && (receipts + [receipt])[..i] == receipts;
  }

  /** ApplySignTransaction. */
  method ApplySign(world: World, from: Address, nonce: nat, usedGas: nat) returns (r: Result<(World, Receipt)>)
    ensures r.Ok? <==> world.Nonce(from) == nonce
    ensures r.Err? ==> r.error == if world.Nonce(from) < nonce then NonceTooHigh else NonceTooLow
    ensures r.Ok? ==> r.value == (world.(nonces := world.nonces[from := nonce + 1]), Receipt(false, usedGas, 0))
    ensures r != Err(Panic)
  {
    if world.Nonce(from) < nonce { return Err(NonceTooHigh); }
    if world.Nonce(from) > nonce { return Err(NonceTooLow); }
    r := Ok((world.(nonces := world.nonces[from := nonce + 1]), Receipt(false, usedGas, 0)));
  }

  /** What ApplyTransaction gives for a message: its error, or the new world and the receipt. */
  function AppliedMessage(msg: Message, evm: Evm, coinbase: Address, homestead: bool, world: World, pool: nat,
                          usedGas: nat)
    : Result<(World, Receipt)>
  {
    var error := TransitionError(msg, evm, homestead, world, pool);
    if error.Some? then Err(error.value)
    else
      var used := UsedGas(msg, evm, homestead, world, pool);
      Ok((WorldAfter(msg, evm, coinbase, homestead, world, pool),
          Receipt(Outcome(msg, evm, homestead, world, pool).err != NoError, usedGas + used, used)))
  }

  /** World and receipt are those of a message that goes through. */
  lemma AppliedSettles(msg: Message, evm: Evm, coinbase: Address, homestead: bool, world: World, pool: nat,
                       usedGas: nat)
    requires Honest(evm)
    ensures var r := AppliedMessage(msg, evm, coinbase, homestead, world, pool, usedGas);
            && (r.Ok? <==> GoesThrough(msg, evm, homestead, world, pool))
            && (r.Ok? ==>
                  && r.value.1.cumulativeGasUsed == usedGas + r.value.1.gasUsed
                  && Settled(msg, evm, coinbase, Intrinsic(msg.data, msg.to.None? && homestead).value, world,
                             Counted(msg, Bought(msg, world)), r.value.0, r.value.1.gasUsed, r.value.1.failed))
  {
    GoesThroughIff(msg, evm, homestead, world, pool);
    if TransitionError(msg, evm, homestead, world, pool).None? {
      TransitionSettles(msg, evm, coinbase, homestead, world, pool);
    }
  }

  /** The same for any transaction. */
  function Applied(fees: Fees, tx: Tx, evm: Evm, coinbase: Address, homestead: bool, world: World, pool: nat,
                   usedGas: nat)
    : Result<(World, Receipt)>
  {
    match tx
    case Sign(from, nonce) =>
      if world.Nonce(from) < nonce then Err(NonceTooHigh)
      else if world.Nonce(from) > nonce then Err(NonceTooLow)
      else Ok((world.(nonces := world.nonces[from := nonce + 1]), Receipt(false, usedGas, 0)))
    case Plain(msg) =>
      AppliedMessage(msg.(tokenFee := FeeBalance(fees, tx)), evm, coinbase, homestead, world, pool, usedGas)
  }

  /** The part of ApplyTransaction for a message. */
  method ApplyMessage(gp: GasPool, msg: Message, evm: Evm, coinbase: Address, homestead: bool, world: World,
                      usedGas: nat)
    returns (r: Result<(World, Receipt)>)
    requires Honest(evm) && gp.gas <= MAX_UINT64
    modifies gp
    ensures r != Err(Panic) && r == AppliedMessage(msg, evm, coinbase, homestead, world, old(gp.gas), usedGas)
    ensures r.Ok? ==>
              r.value.1.cumulativeGasUsed == usedGas + r.value.1.gasUsed && gp.gas == old(gp.gas) - r.value.1.gasUsed
    ensures r.Ok? ==>
              Sum(r.value.0.balances) ==
              Sum(world.balances) + if msg.tokenFee.None? then 0 else r.value.1.gasUsed * msg.price
  {
    var st := new StateTransition(gp, msg, evm, coinbase, homestead, world);
    var t := st.TransitionDb();
    if t.Err? { return Err(t.error); }
    r := Ok((st.world, Receipt(t.value.1, usedGas + t.value.0, t.value.0)));
  }

  /** ApplyTransaction. */
  method ApplyTransaction(gp: GasPool, fees: Fees, tx: Tx, evm: Evm, coinbase: Address, homestead: bool, world: World,
                          usedGas: nat)
    returns (r: Result<(World, Receipt)>)
    requires Honest(evm) && gp.gas <= MAX_UINT64
    modifies gp
    ensures r != Err(Panic) && r == Applied(fees, tx, evm, coinbase, homestead, world, old(gp.gas), usedGas)
    ensures r.Ok? ==>
              r.value.1.cumulativeGasUsed == usedGas + r.value.1.gasUsed && gp.gas == old(gp.gas) - r.value.1.gasUsed
    ensures r.Ok? ==> Sum(r.value.0.balances) == Sum(world.balances) + IssuerFee(tx, r.value.1, fees.Keys)
  {
    match tx
    case Sign(from, nonce) =>
      r := ApplySign(world, from, nonce, usedGas);
    case Plain(msg) =>
      r := ApplyMessage(gp, msg.(tokenFee := FeeBalance(fees, tx)), evm, coinbase, homestead, world, usedGas);
  }

  /** Where a block's transactions stand. */
  datatype Progress = Progress(receipts: seq<Receipt>, usedGas: nat, world: World, fees: Fees)

  /** What applying a transaction gives, from fee balances, world, the gas in the pool and the gas used before. */
  type Apply = (Fees, Tx, World, nat, nat) -> Result<(World, Receipt)>

  function Applying(evm: Evm, coinbase: Address, homestead: bool): Apply {
    (fees: Fees, tx: Tx, world: World, pool: nat, usedGas: nat) =>
      Applied(fees, tx, evm, coinbase, homestead, world, pool, usedGas)
  }

  /** One more transaction, on what the ones before it have left. */
  function Next(p: Progress, tx: Tx, pool: nat, apply: Apply): Result<Progress> {
    var applied := apply(p.fees, tx, p.world, pool, p.usedGas);
    if applied.Err? then Err(applied.error)
    else
      var (world, receipt) := applied.value;
      Ok(Progress(p.receipts + [receipt], p.usedGas + receipt.gasUsed, world, FeesAfter(p.fees, tx, receipt)))
  }

  /** The first error of a block's transactions, or where they end. */
  function Processed(txs: seq<Tx>, gasLimit: nat, first: Progress, apply: Apply): Result<Progress> {
    if txs == [] then Ok(first)
    else
      var before := Processed(txs[..|txs| - 1], gasLimit, first, apply);
      if before.Err? then before
      else if before.value.usedGas > gasLimit then Err(Panic)
      else Next(before.value, txs[|txs| - 1], gasLimit - before.value.usedGas, apply)
  }

  lemma ProcessedNext(txs: seq<Tx>, i: nat, gasLimit: nat, first: Progress, apply: Apply, p: Progress, pool: nat)
    requires i < |txs| && Processed(txs[..i], gasLimit, first, apply) == Ok(p) && pool + p.usedGas == gasLimit
    ensures Processed(txs[..i + 1], gasLimit, first, apply) == Next(p, txs[i], pool, apply)
  {
    assert txs[..i + 1][..i] == txs[..i] && txs[..i + 1][i] == txs[i];
  }

  lemma {:induction false} ErrorStays(txs: seq<Tx>, i: nat, gasLimit: nat, first: Progress, apply: Apply)
    requires i <= |txs| && Processed(txs[..i], gasLimit, first, apply).Err?
    ensures Processed(txs, gasLimit, first, apply) == Processed(txs[..i], gasLimit, first, apply)
    decreases |txs|
  {
    if i < |txs| {
      var last := |txs| - 1;
      assert txs[..last][..i] == txs[..i];
      ErrorStays(txs[..last], i, gasLimit, first, apply);
    } else {
      assert txs[..i] == txs;
    }
  }

  /** What holds between two transactions of a block. */
  ghost predicate Standing(txs: seq<Tx>, gasLimit: nat, first: Progress, p: Progress, pool: nat) {
    && |p.receipts| == |txs| && Accumulates(p.receipts) && FeesPaid(first.fees, p.fees, txs, p.receipts)
    && p.usedGas == CumulativeBefore(p.receipts, |p.receipts|) && pool + p.usedGas == gasLimit
    && Sum(p.world.balances) == Sum(first.world.balances) + IssuerFees(txs, p.receipts, first.fees.Keys)
  }

  lemma StandingNext(txs: seq<Tx>, i: nat, gasLimit: nat, first: Progress, p: Progress, pool: nat, world: World,
                     receipt: Receipt, pool': nat)
    requires i < |txs| && Standing(txs[..i], gasLimit, first, p, pool) && pool' == pool - receipt.gasUsed
    requires receipt.cumulativeGasUsed == p.usedGas + receipt.gasUsed
    requires Sum(world.balances) == Sum(p.world.balances) + IssuerFee(txs[i], receipt, p.fees.Keys)
    ensures Standing(txs[..i + 1], gasLimit, first,
                     Progress(p.receipts + [receipt], p.usedGas + receipt.gasUsed, world,
                              FeesAfter(p.fees, txs[i], receipt)), pool')
  {
    OneMoreReceipt(txs, p.receipts, receipt, first.fees.Keys);
    OneMoreFee(first.fees, p.fees, txs, p.receipts, receipt);
  }

  /** The body of the transaction loop. */
  method ApplyNext(gp: GasPool, txs: seq<Tx>, i: nat, p: Progress, evm: Evm, coinbase: Address, homestead: bool,
                   ghost gasLimit: nat, ghost first: Progress)
    returns (r: Result<Progress>)
    requires Honest(evm) && gp.gas <= MAX_UINT64 && i < |txs| && Standing(txs[..i], gasLimit, first, p, gp.gas)
    modifies gp
    ensures r == Next(p, txs[i], old(gp.gas), Applying(evm, coinbase, homestead)) && r != Err(Panic)
    ensures r.Ok? ==> Standing(txs[..i + 1], gasLimit, first, r.value, gp.gas)
  {
    var applied := ApplyTransaction(gp, p.fees, txs[i], evm, coinbase, homestead, p.world, p.usedGas);
    if applied.Err? { return Err(applied.error); }
    var (world, receipt) := applied.value;
    StandingNext(txs, i, gasLimit, first, p, old(gp.gas), world, receipt, gp.gas);
    r := Ok(Progress(p.receipts + [receipt], p.usedGas + receipt.gasUsed, world, FeesAfter(p.fees, txs[i], receipt)));
  }

  /**
   The transaction loop of Process: at every point gas left in the pool plus gas used is the block's gas limit; the
   receipts accumulate; Ether changes by the fees that issuers paid, and by nothing else; and every issuer's fee balance
   goes down by the gas used for it. A block goes through exactly if each of its transactions does in turn.
   */
  method Process(txs: seq<Tx>, gasLimit: nat, fees0: Fees, evm: Evm, coinbase: Address, homestead: bool, world0: World)
    returns (r: Result<Progress>)
    requires Honest(evm) && gasLimit <= MAX_UINT64
    ensures r != Err(Panic) && r == Processed(txs, gasLimit, Progress([], 0, world0, fees0),
                                              Applying(evm, coinbase, homestead))
    ensures r.Ok? ==> |r.value.receipts| == |txs| && Accumulates(r.value.receipts)
    ensures r.Ok? ==> r.value.usedGas == CumulativeBefore(r.value.receipts, |txs|) <= gasLimit
    ensures r.Ok? ==>
              Sum(r.value.world.balances) == Sum(world0.balances) + IssuerFees(txs, r.value.receipts, fees0.Keys)
    ensures r.Ok? ==> FeesPaid(fees0, r.value.fees, txs, r.value.receipts)
  {
    var gp := new GasPool(gasLimit);
    var p := Progress([], 0, world0, fees0);
    ghost var first, apply := p, Applying(evm, coinbase, homestead);
    for i := 0 to |txs|
      invariant Standing(txs[..i], gasLimit, first, p, gp.gas) && Processed(txs[..i], gasLimit, first, apply) == Ok(p)
    {
      ProcessedNext(txs, i, gasLimit, first, apply, p, gp.gas);
      var next := ApplyNext(gp, txs, i, p, evm, coinbase, homestead, gasLimit, first);
      if next.Err? {
        ErrorStays(txs, i + 1, gasLimit, first, apply);
        return next;
      }
      p := next.value;
    }
    assert txs[..|txs|] == txs;
    r := Ok(p);
  }

  // ---------- What the coinbase earns ----------

  /** The EVM leaves an account's balance alone. */
  ghost predicate Spares(evm: Evm, a: Address) {
    forall w, m, g: nat {:trigger evm(w, m, g)} :: Value(evm(w, m, g).world.balances, a) == Value(w.balances, a)
  }

  function FeeFor(tx: Tx, receipt: Receipt): nat { if tx.Plain? then receipt.gasUsed * tx.msg.price else 0 }

  function FeesOf(txs: seq<Tx>, receipts: seq<Receipt>): nat
    requires |txs| == |receipts|
  {
    if txs == [] then 0 else var i := |txs| - 1; FeesOf(txs[..i], receipts[..i]) + FeeFor(txs[i], receipts[i])
  }

  lemma OneFee(fees: Fees, tx: Tx, evm: Evm, coinbase: Address, homestead: bool, world: World, pool: nat, usedGas: nat)
    requires Honest(evm) && Spares(evm, coinbase) && (tx.Plain? ==> tx.msg.from != coinbase)
    ensures var r := Applied(fees, tx, evm, coinbase, homestead, world, pool, usedGas);
            r.Ok? ==> Value(r.value.0.balances, coinbase) == Value(world.balances, coinbase) + FeeFor(tx, r.value.1)
  {
    if tx.Plain? {
      var msg := tx.msg.(tokenFee := FeeBalance(fees, tx));
      if TransitionError(msg, evm, homestead, world, pool).None? {
        TransitionSettles(msg, evm, coinbase, homestead, world, pool);
        var given := Counted(msg, Bought(msg, world));
        assert Value(given.balances, coinbase) == Value(world.balances, coinbase);
      }
    }
  }

  /** Whatever is applied, an account that does not send it gets its fee. */
  ghost predicate Pays(apply: Apply, a: Address) {
    forall fees, tx: Tx, world, pool: nat, used: nat {:trigger apply(fees, tx, world, pool, used)} ::
      (tx.Plain? && tx.msg.from == a) || PaysOnce(apply(fees, tx, world, pool, used), tx, world, a)
  }

  ghost predicate PaysOnce(r: Result<(World, Receipt)>, tx: Tx, world: World, a: Address) {
    r.Ok? ==> Value(r.value.0.balances, a) == Value(world.balances, a) + FeeFor(tx, r.value.1)
  }

  /** The transactions from the first on have been paid for. */
  ghost predicate Earned(txs: seq<Tx>, first: Progress, p: Progress, a: Address) {
    && |p.receipts| == |first.receipts| + |txs|
    && Value(p.world.balances, a) == Value(first.world.balances, a) + FeesOf(txs, p.receipts[|first.receipts|..])
  }

  lemma EarnedNext(txs: seq<Tx>, i: nat, first: Progress, p: Progress, pool: nat, apply: Apply, a: Address)
    requires |txs| == i + 1 && Earned(txs[..i], first, p, a) && Pays(apply, a)
             && !(txs[i].Plain? && txs[i].msg.from == a)
    ensures var r := Next(p, txs[i], pool, apply); r.Ok? ==> Earned(txs, first, r.value, a)
  {
    var r := Next(p, txs[i], pool, apply);
    if r.Ok? {
      assert PaysOnce(apply(p.fees, txs[i], p.world, pool, p.usedGas), txs[i], p.world, a);
      assert r.value.receipts[|first.receipts|..][..i] == p.receipts[|first.receipts|..];
    }
  }

  lemma {:induction false} EarnsOver(txs: seq<Tx>, gasLimit: nat, first: Progress, apply: Apply, a: Address)
    requires Pays(apply, a) && forall tx | tx in txs && tx.Plain? :: tx.msg.from != a
    ensures var r := Processed(txs, gasLimit, first, apply); r.Ok? ==> Earned(txs, first, r.value, a)
    decreases |txs|
  {
    if txs != [] {
      var i := |txs| - 1;
      EarnsOver(txs[..i], gasLimit, first, apply, a);
      assert txs[i] in txs;
      var before := Processed(txs[..i], gasLimit, first, apply);
      if before.Ok? && before.value.usedGas <= gasLimit {
        EarnedNext(txs, i, first, before.value, gasLimit - before.value.usedGas, apply, a);
      }
    }
  }

  /**
   Over a block, a coinbase that sends nothing and that the EVM leaves alone earns exactly the price of the gas that
   each receipt records.
   */
  lemma CoinbaseEarns(txs: seq<Tx>, gasLimit: nat, first: Progress, evm: Evm, coinbase: Address, homestead: bool)
    requires Honest(evm) && Spares(evm, coinbase) && forall tx | tx in txs && tx.Plain? :: tx.msg.from != coinbase
    ensures var r := Processed(txs, gasLimit, first, Applying(evm, coinbase, homestead));
            r.Ok? ==> Earned(txs, first, r.value, coinbase)
  {
    var apply := Applying(evm, coinbase, homestead);
    forall fees, tx: Tx, world, pool: nat, used: nat | !(tx.Plain? && tx.msg.from == coinbase)
      ensures PaysOnce(apply(fees, tx, world, pool, used), tx, world, coinbase)
    {
      OneFee(fees, tx, evm, coinbase, homestead, world, pool, used);
    }
    EarnsOver(txs, gasLimit, first, apply, coinbase);
  }

  // ---------- Recomputing gas from cumulative gas ----------

  /** A difference of two 64-bit numbers wraps around below zero. */
  function Uint64(x: int): nat { x % (MAX_UINT64 + 1) }

  /** What SetReceiptsData sets the gas of a receipt to: the difference to the previous receipt's cumulative gas. */
  function Recomputed(receipts: seq<Receipt>, i: nat): Receipt
    requires i < |receipts|
  {
    receipts[i].(gasUsed := Uint64(receipts[i].cumulativeGasUsed - CumulativeBefore(receipts, i)))
  }

  method SetReceiptsData(transactions: nat, receipts: seq<Receipt>) returns (r: Option<seq<Receipt>>)
    ensures r.None? <==> transactions != |receipts|
    ensures r.Some? ==>
              |r.value| == |receipts| && forall i | 0 <= i < |receipts| :: r.value[i] == Recomputed(receipts, i)
  {
    if transactions != |receipts| { return None; }
    var done := [];
    for j := 0 to |receipts|
      invariant |done| == j && forall i | 0 <= i < j :: done[i] == Recomputed(receipts, i)
    {
      var c := receipts[j].cumulativeGasUsed;
      done := done + [receipts[j].(gasUsed := if j == 0 then Uint64(c)
                                   else Uint64(c - receipts[j - 1].cumulativeGasUsed))];
    }
    r := Some(done);
  }

  /** Equal but for the gas, which the database does not store. */
  ghost predicate SameButGas(a: seq<Receipt>, b: seq<Receipt>) {
    |a| == |b| && forall i {:trigger a[i]} | 0 <= i < |a| ::
      a[i].cumulativeGasUsed == b[i].cumulativeGasUsed && a[i].failed == b[i].failed
  }

  /** Recomputing the gas of stored receipts gives back exactly what Process recorded. */
  lemma GasIsRecovered(receipts: seq<Receipt>, stored: seq<Receipt>, i: nat)
    requires Accumulates(receipts) && SameButGas(receipts, stored) && i < |receipts|
    requires CumulativeBefore(receipts, |receipts|) <= MAX_UINT64
    ensures Recomputed(stored, i) == receipts[i]
  {
    assert AccumulatesAt(receipts, i);
    CumulativeGrows(receipts, i + 1, |receipts|);
    assert CumulativeBefore(receipts, i + 1) == receipts[i].cumulativeGasUsed;
    assert CumulativeBefore(stored, i) == CumulativeBefore(receipts, i) by {
      if i > 0 { assert receipts[i - 1].cumulativeGasUsed == stored[i - 1].cumulativeGasUsed; }
    }
    assert receipts[i].failed == stored[i].failed;
  }

  /** Cumulative gas never falls. */
  lemma {:induction false} CumulativeGrows(receipts: seq<Receipt>, i: nat, j: nat)
    requires Accumulates(receipts) && i <= j <= |receipts|
    ensures CumulativeBefore(receipts, i) <= CumulativeBefore(receipts, j)
    decreases j
  {
    if i < j {
      assert AccumulatesAt(receipts, j - 1);
      CumulativeGrows(receipts, i, j - 1);
    }
  }
}
