/** Executing messages: buying gas, running the virtual machine, refunding, paying the miner, and
    the gas pool of a block. The virtual machine is a parameter that returns no more gas than it
    is given and creates no ether. */
module StateTransitions {
  import opened Transactions
  import opened IntrinsicGas
  import opened Uint64
  import opened Options

  // ----- Balances -----

  type Balances = map<Address, nat>

  function Balance(b: Balances, a: Address): nat {
    if a in b then b[a] else 0
  }

  ghost function SumOver(b: Balances, accounts: set<Address>): nat {
    if accounts == {} then 0 else var a :| a in accounts; Balance(b, a) + SumOver(b, accounts - {a})
  }

  /** All ether in existence. */
  ghost function TotalEther(b: Balances): nat {
    SumOver(b, b.Keys)
  }

  lemma {:induction false} SumWithout(b: Balances, accounts: set<Address>, a: Address)
    requires a in accounts
    ensures SumOver(b, accounts) == Balance(b, a) + SumOver(b, accounts - {a})
  {
    var first :| first in accounts && SumOver(b, accounts) == Balance(b, first) + SumOver(b, accounts - {first});
    if first != a {
      SumWithout(b, accounts - {first}, a);
      SumWithout(b, accounts - {a}, first);
      assert accounts - {first} - {a} == accounts - {a} - {first};
    }
  }

  lemma {:induction false} SumSame(b: Balances, b': Balances, accounts: set<Address>)
    requires forall a :: a in accounts ==> Balance(b, a) == Balance(b', a)
    ensures SumOver(b, accounts) == SumOver(b', accounts)
  {
    if accounts != {} {
      var a :| a in accounts;
      SumWithout(b, accounts, a);
      SumWithout(b', accounts, a);
      SumSame(b, b', accounts - {a});
    }
  }

  lemma SumMore(b: Balances, a: Address)
    ensures SumOver(b, b.Keys + {a}) == TotalEther(b)
  {
    if a !in b {
      SumWithout(b, b.Keys + {a}, a);
      assert b.Keys + {a} - {a} == b.Keys;
    } else {
      assert b.Keys + {a} == b.Keys;
    }
  }

  lemma TotalAfterUpdate(b: Balances, a: Address, v: nat)
    ensures TotalEther(b[a := v]) == TotalEther(b) - Balance(b, a) + v
  {
    var b' := b[a := v];
    assert b'.Keys == b.Keys + {a};
    SumMore(b, a);
    SumWithout(b, b.Keys + {a}, a);
    SumWithout(b', b.Keys + {a}, a);
    SumSame(b, b', b.Keys + {a} - {a});
  }

  lemma {:induction false} SumZero(b: Balances, accounts: set<Address>)
    ensures SumOver(b, accounts) == 0 <==> forall a :: a in accounts ==> Balance(b, a) == 0
  {
    if accounts != {} {
      var a :| a in accounts;
      SumWithout(b, accounts, a);
      SumZero(b, accounts - {a});
      assert forall x :: x in accounts ==> x == a || x in accounts - {a};
    }
  }

  /** Without some accounts, what they held is gone. */
  lemma {:induction false} TotalWithout(b: Balances, accounts: set<Address>)
    ensures TotalEther(b - accounts) + SumOver(b, accounts) == TotalEther(b)
    decreases accounts
  {
    if accounts == {} {
      assert b - accounts == b;
    } else {
      var a :| a in accounts;
      var rest := b - {a};
      SumMore(b, a);
      SumWithout(b, b.Keys + {a}, a);
      assert b.Keys + {a} - {a} == rest.Keys;
      SumSame(b, rest, rest.Keys);
      SumWithout(b, accounts, a);
      TotalWithout(rest, accounts - {a});
      SumSame(b, rest, accounts - {a});
      assert rest - (accounts - {a}) == b - accounts;
    }
  }

  // ----- The world, messages and the virtual machine -----

  /** The state within a transaction: `destructed` are the accounts that have destructed themselves. */
  datatype World = World(balances: Balances, nonces: map<Address, nat>, refund: nat, destructed: set<Address>)
  {
    function Nonce(a: Address): nat {
      if a in nonces then nonces[a] else 0
    }

    function Credit(a: Address, amount: nat): World {
      this.(balances := balances[a := Balance(balances, a) + amount])
    }

    function Debit(a: Address, amount: nat): World
      requires amount <= Balance(balances, a)
    {
      this.(balances := balances[a := Balance(balances, a) - amount])
    }

    function WithNonce(a: Address, n: nat): World {
      this.(nonces := nonces[a := n])
    }

    /** An account hands its balance to another one and is marked for deletion; handing it to itself
        destroys the balance. */
    function SelfDestruct(a: Address, heir: Address): World {
      var moved := Credit(heir, Balance(balances, a));
      moved.(balances := moved.balances[a := 0], destructed := destructed + {a})
    }

    /** The end of a transaction: what destructed itself is deleted, whatever it has been given since,
        and the refund counter starts over. */
    function Finalised(): World {
      World(balances - destructed, nonces - destructed, 0, {})
    }

    ghost function Ether(): nat {
      TotalEther(balances)
    }

    /** What the accounts that are going to be deleted hold. */
    ghost function Doomed(): nat {
      SumOver(balances, destructed)
    }
  }

  lemma FinalisedTotal(w: World)
    ensures w.Finalised().Ether() + w.Doomed() == w.Ether()
  {
    TotalWithout(w.balances, w.destructed);
  }

  lemma SelfDestructTotal(w: World, a: Address, heir: Address)
    ensures w.SelfDestruct(a, heir).Ether() == if a == heir then w.Ether() - Balance(w.balances, a) else w.Ether()
  {
    var balance := Balance(w.balances, a);
    var moved := w.Credit(heir, balance);
    CreditTotal(w, heir, balance);
    TotalAfterUpdate(moved.balances, a, 0);
  }

  lemma CreditTotal(w: World, a: Address, amount: nat)
    ensures w.Credit(a, amount).Ether() == w.Ether() + amount
  {
    TotalAfterUpdate(w.balances, a, Balance(w.balances, a) + amount);
  }

  lemma DebitTotal(w: World, a: Address, amount: nat)
    requires amount <= Balance(w.balances, a)
    ensures w.Debit(a, amount).Ether() == w.Ether() - amount
  {
    TotalAfterUpdate(w.balances, a, Balance(w.balances, a) - amount);
  }

  /** The machine's own transfers move ether from one account to another, or to itself. */
  lemma TransferConserves(w: World, from: Address, to: Address, amount: nat)
    requires amount <= Balance(w.balances, from)
    ensures w.Debit(from, amount).Credit(to, amount).Ether() == w.Ether()
    ensures from == to ==> Balance(w.Debit(from, amount).Credit(to, amount).balances, to) == Balance(w.balances, to)
    ensures from != to ==>
              && Balance(w.Debit(from, amount).Credit(to, amount).balances, from) == Balance(w.balances, from) - amount
              && Balance(w.Debit(from, amount).Credit(to, amount).balances, to) == Balance(w.balances, to) + amount
  {
    DebitTotal(w, from, amount);
    CreditTotal(w.Debit(from, amount), to, amount);
  }

  datatype Message = Message(from: Address, creation: bool, to: Address, gasPrice: nat, gas: nat, value: nat,
                             nonce: nat, checkNonce: bool, data: seq<Byte>)
  {
    /** The widths of the source: gas and the length of the data are 64-bit numbers. */
    ghost predicate Fits() {
      gas <= MAX_UINT64 && |data| <= MAX_UINT64
    }

    /** What the whole gas limit costs. */
    function Fee(): nat {
      gas * gasPrice
    }
  }

  datatype EvmResult = EvmResult(world: World, gas: nat, failed: bool)

  type Evm = (World, Message, nat) -> EvmResult

  ghost predicate Sound(evm: Evm) {
    forall w, m, g :: evm(w, m, g).gas <= g && evm(w, m, g).world.Ether() <= w.Ether()
  }

  datatype Rules = Rules(homestead: bool, istanbul: bool, coinbase: Address)

  datatype TxError =
    | NonceTooHigh | NonceTooLow | InsufficientFunds | GasLimitReached
    | IntrinsicOverflow | IntrinsicGasTooLow | InsufficientFundsForTransfer

  datatype Outcome = Executed(usedGas: nat, failed: bool) | Invalid(error: TxError)

  function MessageGas(msg: Message, rules: Rules): GasResult {
    Intrinsic(msg.data, msg.creation, rules.homestead, rules.istanbul)
  }

  // ----- What a message is charged -----

  /** The consensus rules on the nonce, on the fee and on the block's gas. */
  predicate Buys(w: World, msg: Message, pool: nat) {
    && (msg.checkNonce ==> w.Nonce(msg.from) == msg.nonce)
    && msg.Fee() <= Balance(w.balances, msg.from)
    && msg.gas <= pool
  }

  /** All six consensus rules a message has to meet to be executed. */
  predicate Acceptable(w: World, msg: Message, rules: Rules, pool: nat) {
    && Buys(w, msg, pool)
    && MessageGas(msg, rules).Gas?
    && MessageGas(msg, rules).amount <= msg.gas
    && msg.Fee() + msg.value <= Balance(w.balances, msg.from)
  }

  /** The world the machine starts from: the fee is taken, and a call has its nonce counted. */
  function Prepared(w: World, msg: Message): World
    requires msg.Fee() <= Balance(w.balances, msg.from)
  {
    var paid := w.Debit(msg.from, msg.Fee());
    if msg.creation then paid else paid.WithNonce(msg.from, paid.Nonce(msg.from) + 1)
  }

  function RunMachine(w: World, msg: Message, evm: Evm, rules: Rules): EvmResult
    requires msg.Fee() <= Balance(w.balances, msg.from)
    requires MessageGas(msg, rules).Gas? && MessageGas(msg, rules).amount <= msg.gas
  {
    evm(Prepared(w, msg), msg, msg.gas - MessageGas(msg, rules).amount)
  }

  /** The gas charged when the machine ends with the given gas left. */
  function Charged(limit: nat, left: nat, refund: nat): nat
    requires left <= limit
  {
    limit - left - Min((limit - left) / 2, refund)
  }

  /** After the machine: the sender gets the unused part of the fee back, the miner gets the rest. */
  function Settled(end: World, msg: Message, coinbase: Address, used: nat): World
    requires used <= msg.gas
  {
    end.Credit(msg.from, (msg.gas - used) * msg.gasPrice).Credit(coinbase, used * msg.gasPrice)
  }

  /** The gas that an acceptable message is charged. */
  function UsedGas(w: World, msg: Message, evm: Evm, rules: Rules): nat
    requires msg.Fee() <= Balance(w.balances, msg.from)
    requires MessageGas(msg, rules).Gas? && MessageGas(msg, rules).amount <= msg.gas
    requires RunMachine(w, msg, evm, rules).gas <= msg.gas
  {
    Charged(msg.gas, RunMachine(w, msg, evm, rules).gas, RunMachine(w, msg, evm, rules).world.refund)
  }

  /** The first of the consensus rules that a message breaks, in the order in which they are checked. */
  function FirstError(w: World, msg: Message, rules: Rules, pool: nat): Option<TxError> {
    if msg.checkNonce && w.Nonce(msg.from) < msg.nonce then Some(NonceTooHigh)
    else if msg.checkNonce && w.Nonce(msg.from) > msg.nonce then Some(NonceTooLow)
    else if Balance(w.balances, msg.from) < msg.Fee() then Some(InsufficientFunds)
    else if pool < msg.gas then Some(GasLimitReached)
    else if MessageGas(msg, rules).GasOverflow? then Some(IntrinsicOverflow)
    else if msg.gas < MessageGas(msg, rules).amount then Some(IntrinsicGasTooLow)
    else if Balance(w.balances, msg.from) < msg.Fee() + msg.value then Some(InsufficientFundsForTransfer)
    else None
  }

  lemma NoErrorMeansAcceptable(w: World, msg: Message, rules: Rules, pool: nat)
    ensures FirstError(w, msg, rules, pool).None? <==> Acceptable(w, msg, rules, pool)
  {
    hide Intrinsic, Message.Fee, Balance;
  }

  lemma ChargedBounds(limit: nat, left: nat, refund: nat, intrinsic: nat)
    requires left + intrinsic <= limit
    ensures intrinsic <= 2 * Charged(limit, left, refund) && Charged(limit, left, refund) <= limit - left
  {
  }

  lemma FeeSplits(msg: Message, used: nat)
    requires used <= msg.gas
    ensures (msg.gas - used) * msg.gasPrice + used * msg.gasPrice == msg.Fee()
  {
    assert msg.gas == (msg.gas - used) + used;
  }

  /** The ether that the machine destroys. */
  ghost function Burnt(w: World, msg: Message, evm: Evm, rules: Rules): nat
    requires Sound(evm) && msg.Fee() <= Balance(w.balances, msg.from)
    requires MessageGas(msg, rules).Gas? && MessageGas(msg, rules).amount <= msg.gas
  {
    Prepared(w, msg).Ether() - RunMachine(w, msg, evm, rules).world.Ether()
  }

  /** Whatever the machine does and whoever the miner is, no ether appears or disappears but what the
      machine destroys. */
  lemma SettledConserves(w: World, msg: Message, evm: Evm, rules: Rules, used: nat)
    requires Sound(evm) && used <= msg.gas
    requires msg.Fee() <= Balance(w.balances, msg.from)
    requires MessageGas(msg, rules).Gas? && MessageGas(msg, rules).amount <= msg.gas
    ensures Settled(RunMachine(w, msg, evm, rules).world, msg, rules.coinbase, used).Ether() + Burnt(w, msg, evm, rules) == w.Ether()
  {
    hide TotalEther, Intrinsic, Message.Fee, Balance, World.Credit;
    var end := RunMachine(w, msg, evm, rules).world;
    DebitTotal(w, msg.from, msg.Fee());
    CreditTotal(end, msg.from, (msg.gas - used) * msg.gasPrice);
    CreditTotal(end.Credit(msg.from, (msg.gas - used) * msg.gasPrice), rules.coinbase, used * msg.gasPrice);
    FeeSplits(msg, used);
    assert Prepared(w, msg).Ether() == w.Debit(msg.from, msg.Fee()).Ether();
  }

  // ----- The gas pool -----

  class GasPool {
    var gas: nat

    constructor ()
      ensures gas == 0
    {
      gas := 0;
    }

    /** The source panics when the pool would exceed 64 bits, so callers have to rule that out. */
    method AddGas(amount: nat)
      requires gas + amount <= MAX_UINT64
      modifies this
      ensures gas == old(gas) + amount
    {
      gas := gas + amount;
    }

    method SubGas(amount: nat) returns (ok: bool)
      modifies this
      ensures ok == (amount <= old(gas)) && gas == if ok then old(gas) - amount else old(gas)
    {
      ok := amount <= gas;
      if ok {
        gas := gas - amount;
      }
    }
  }

  class StateDb {
    var world: World

    constructor (world: World)
      ensures this.world == world
    {
      this.world := world;
    }
  }

  // ----- One message -----

  datatype Purchase = Bought | Refused(error: TxError)

  class StateTransition {
    const gp: GasPool
    const state: StateDb
    const msg: Message
    const evm: Evm
    const rules: Rules
    var gas: nat
    var initialGas: nat

    constructor (gp: GasPool, state: StateDb, msg: Message, evm: Evm, rules: Rules)
      ensures this.gp == gp && this.state == state && this.msg == msg && this.evm == evm && this.rules == rules
      ensures gas == 0 && initialGas == 0
    {
      this.gp, this.state, this.msg, this.evm, this.rules := gp, state, msg, evm, rules;
      gas, initialGas := 0, 0;
    }

    function GasUsed(): nat
      requires gas <= initialGas
      reads this
    {
      initialGas - gas
    }

    method BuyGas() returns (r: Purchase)
      requires gas == 0
      modifies this, gp, state
      ensures r.Bought? <==> msg.Fee() <= Balance(old(state.world.balances), msg.from) && msg.gas <= old(gp.gas)
      ensures r.Bought? ==>
                && gas == initialGas == msg.gas && gp.gas == old(gp.gas) - msg.gas
                && state.world == old(state.world).Debit(msg.from, msg.Fee())
      ensures r.Refused? ==>
                && gp.gas == old(gp.gas) && state.world == old(state.world)
                && r.error == if msg.Fee() <= Balance(old(state.world.balances), msg.from)
                              then GasLimitReached else InsufficientFunds
    {
      var price := msg.gas * msg.gasPrice;
      if Balance(state.world.balances, msg.from) < price {
        return Refused(InsufficientFunds);
      }
      var enough := gp.SubGas(msg.gas);
      if !enough {
        return Refused(GasLimitReached);
      }
      gas, initialGas := gas + msg.gas, msg.gas;
      state.world := state.world.Debit(msg.from, price);
      return Bought;
    }

    method PreCheck() returns (r: Purchase)
      requires gas == 0
      modifies this, gp, state
      ensures r.Bought? <==> Buys(old(state.world), msg, old(gp.gas))
      ensures r.Bought? ==>
                && gas == initialGas == msg.gas && gp.gas == old(gp.gas) - msg.gas
                && state.world == old(state.world).Debit(msg.from, msg.Fee())
      ensures r.Refused? ==> gp.gas == old(gp.gas) && state.world == old(state.world)
      ensures r.Refused? ==> FirstError(old(state.world), msg, rules, old(gp.gas)) == Some(r.error)
    {
      if msg.checkNonce {
        var nonce := state.world.Nonce(msg.from);
        if nonce < msg.nonce {
          return Refused(NonceTooHigh);
        } else if nonce > msg.nonce {
          return Refused(NonceTooLow);
        }
      }
      r := BuyGas();
    }

    /** Hands back the refund, capped at half of the gas used, and the gas that is left: its price
        to the sender, and the gas itself to the block's pool. */
    method RefundGas()
      requires gas <= initialGas && gp.gas + initialGas <= MAX_UINT64
      modifies this, gp, state
      ensures initialGas == old(initialGas) && gas <= initialGas
      ensures GasUsed() == Charged(initialGas, old(gas), old(state.world.refund))
      ensures gp.gas == old(gp.gas) + gas
      ensures state.world == old(state.world).Credit(msg.from, gas * msg.gasPrice)
    {
      var refund := GasUsed() / 2;
      if refund > state.world.refund {
        refund := state.world.refund;
      }
      gas := gas + refund;
      state.world := state.world.Credit(msg.from, gas * msg.gasPrice);
      gp.AddGas(gas);
    }

    /** Runs the machine on a bought message, settles the fee and gives unused gas back to the pool. */
    method Execute(ghost w: World, ghost pool: nat, intrinsic: nat) returns (r: Outcome)
      requires Sound(evm) && msg.gas <= pool <= MAX_UINT64
      requires msg.Fee() <= Balance(w.balances, msg.from) && MessageGas(msg, rules) == Gas(intrinsic) && intrinsic <= msg.gas
      requires gas == msg.gas - intrinsic && initialGas == msg.gas
      requires gp.gas == pool - msg.gas && state.world == w.Debit(msg.from, msg.Fee())
      modifies this, gp, state
      ensures r.Executed? && r.usedGas <= msg.gas
      ensures var result := RunMachine(w, msg, evm, rules);
              && result.gas <= msg.gas && r.failed == result.failed
              && r.usedGas == Charged(msg.gas, result.gas, result.world.refund)
              && state.world == Settled(result.world, msg, rules.coinbase, r.usedGas)
      ensures gp.gas == pool - r.usedGas
    {
      hide TotalEther, Intrinsic, Balance, World.Ether, Sound, Message.Fee, World.Credit, Charged;
      MachineGas(w, msg, evm, rules);
      if !msg.creation {
        state.world := state.world.WithNonce(msg.from, state.world.Nonce(msg.from) + 1);
      }
      var result := evm(state.world, msg, gas);
      assert result == RunMachine(w, msg, evm, rules);
      state.world, gas := result.world, result.gas;
      RefundGas();
      state.world := state.world.Credit(rules.coinbase, GasUsed() * msg.gasPrice);
      r := Executed(GasUsed(), result.failed);
    }

    /** Executes the message if and only if it meets the consensus rules. Then ether is conserved but
        for what the machine destroys, the gas charged lies between half the intrinsic gas and the
        limit, and the pool is down by exactly that gas. A message refused before its gas is bought changes nothing; one refused
        afterwards leaves the gas bought, and its block invalid. */
    method TransitionDb() returns (r: Outcome)
      requires gas == 0 && msg.Fits() && Sound(evm) && gp.gas <= MAX_UINT64
      modifies this, gp, state
      ensures r.Executed? <==> Acceptable(old(state.world), msg, rules, old(gp.gas))
      ensures r.Executed? ==>
                && MessageGas(msg, rules).amount <= 2 * r.usedGas && r.usedGas <= msg.gas
                && gp.gas == old(gp.gas) - r.usedGas
                && state.world.Ether() + Burnt(old(state.world), msg, evm, rules) == old(state.world.Ether())
                && RunMachine(old(state.world), msg, evm, rules).gas <= msg.gas
                && r.usedGas == UsedGas(old(state.world), msg, evm, rules)
                && state.world == Settled(RunMachine(old(state.world), msg, evm, rules).world, msg, rules.coinbase, r.usedGas)
      ensures r.Invalid? ==> FirstError(old(state.world), msg, rules, old(gp.gas)) == Some(r.error)
      ensures r.Invalid? && !Buys(old(state.world), msg, old(gp.gas)) ==>
                gp.gas == old(gp.gas) && state.world == old(state.world)
      ensures r.Invalid? && Buys(old(state.world), msg, old(gp.gas)) ==>
                && gp.gas == old(gp.gas) - msg.gas
                && state.world == old(state.world).Debit(msg.from, msg.Fee())
    {
      hide TotalEther, ExactIntrinsicGas, World.Ether, Sound;
      ghost var w, pool := state.world, gp.gas;
      var pre := PreCheck();
      if pre.Refused? {
        return Invalid(pre.error);
      }
      var intrinsic := ComputeIntrinsicGas(msg.data, msg.creation, rules.homestead, rules.istanbul);
      if intrinsic.GasOverflow? {
        return Invalid(IntrinsicOverflow);
      }
      if gas < intrinsic.amount {
        return Invalid(IntrinsicGasTooLow);
      }
      gas := gas - intrinsic.amount;
      if msg.value > 0 && Balance(state.world.balances, msg.from) < msg.value {
        return Invalid(InsufficientFundsForTransfer);
      }
      r := Execute(w, pool, intrinsic.amount);
      MachineGas(w, msg, evm, rules);
      ChargedBounds(msg.gas, RunMachine(w, msg, evm, rules).gas, RunMachine(w, msg, evm, rules).world.refund, intrinsic.amount);
      SettledConserves(w, msg, evm, rules, r.usedGas);
    }
  }

  lemma MachineGas(w: World, msg: Message, evm: Evm, rules: Rules)
    requires Sound(evm)
    requires msg.Fee() <= Balance(w.balances, msg.from)
    requires MessageGas(msg, rules).Gas? && MessageGas(msg, rules).amount <= msg.gas
    ensures RunMachine(w, msg, evm, rules).gas + MessageGas(msg, rules).amount <= msg.gas
  {
  }

  // ----- A block -----

  datatype Receipt = Receipt(failed: bool, cumulativeGas: nat, gasUsed: nat)

  datatype ProcessResult = Processed(receipts: seq<Receipt>, usedGas: nat) | Rejected(error: TxError)

  function TotalGas(receipts: seq<Receipt>): nat {
    if |receipts| == 0 then 0 else receipts[|receipts| - 1].cumulativeGas
  }

  /** Every receipt adds its own gas to the total of the ones before it. */
  ghost predicate Cumulative(receipts: seq<Receipt>) {
    forall i :: 0 <= i < |receipts| ==> receipts[i].cumulativeGas == TotalGas(receipts[..i]) + receipts[i].gasUsed
  }

  lemma CumulativeAppend(receipts: seq<Receipt>, r: Receipt)
    requires Cumulative(receipts) && r.cumulativeGas == TotalGas(receipts) + r.gasUsed
    ensures Cumulative(receipts + [r]) && TotalGas(receipts + [r]) == r.cumulativeGas
  {
    var longer := receipts + [r];
    forall i | 0 <= i < |longer|
      ensures longer[i].cumulativeGas == TotalGas(longer[..i]) + longer[i].gasUsed
    {
      if i < |receipts| {
        assert longer[i] == receipts[i] && longer[..i] == receipts[..i];
      } else {
        assert longer[..i] == receipts;
      }
    }
  }

  /** The messages are each charged between half their intrinsic gas and their limit. */
  ghost predicate FairlyCharged(msgs: seq<Message>, receipts: seq<Receipt>, rules: Rules) {
    && |receipts| <= |msgs|
    && forall i :: 0 <= i < |receipts| ==>
         && MessageGas(msgs[i], rules).Gas?
         && MessageGas(msgs[i], rules).amount <= 2 * receipts[i].gasUsed
         && receipts[i].gasUsed <= msgs[i].gas
  }

  /** After each transaction, the gas left in the pool and the gas used so far make up the limit. */
  ghost predicate Accounted(receipts: seq<Receipt>, left: seq<nat>, gasLimit: nat) {
    && |left| == |receipts|
    && forall i :: 0 <= i < |receipts| ==> left[i] + receipts[i].cumulativeGas == gasLimit
  }

  ghost predicate AllFit(msgs: seq<Message>) {
    forall i :: 0 <= i < |msgs| ==> msgs[i].Fits()
  }

  /** The books of a block, part of whose transactions are processed. */
  ghost predicate Ledger(msgs: seq<Message>, receipts: seq<Receipt>, left: seq<nat>, rules: Rules, gasLimit: nat) {
    && Cumulative(receipts) && FairlyCharged(msgs, receipts, rules) && Accounted(receipts, left, gasLimit)
  }

  lemma LedgerStart(msgs: seq<Message>, rules: Rules, gasLimit: nat)
    ensures Ledger(msgs, [], [], rules, gasLimit)
  {
  }

  lemma LedgerStep(msgs: seq<Message>, receipts: seq<Receipt>, left: seq<nat>, rules: Rules, gasLimit: nat,
                   r: Receipt, pool: nat)
    requires Ledger(msgs, receipts, left, rules, gasLimit) && |receipts| < |msgs|
    requires r.cumulativeGas == TotalGas(receipts) + r.gasUsed && pool + r.cumulativeGas == gasLimit
    requires MessageGas(msgs[|receipts|], rules).Gas? && MessageGas(msgs[|receipts|], rules).amount <= 2 * r.gasUsed
    requires r.gasUsed <= msgs[|receipts|].gas
    ensures Ledger(msgs, receipts + [r], left + [pool], rules, gasLimit)
    ensures TotalGas(receipts + [r]) == r.cumulativeGas
  {
    hide MessageGas, Cumulative;
    CumulativeAppend(receipts, r);
  }

  // ----- Ether across a transaction -----

  /** The world after the transaction of an acceptable message. */
  ghost function WorldAfter(w: World, msg: Message, evm: Evm, rules: Rules): World
    requires Sound(evm) && msg.Fee() <= Balance(w.balances, msg.from)
    requires MessageGas(msg, rules).Gas? && MessageGas(msg, rules).amount <= msg.gas
  {
    MachineGas(w, msg, evm, rules);
    Settled(RunMachine(w, msg, evm, rules).world, msg, rules.coinbase, UsedGas(w, msg, evm, rules)).Finalised()
  }

  /** Neither the machine nor the settlement leaves ether on an account that is going to be deleted: the
      machine none at all, and the sender and the miner get none if they are among them. */
  predicate LeavesNothing(end: World, msg: Message, coinbase: Address, used: nat)
    requires used <= msg.gas
  {
    && (forall a :: a in end.destructed ==> Balance(end.balances, a) == 0)
    && (msg.from in end.destructed ==> (msg.gas - used) * msg.gasPrice == 0)
    && (coinbase in end.destructed ==> used * msg.gasPrice == 0)
  }

  lemma CreditedTwice(w: World, a: Address, x: nat, b: Address, y: nat, c: Address)
    ensures Balance(w.Credit(a, x).Credit(b, y).balances, c) ==
              Balance(w.balances, c) + (if c == a then x else 0) + (if c == b then y else 0)
  {
  }

  lemma DoomedAfter(end: World, msg: Message, coinbase: Address, used: nat)
    requires used <= msg.gas
    ensures Settled(end, msg, coinbase, used).Doomed() == 0 <==> LeavesNothing(end, msg, coinbase, used)
  {
    var w := Settled(end, msg, coinbase, used);
    var back, fee := (msg.gas - used) * msg.gasPrice, used * msg.gasPrice;
    assert w.destructed == end.destructed;
    SumZero(w.balances, w.destructed);
    hide Balance, World.Credit;
    forall a
      ensures Balance(w.balances, a) ==
                Balance(end.balances, a) + (if a == msg.from then back else 0) + (if a == coinbase then fee else 0)
    {
      CreditedTwice(end, msg.from, back, coinbase, fee, a);
    }
  }

  /** The message destroys no ether. */
  ghost predicate Keeps(w: World, msg: Message, evm: Evm, rules: Rules)
    requires Sound(evm) && msg.Fee() <= Balance(w.balances, msg.from)
    requires MessageGas(msg, rules).Gas? && MessageGas(msg, rules).amount <= msg.gas
  {
    MachineGas(w, msg, evm, rules);
    && Burnt(w, msg, evm, rules) == 0
    && LeavesNothing(RunMachine(w, msg, evm, rules).world, msg, rules.coinbase, UsedGas(w, msg, evm, rules))
  }

  lemma UsedWithin(w: World, msg: Message, evm: Evm, rules: Rules)
    requires msg.Fee() <= Balance(w.balances, msg.from)
    requires MessageGas(msg, rules).Gas? && MessageGas(msg, rules).amount <= msg.gas
    requires RunMachine(w, msg, evm, rules).gas <= msg.gas
    ensures UsedGas(w, msg, evm, rules) <= msg.gas
  {
  }

  /** No transaction creates ether, and one conserves it exactly if the machine destroys none and leaves
      nothing on what it destructs, and no fee or refund goes there. */
  lemma ConservedExactly(w: World, msg: Message, evm: Evm, rules: Rules)
    requires Sound(evm) && msg.Fee() <= Balance(w.balances, msg.from)
    requires MessageGas(msg, rules).Gas? && MessageGas(msg, rules).amount <= msg.gas
    ensures WorldAfter(w, msg, evm, rules).Ether() <= w.Ether()
    ensures WorldAfter(w, msg, evm, rules).Ether() == w.Ether() <==> Keeps(w, msg, evm, rules)
  {
    hide TotalEther, Intrinsic, Message.Fee, Balance, World.Ether, World.Doomed, World.Finalised, Settled, LeavesNothing, Burnt, UsedGas;
    MachineGas(w, msg, evm, rules);
    var used := UsedGas(w, msg, evm, rules);
    var end := RunMachine(w, msg, evm, rules).world;
    UsedWithin(w, msg, evm, rules);
    SettledConserves(w, msg, evm, rules, used);
    FinalisedTotal(Settled(end, msg, rules.coinbase, used));
    DoomedAfter(end, msg, rules.coinbase, used);
  }

  // ----- All messages of a block -----

  /** What processing the messages one after the other comes to. */
  datatype BlockOutcome = Complete(world: World, pool: nat) | Broken(error: TxError)

  ghost function RunBlock(w: World, msgs: seq<Message>, pool: nat, evm: Evm, rules: Rules): BlockOutcome
    requires Sound(evm)
    decreases |msgs|
  {
    if |msgs| == 0 then Complete(w, pool)
    else
      var error := FirstError(w, msgs[0], rules, pool);
      if error.Some? then Broken(error.value)
      else
        MachineGas(w, msgs[0], evm, rules);
        RunBlock(WorldAfter(w, msgs[0], evm, rules), msgs[1..], pool - UsedGas(w, msgs[0], evm, rules), evm, rules)
  }

  /** Every message that is executed destroys no ether when its turn comes. */
  ghost predicate AllKeep(w: World, msgs: seq<Message>, pool: nat, evm: Evm, rules: Rules)
    requires Sound(evm)
    decreases |msgs|
  {
    if |msgs| == 0 || FirstError(w, msgs[0], rules, pool).Some? then true
    else
      MachineGas(w, msgs[0], evm, rules);
      && Keeps(w, msgs[0], evm, rules)
      && AllKeep(WorldAfter(w, msgs[0], evm, rules), msgs[1..], pool - UsedGas(w, msgs[0], evm, rules), evm, rules)
  }

  lemma RunBlockStep(w: World, msgs: seq<Message>, i: nat, pool: nat, evm: Evm, rules: Rules)
    requires Sound(evm) && i < |msgs|
    ensures var error := FirstError(w, msgs[i], rules, pool);
            if error.Some? then RunBlock(w, msgs[i..], pool, evm, rules) == Broken(error.value)
            else
              && msgs[i].Fee() <= Balance(w.balances, msgs[i].from) && MessageGas(msgs[i], rules).Gas?
              && MessageGas(msgs[i], rules).amount <= msgs[i].gas && RunMachine(w, msgs[i], evm, rules).gas <= msgs[i].gas <= pool
              && RunBlock(w, msgs[i..], pool, evm, rules) ==
                 RunBlock(WorldAfter(w, msgs[i], evm, rules), msgs[i + 1..], pool - UsedGas(w, msgs[i], evm, rules), evm, rules)
              && (AllKeep(w, msgs[i..], pool, evm, rules) <==>
                  && Keeps(w, msgs[i], evm, rules)
                  && AllKeep(WorldAfter(w, msgs[i], evm, rules), msgs[i + 1..], pool - UsedGas(w, msgs[i], evm, rules), evm, rules))
  {
    hide Intrinsic, Message.Fee, Balance, Settled, Sound, Keeps;
    assert msgs[i..][1..] == msgs[i + 1..];
    if FirstError(w, msgs[i], rules, pool).None? {
      MachineGas(w, msgs[i], evm, rules);
    }
  }

  lemma RunBlockDone(w: World, msgs: seq<Message>, pool: nat, evm: Evm, rules: Rules)
    requires Sound(evm)
    ensures RunBlock(w, msgs[|msgs|..], pool, evm, rules) == Complete(w, pool) && AllKeep(w, msgs[|msgs|..], pool, evm, rules)
  {
  }

  /** Executes a message and finalises the state. The refund counter starts over, and what destructed
      itself is gone with all it holds, so ether is conserved exactly under the condition of `Keeps`. */
  method ApplyTransaction(gp: GasPool, state: StateDb, msg: Message, evm: Evm, rules: Rules, usedGas: nat)
    returns (r: Outcome, total: nat)
    requires msg.Fits() && Sound(evm) && gp.gas + usedGas <= MAX_UINT64
    modifies gp, state
    ensures r.Executed? <==> Acceptable(old(state.world), msg, rules, old(gp.gas))
    ensures r.Executed? ==>
              && MessageGas(msg, rules).Gas? && MessageGas(msg, rules).amount <= 2 * r.usedGas && r.usedGas <= msg.gas
              && RunMachine(old(state.world), msg, evm, rules).gas <= msg.gas
              && r.usedGas == UsedGas(old(state.world), msg, evm, rules) && state.world == WorldAfter(old(state.world), msg, evm, rules)
              && total == usedGas + r.usedGas && gp.gas + total == old(gp.gas) + usedGas
              && state.world.refund == 0 && state.world.destructed == {}
              && state.world.Ether() <= old(state.world.Ether())
              && (state.world.Ether() == old(state.world.Ether()) <==> Keeps(old(state.world), msg, evm, rules))
    ensures r.Invalid? ==> FirstError(old(state.world), msg, rules, old(gp.gas)) == Some(r.error) && total == usedGas
    ensures r.Invalid? && !Buys(old(state.world), msg, old(gp.gas)) ==> gp.gas == old(gp.gas) && state.world == old(state.world)
    ensures r.Invalid? && Buys(old(state.world), msg, old(gp.gas)) ==>
              gp.gas == old(gp.gas) - msg.gas && state.world == old(state.world).Debit(msg.from, msg.Fee())
  {
    hide TotalEther, Intrinsic, World.Ether, Sound, Settled, FirstError, Message.Fee, Balance, UsedGas, World.Debit, Burnt, Keeps;
    var st := new StateTransition(gp, state, msg, evm, rules);
    r := st.TransitionDb();
    if r.Invalid? {
      return r, usedGas;
    }
    ConservedExactly(old(state.world), msg, evm, rules);
    state.world := state.world.Finalised();
    total := usedGas + r.usedGas;
  }

  /** Processes a block. `left` records the pool's gas after every transaction: together with the
      gas used so far it is always the block's limit, so neither of them can overflow. The block is
      rejected exactly if a message breaks a rule when its turn comes. Ether is conserved exactly if
      every message keeps it when its turn comes. */
  method Process(msgs: seq<Message>, gasLimit: nat, state: StateDb, evm: Evm, rules: Rules)
    returns (r: ProcessResult, gp: GasPool, ghost left: seq<nat>)
    requires gasLimit <= MAX_UINT64 && AllFit(msgs) && Sound(evm)
    modifies state
    ensures fresh(gp)
    ensures match RunBlock(old(state.world), msgs, gasLimit, evm, rules)
            case Complete(w, pool) => r.Processed? && state.world == w && gp.gas == pool
            case Broken(error) => r == Rejected(error)
    ensures r.Processed? ==>
              && |r.receipts| == |msgs| && Ledger(msgs, r.receipts, left, rules, gasLimit)
              && r.usedGas == TotalGas(r.receipts) && gp.gas + r.usedGas == gasLimit
              && (state.world.Ether() == old(state.world.Ether()) <==> AllKeep(old(state.world), msgs, gasLimit, evm, rules))
  {
    hide TotalEther, MessageGas, World.Ether, Sound, Acceptable, Ledger, FirstError, WorldAfter, UsedGas, RunMachine, RunBlock, Balance,
         Message.Fee, Buys, World.Debit, Keeps, AllKeep;
    gp := new GasPool();
    gp.AddGas(gasLimit);
    var receipts: seq<Receipt>, usedGas := [], 0;
    left := [];
    LedgerStart(msgs, rules, gasLimit);
    assert msgs[0..] == msgs;
    for i := 0 to |msgs|
      invariant |receipts| == i && Ledger(msgs, receipts, left, rules, gasLimit)
      invariant usedGas == TotalGas(receipts) && gp.gas + usedGas == gasLimit
      invariant state.world.Ether() <= old(state.world.Ether())
      invariant AllKeep(old(state.world), msgs, gasLimit, evm, rules) <==>
                  state.world.Ether() == old(state.world.Ether()) && AllKeep(state.world, msgs[i..], gp.gas, evm, rules)
      invariant RunBlock(state.world, msgs[i..], gp.gas, evm, rules) == RunBlock(old(state.world), msgs, gasLimit, evm, rules)
      invariant fresh(gp)
    {
      RunBlockStep(state.world, msgs, i, gp.gas, evm, rules);
      NoErrorMeansAcceptable(state.world, msgs[i], rules, gp.gas);
      var result, total := ApplyTransaction(gp, state, msgs[i], evm, rules, usedGas);
      if result.Invalid? {
        return Rejected(result.error), gp, left;
      }
      usedGas := total;
      var receipt := Receipt(result.failed, usedGas, result.usedGas);
      LedgerStep(msgs, receipts, left, rules, gasLimit, receipt, gp.gas);
      receipts := receipts + [receipt];
      left := left + [gp.gas];
    }
    RunBlockDone(state.world, msgs, gp.gas, evm, rules);
    return Processed(receipts, usedGas), gp, left;
  }

  /** A machine that runs the contract 2, which destructs itself in favour of account 3. */
  function Destructing(w: World, m: Message, gas: nat): EvmResult {
    EvmResult(w.SelfDestruct(2, 3), 0, false)
  }

  lemma DestructingIsSound()
    ensures Sound(Destructing)
  {
    forall w, m, g
      ensures Destructing(w, m, g).gas <= g && Destructing(w, m, g).world.Ether() <= w.Ether()
    {
      SelfDestructTotal(w, 2, 3);
    }
  }

  /** The contract of the miner destructs itself. The machine conserves ether, but the fee is paid to an
      account that is then deleted. */
  method CoinbaseExample() returns (state: StateDb, ghost before: World, r: Outcome)
    ensures r.Executed? && state.world.Ether() < before.Ether()
  {
    var w := World(map[1 := 21000, 2 := 5], map[], 0, {});
    before := w;
    state := new StateDb(w);
    var gp := new GasPool();
    gp.AddGas(21000);
    var msg := Message(1, false, 2, 1, 21000, 0, 0, true, []);
    DestructingIsSound();
    var total;
    r, total := ApplyTransaction(gp, state, msg, Destructing, Rules(true, true, 2), 0);
  }
}
