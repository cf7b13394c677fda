/** Round after round: a deposit is unvaulted, the spend is cancelled, and the new deposit is unvaulted again. */
module Cycles {
  import opened Wrappers
  import opened Bitcoin
  import opened TxOuts
  import opened Parsing
  import opened Creation
  import opened Revocation
  import opened Chain

  /** The reference to the deposit output of a Cancel. */
  function DepositOf(lib: Library, cancel: Psbt, deposit: DerivedDescriptor): InternalTxIn
    requires cancel.tx.output != []
  {
    InternalTxIn(OutPoint((lib.txid)(cancel.tx), 0), NewTxOut(lib, cancel.tx.output[0].value, deposit), RBF_SEQUENCE)
  }

  /** The Unvault of a deposit and its Cancel. */
  function CycleTxs(lib: Library, v: Vault, index: nat, coin: InternalTxIn, lockTime: nat)
    : Outcome<ManagerChain, CreationError>
  {
    var unvaultTx :- Unvaulting.New(lib, coin, Derive(lib, v.unvault, index), Derive(lib, v.cpfp, index), lockTime);
    var cancelTx :- RevaultOf(lib, unvaultTx, v, index, CancelTo(Derive(lib, v.deposit, index)), lockTime);
    Done(ManagerChain(unvaultTx, cancelTx))
  }

  /** One deposit is unvaulted and revaulted. */
  function Cycle(lib: Library, v: Vault, index: nat, coin: InternalTxIn, lockTime: nat)
    : Outcome<InternalTxIn, CreationError>
  {
    var txs :- CycleTxs(lib, v, index, coin, lockTime);
    if txs.cancel.tx.output == [] then Panics else Done(DepositOf(lib, txs.cancel, Derive(lib, v.deposit, index)))
  }

  function Iterate<T, E>(step: T -> Outcome<T, E>, x: T, n: nat): Outcome<T, E> {
    if n == 0 then Done(x) else
    var next :- step(x);
    Iterate(step, next, n - 1)
  }

  function Cycles(lib: Library, v: Vault, index: nat, coin: InternalTxIn, lockTime: nat, n: nat)
    : Outcome<InternalTxIn, CreationError>
  {
    Iterate(Round(lib, v, index, lockTime), coin, n)
  }

  function Round(lib: Library, v: Vault, index: nat, lockTime: nat)
    : InternalTxIn -> Outcome<InternalTxIn, CreationError>
  {
    (coin: InternalTxIn) => Cycle(lib, v, index, coin, lockTime)
  }

  /** The weights of the signed Unvault and of the signed Cancel. */
  function UnvaultWeight(lib: Library, v: Vault, index: nat): nat
    requires lib.satWeight(Derive(lib, v.deposit, index).script).Some?
  {
    548 + (lib.satWeight)(Derive(lib, v.deposit, index).script).value
  }

  function CancelWeight(lib: Library, v: Vault, index: nat): nat { RevaultWeight(lib, Derive(lib, v.unvault, index)) }

  /** What leaves the vault in each round: two fees and the CPFP output. */
  function RoundCost(lib: Library, v: Vault, index: nat): nat
    requires lib.satWeight(Derive(lib, v.deposit, index).script).Some?
  {
    UNVAULT_TX_FEERATE * UnvaultWeight(lib, v, index) + UNVAULT_CPFP_VALUE
    + CANCEL_TX_FEERATE * CancelWeight(lib, v, index)
  }

  /** What one more round asks of a deposit: the dust limit, or the Cancel's fee if that is more, must be left. */
  function RoundNeed(lib: Library, v: Vault, index: nat): nat
    requires lib.satWeight(Derive(lib, v.deposit, index).script).Some?
  {
    var cancelFees := CANCEL_TX_FEERATE * CancelWeight(lib, v, index);
    UNVAULT_TX_FEERATE * UnvaultWeight(lib, v, index) + UNVAULT_CPFP_VALUE
    + (if cancelFees > DUST_LIMIT then cancelFees else DUST_LIMIT)
  }

  predicate StandardWeights(lib: Library, v: Vault, index: nat)
    requires lib.satWeight(Derive(lib, v.deposit, index).script).Some?
  {
    UnvaultWeight(lib, v, index) <= MAX_STANDARD_TX_WEIGHT && CancelWeight(lib, v, index) <= MAX_STANDARD_TX_WEIGHT
  }

  /** A coin locked to the deposit descriptor. */
  predicate IsDeposit(lib: Library, v: Vault, index: nat, coin: InternalTxIn) {
    && coin.txout == NewTxOut(lib, coin.txout.txout.value, Derive(lib, v.deposit, index))
    && coin.txout.txout.value <= MAX_MONEY
  }

  /** The deposit reference to a Cancel carries the script and amount of its output. */
  lemma CancelOutput(lib: Library, txin: InternalTxIn, deposit: DerivedDescriptor, lockTime: nat)
    requires NewCancel(lib, txin, None, deposit, lockTime).Done?
    ensures var cancelTx := NewCancel(lib, txin, None, deposit, lockTime).value;
            cancelTx.tx.output != [] && DepositOf(lib, cancelTx, deposit).txout.txout == cancelTx.tx.output[0]
  {
  }

  /** The weight of the Cancel depends on the Unvault descriptor alone. */
  lemma CancelWeighs(lib: Library, v: Vault, index: nat, txin: InternalTxIn)
    requires ValidVault(lib, v, index)
    requires txin.txout == NewTxOut(lib, txin.txout.txout.value, Derive(lib, v.unvault, index))
    ensures ValidTxOut(lib, txin.txout)
    ensures 376 + lib.satWeight(txin.txout.witnessScript).value == CancelWeight(lib, v, index)
  {
    NewTxOutIsValid(lib, txin.txout.txout.value, Derive(lib, v.unvault, index));
  }

  /** What a Cancel of a valid coin leaves. */
  lemma CancelAmount(lib: Library, deposit: DerivedDescriptor, txin: InternalTxIn, w: nat, lockTime: nat)
    requires ValidDescriptor(lib, deposit) && ValidTxOut(lib, txin.txout) && txin.txout.txout.value <= MAX_MONEY
    requires w == 376 + lib.satWeight(txin.txout.witnessScript).value
    ensures var r := CancelTo(deposit).New(lib, txin, None, lockTime);
            && (r.Done? <==> WithinBounds(CANCEL_TX_FEERATE, w, txin.txout.txout.value))
            && (r.Done? ==>
                r.value.tx.output != [] && r.value.tx.output[0].value == txin.txout.txout.value - CANCEL_TX_FEERATE * w)
  {
    var t := CancelTo(deposit);
    assert t.Feerate() == CANCEL_TX_FEERATE;
    CoinThreshold(lib, t, txin, None, lockTime);
    if t.New(lib, txin, None, lockTime).Done? {
      DustyOutput(lib, t, txin, lockTime);
    }
  }

  lemma CancelLeaves(lib: Library, v: Vault, index: nat, txin: InternalTxIn, lockTime: nat)
    requires ValidVault(lib, v, index) && txin.txout.txout.value <= MAX_MONEY
    requires txin.txout == NewTxOut(lib, txin.txout.txout.value, Derive(lib, v.unvault, index))
    ensures var r := CancelTo(Derive(lib, v.deposit, index)).New(lib, txin, None, lockTime);
            && (r.Done? <==> WithinBounds(CANCEL_TX_FEERATE, CancelWeight(lib, v, index), txin.txout.txout.value))
            && (r.Done? ==>
                && r.value.tx.output != []
                && r.value.tx.output[0].value ==
                   txin.txout.txout.value - CANCEL_TX_FEERATE * CancelWeight(lib, v, index))
  {
    CancelWeighs(lib, v, index, txin);
    CancelAmount(lib, Derive(lib, v.deposit, index), txin, CancelWeight(lib, v, index), lockTime);
  }

  /** The Unvault half of a round. */
  lemma UnvaultLeaves(lib: Library, v: Vault, index: nat, coin: InternalTxIn, lockTime: nat)
    returns (txin: InternalTxIn)
    requires ValidVault(lib, v, index) && IsDeposit(lib, v, index, coin)
    ensures var unvault := Derive(lib, v.unvault, index);
            var r := Unvaulting.New(lib, coin, unvault, Derive(lib, v.cpfp, index), lockTime);
            && (r.Done? <==> UnvaultBounds(UnvaultWeight(lib, v, index), coin.txout.txout.value))
            && (r.Done? ==>
                && Unvaulting.RevaultUnvaultTxin(lib, r.value, unvault) == Done(txin)
                && txin.txout == NewTxOut(lib, txin.txout.txout.value, unvault)
                && txin.txout.txout.value ==
                   coin.txout.txout.value - UNVAULT_TX_FEERATE * UnvaultWeight(lib, v, index) - UNVAULT_CPFP_VALUE)
  {
    var unvault, cpfp := Derive(lib, v.unvault, index), Derive(lib, v.cpfp, index);
    NewTxOutIsValid(lib, coin.txout.txout.value, Derive(lib, v.deposit, index));
    Unvaulting.NewThreshold(lib, coin, unvault, cpfp, lockTime);
    txin := coin;
    if Unvaulting.New(lib, coin, unvault, cpfp, lockTime).Done? {
      Unvaulting.TxinIsUnvaultOutput(lib, coin, unvault, cpfp, lockTime, RBF_SEQUENCE);
      txin := Unvaulting.RevaultUnvaultTxin(lib, Unvaulting.New(lib, coin, unvault, cpfp, lockTime).value,
                                            unvault).value;
    }
  }

  /** A round is an Unvault and then a Cancel of the coin it offers. */
  lemma CycleSteps(lib: Library, v: Vault, index: nat, coin: InternalTxIn, txin: InternalTxIn, lockTime: nat)
    requires var r := Unvaulting.New(lib, coin, Derive(lib, v.unvault, index), Derive(lib, v.cpfp, index), lockTime);
             r.Done? ==> Unvaulting.RevaultUnvaultTxin(lib, r.value, Derive(lib, v.unvault, index)) == Done(txin)
    ensures var deposit := Derive(lib, v.deposit, index);
            var r := Unvaulting.New(lib, coin, Derive(lib, v.unvault, index), Derive(lib, v.cpfp, index), lockTime);
            var txs := CycleTxs(lib, v, index, coin, lockTime);
            && (txs.Done? <==> r.Done? && CancelTo(deposit).New(lib, txin, None, lockTime).Done?)
            && (txs.Done? ==> CancelTo(deposit).New(lib, txin, None, lockTime) == Done(txs.value.cancel))
  {
  }

  lemma RoundBounds(lib: Library, v: Vault, index: nat, value: u64)
    requires lib.satWeight(Derive(lib, v.deposit, index).script).Some? && value <= MAX_MONEY
    ensures var w, c := UnvaultWeight(lib, v, index), CancelWeight(lib, v, index);
            UnvaultBounds(w, value)
            && WithinBounds(CANCEL_TX_FEERATE, c, value - UNVAULT_TX_FEERATE * w - UNVAULT_CPFP_VALUE)
            <==> StandardWeights(lib, v, index) && RoundNeed(lib, v, index) <= value
  {
  }

  /** One round succeeds exactly when the deposit covers its need, and costs exactly the round cost. What it returns is
      the output of its Cancel. */
  lemma CycleThreshold(lib: Library, v: Vault, index: nat, coin: InternalTxIn, lockTime: nat)
    requires ValidVault(lib, v, index) && IsDeposit(lib, v, index, coin)
    ensures var r := Cycle(lib, v, index, coin, lockTime);
            && (r.Done? <==> StandardWeights(lib, v, index) && RoundNeed(lib, v, index) <= coin.txout.txout.value)
            && (r.Done? ==>
                && IsDeposit(lib, v, index, r.value)
                && coin.txout.txout.value == r.value.txout.txout.value + RoundCost(lib, v, index))
    ensures var r, txs := Cycle(lib, v, index, coin, lockTime), CycleTxs(lib, v, index, coin, lockTime);
            r.Done? ==>
              && txs.Done? && txs.value.cancel.tx.output != []
              && r.value.outpoint == OutPoint((lib.txid)(txs.value.cancel.tx), 0)
              && r.value.txout.txout == txs.value.cancel.tx.output[0]
  {
    CycleIs(lib, v, index, coin, lockTime);
    TxsThreshold(lib, v, index, coin, lockTime);
    RoundBounds(lib, v, index, coin.txout.txout.value);
  }

  /** What a round returns is output 0 of its Cancel. */
  lemma CycleIs(lib: Library, v: Vault, index: nat, coin: InternalTxIn, lockTime: nat)
    ensures var r, txs := Cycle(lib, v, index, coin, lockTime), CycleTxs(lib, v, index, coin, lockTime);
            && (r.Done? <==> txs.Done?)
            && (r.Done? ==>
                && txs.value.cancel.tx.output != []
                && r.value == DepositOf(lib, txs.value.cancel, Derive(lib, v.deposit, index))
                && r.value.txout.txout == txs.value.cancel.tx.output[0])
  {
    var txs := CycleTxs(lib, v, index, coin, lockTime);
    if txs.Done? {
      RevaultPays(lib, txs.value.unvault, v, index, lockTime);
    }
  }

  lemma RevaultPays(lib: Library, unvaultTx: Psbt, v: Vault, index: nat, lockTime: nat)
    requires RevaultOf(lib, unvaultTx, v, index, CancelTo(Derive(lib, v.deposit, index)), lockTime).Done?
    ensures var deposit := Derive(lib, v.deposit, index);
            var cancelTx := RevaultOf(lib, unvaultTx, v, index, CancelTo(deposit), lockTime).value;
            cancelTx.tx.output != [] && DepositOf(lib, cancelTx, deposit).txout.txout == cancelTx.tx.output[0]
  {
    var txin := Unvaulting.RevaultUnvaultTxin(lib, unvaultTx, Derive(lib, v.unvault, index)).value;
    CancelOutput(lib, txin, Derive(lib, v.deposit, index), lockTime);
  }

  /** When the two transactions are built, and what the Cancel leaves. */
  lemma TxsThreshold(lib: Library, v: Vault, index: nat, coin: InternalTxIn, lockTime: nat)
    requires ValidVault(lib, v, index) && IsDeposit(lib, v, index, coin)
    ensures var txs := CycleTxs(lib, v, index, coin, lockTime);
            var value, w, c := coin.txout.txout.value, UnvaultWeight(lib, v, index), CancelWeight(lib, v, index);
            var left := value - UNVAULT_TX_FEERATE * w - UNVAULT_CPFP_VALUE;
            && (txs.Done? <==> UnvaultBounds(w, value) && WithinBounds(CANCEL_TX_FEERATE, c, left))
            && (txs.Done? ==>
                && txs.value.cancel.tx.output != []
                && txs.value.cancel.tx.output[0].value == left - CANCEL_TX_FEERATE * c)
  {
    var txin := UnvaultLeaves(lib, v, index, coin, lockTime);
    CycleSteps(lib, v, index, coin, txin, lockTime);
    if UnvaultBounds(UnvaultWeight(lib, v, index), coin.txout.txout.value) {
      CancelLeaves(lib, v, index, txin, lockTime);
    }
  }

  /** Any step that needs `need` and costs `cost` can be taken `n` times on `n - 1` costs and one need. */
  lemma {:induction false} Iterations<T, E>(
    step: T -> Outcome<T, E>, isCoin: T -> bool, worth: T -> nat, standard: bool, need: nat, cost: nat, x: T, n: nat)
    requires isCoin(x)
    requires forall c | isCoin(c) :: step(c).Done? <==> standard && need <= worth(c)
    requires forall c | isCoin(c) && step(c).Done? :: isCoin(step(c).value) && worth(c) == worth(step(c).value) + cost
    ensures var r := Iterate(step, x, n);
            && (r.Done? <==> n == 0 || (standard && (n - 1) * cost + need <= worth(x)))
            && (r.Done? ==> isCoin(r.value) && worth(x) == worth(r.value) + n * cost)
  {
    if n > 0 {
      Rounds(n, cost);
      if step(x).Done? {
        Iterations(step, isCoin, worth, standard, need, cost, step(x).value, n - 1);
      }
    }
  }

  lemma Rounds(n: nat, cost: nat)
    requires n > 0
    ensures n * cost == cost + (n - 1) * cost && (n - 1) * cost >= 0
    ensures n > 1 ==> (n - 1) * cost == cost + (n - 2) * cost
  {
  }

  /** A deposit can be unvaulted and revaulted `n` times exactly when it is worth `n - 1` round costs and one round
      need; nothing else is lost on the way, and what comes back is a deposit again. */
  lemma CyclesThreshold(lib: Library, v: Vault, index: nat, coin: InternalTxIn, lockTime: nat, n: nat)
    requires ValidVault(lib, v, index) && IsDeposit(lib, v, index, coin)
    ensures var r := Cycles(lib, v, index, coin, lockTime, n);
            && (r.Done? <==>
                n == 0 || (&& StandardWeights(lib, v, index)
                           && (n - 1) * RoundCost(lib, v, index) + RoundNeed(lib, v, index) <= coin.txout.txout.value))
            && (r.Done? ==>
                && IsDeposit(lib, v, index, r.value)
                && coin.txout.txout.value == r.value.txout.txout.value + n * RoundCost(lib, v, index))
  {
    var step := Round(lib, v, index, lockTime);
    var isCoin := (c: InternalTxIn) => IsDeposit(lib, v, index, c);
    var standard, need, cost := StandardWeights(lib, v, index), RoundNeed(lib, v, index), RoundCost(lib, v, index);
    forall c | isCoin(c)
      ensures step(c).Done? <==> standard && need <= TxinValue(c)
      ensures step(c).Done? ==> isCoin(step(c).value) && TxinValue(c) == TxinValue(step(c).value) + cost
    {
      CycleThreshold(lib, v, index, c, lockTime);
    }
    Iterations(step, isCoin, TxinValue, standard, need, cost, coin, n);
  }
}
