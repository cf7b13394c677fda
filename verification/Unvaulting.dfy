/** The Unvault transaction: one deposit in, the Unvault and CPFP outputs out, at a fixed feerate. */
module Unvaulting {
  import opened Wrappers
  import opened Sums
  import opened Bitcoin
  import opened TxOuts
  import opened Validation
  import opened Signing
  import opened Parsing
  import opened Creation

  function CreatePsbt(deposit: InternalTxIn, unvault: InternalTxOut, cpfp: InternalTxOut, lockTime: nat): Psbt {
    Psbt(
      Transaction(TX_VERSION, lockTime, [deposit.Unsigned()], [unvault.txout, cpfp.txout]),
      [VaultInput(deposit.txout, All)],
      [DerivedOutput(unvault.bip32Derivation), DerivedOutput(cpfp.bip32Derivation)])
  }

  function New(lib: Library, deposit: InternalTxIn, unvault: DerivedDescriptor, cpfp: DerivedDescriptor, lockTime: nat)
    : Outcome<Psbt, CreationError>
  {
    // A dummy transaction gives the weight without witness.
    var dummyTx := CreatePsbt(deposit, NewTxOut(lib, U64_MAX, unvault), NewTxOut(lib, U64_MAX, cpfp), lockTime).tx;
    match SignedWeight(lib, dummyTx, deposit.txout)
    case None => Panics
    case Some(totalWeight) =>
      var fees := UNVAULT_TX_FEERATE * totalWeight;
      if fees > U64_MAX then Panics
      else if fees > INSANE_FEES then Fails(InsaneFees)
      else if totalWeight > MAX_STANDARD_TX_WEIGHT then Panics
      else
        var depositValue := deposit.txout.txout.value;
        if fees + UNVAULT_CPFP_VALUE + DUST_LIMIT > depositValue then Fails(Dust)
        else
          var unvaultValue := depositValue - fees - UNVAULT_CPFP_VALUE;
          if unvaultValue > MAX_MONEY then Fails(CreationError.InsaneAmounts)
          else Done(CreatePsbt(deposit, NewTxOut(lib, unvaultValue, unvault),
                               NewTxOut(lib, UNVAULT_CPFP_VALUE, cpfp), lockTime))
  }

  function OutputPosition(outputs: seq<TxOut>, spk: Script): Option<nat> {
    if outputs == [] then None
    else if outputs[0].scriptPubkey == spk then Some(0)
    else match OutputPosition(outputs[1..], spk) case Some(k) => Some(k + 1) case None => None
  }

  /** The reference to the Unvault output to be used in a spending transaction. */
  function UnvaultTxin(lib: Library, psbt: Psbt, unvault: DerivedDescriptor, sequence: nat)
    : Outcome<InternalTxIn, CreationError>
  {
    match OutputPosition(psbt.tx.output, P2wshScript(lib, unvault.script))
    case None => Panics
    case Some(index) =>
      if index >= |psbt.tx.output| then Panics
      else Done(InternalTxIn(OutPoint((lib.txid)(psbt.tx), index),
                             NewTxOut(lib, psbt.tx.output[index].value, unvault), sequence))
  }

  function SpendUnvaultTxin(lib: Library, psbt: Psbt, unvault: DerivedDescriptor)
    : Outcome<InternalTxIn, CreationError>
  {
    UnvaultTxin(lib, psbt, unvault, unvault.csv)
  }

  function RevaultUnvaultTxin(lib: Library, psbt: Psbt, unvault: DerivedDescriptor)
    : Outcome<InternalTxIn, CreationError>
  {
    UnvaultTxin(lib, psbt, unvault, RBF_SEQUENCE)
  }

  /** Value is conserved, and the fee is 6 sats for every weight unit of the very transaction returned, although it
      was computed on a dummy with the largest amounts. */
  lemma NewConserves(lib: Library, deposit: InternalTxIn, unvault: DerivedDescriptor, cpfp: DerivedDescriptor,
                     lockTime: nat)
    requires New(lib, deposit, unvault, cpfp, lockTime).Done?
    ensures var psbt := New(lib, deposit, unvault, cpfp, lockTime).value;
            var w := UnvaultMaxWeight(lib, psbt);
            && w.Some? && w.value <= MAX_STANDARD_TX_WEIGHT
            && |psbt.tx.output| == 2
            && deposit.txout.txout.value == psbt.tx.output[0].value + UNVAULT_CPFP_VALUE + UNVAULT_TX_FEERATE * w.value
            && psbt.tx.output[1].value == UNVAULT_CPFP_VALUE
            && DUST_LIMIT <= psbt.tx.output[0].value <= MAX_MONEY
            && Fees(psbt) == Some(UNVAULT_TX_FEERATE * w.value)
            && UNVAULT_TX_FEERATE * w.value <= INSANE_FEES
  {
    var psbt := New(lib, deposit, unvault, cpfp, lockTime).value;
    var dummyTx := CreatePsbt(deposit, NewTxOut(lib, U64_MAX, unvault), NewTxOut(lib, U64_MAX, cpfp), lockTime).tx;
    WeightIgnoresValues(dummyTx, psbt.tx);
    SingleSum(SpentValue, psbt.inputs[0]);
    PairSum(TxOutValue, psbt.tx.output[0], psbt.tx.output[1]);
  }

  /** The Unvault spends the deposit it was given and nothing else, and pays to the Unvault and then to the CPFP
      descriptor. */
  lemma NewIs(lib: Library, deposit: InternalTxIn, unvault: DerivedDescriptor, cpfp: DerivedDescriptor, lockTime: nat)
    requires New(lib, deposit, unvault, cpfp, lockTime).Done?
    ensures var psbt := New(lib, deposit, unvault, cpfp, lockTime).value;
            && psbt.tx.version == 2 && psbt.tx.lockTime == lockTime
            && |psbt.tx.input| == |psbt.inputs| == 1
            && SpendsCoin(psbt.tx.input[0], psbt.inputs[0], deposit, All)
            && |psbt.tx.output| == |psbt.outputs| == 2
            && PaysTo(lib, psbt.tx.output[0], psbt.outputs[0], unvault)
            && PaysTo(lib, psbt.tx.output[1], psbt.outputs[1], cpfp)
            && psbt.tx.output[1].value == 30_000
  {
    DerivationsAreSources(unvault.keys);
    DerivationsAreSources(cpfp.keys);
  }

  /** The weight without witness is 548, for any scripts and amounts. */
  lemma StrippedWeight(lib: Library, deposit: InternalTxIn, unvault: DerivedDescriptor, u: u64,
                       cpfp: DerivedDescriptor, c: u64, lockTime: nat)
    ensures Weight(CreatePsbt(deposit, NewTxOut(lib, u, unvault), NewTxOut(lib, c, cpfp), lockTime).tx) == 548
  {
    PairSum(TxOutSize, NewTxOut(lib, u, unvault).txout, NewTxOut(lib, c, cpfp).txout);
  }

  /** The outcome for any deposit: exactly when an Unvault is built and with which output, when each error is reported,
      and when an `assert!` or `expect` fires. */
  lemma NewThreshold(lib: Library, deposit: InternalTxIn, unvault: DerivedDescriptor, cpfp: DerivedDescriptor,
                     lockTime: nat)
    requires ValidTxOut(lib, deposit.txout)
    ensures var w, value := 548 + MaxSatWeight(lib, deposit.txout).value, deposit.txout.txout.value;
            var r := New(lib, deposit, unvault, cpfp, lockTime);
            && (r.Done? <==> w <= 400_000 && 6 * w + 230_000 <= value <= 2_100_000_000_000_000 + 6 * w + 30_000)
            && (r.Done? ==> r.value.tx.output != [] && r.value.tx.output[0].value == value - 6 * w - 30_000)
            && (r.Panics? <==> (400_000 < w && 6 * w <= 20_000_000) || 6 * w > 0xffff_ffff_ffff_ffff)
            && (r == Fails(InsaneFees) <==> 20_000_000 < 6 * w <= 0xffff_ffff_ffff_ffff)
            && (r == Fails(Dust) <==> w <= 400_000 && value < 6 * w + 230_000)
            && (r == Fails(CreationError.InsaneAmounts) <==>
                w <= 400_000 && value > 2_100_000_000_000_000 + 6 * w + 30_000)
  {
    StrippedWeight(lib, deposit, unvault, U64_MAX, cpfp, U64_MAX, lockTime);
  }

  /** The first output that pays to the script. */
  lemma {:induction false} OutputPositionFinds(outputs: seq<TxOut>, spk: Script, k: nat)
    requires k < |outputs| && outputs[k].scriptPubkey == spk
    requires forall j | 0 <= j < k :: outputs[j].scriptPubkey != spk
    ensures OutputPosition(outputs, spk) == Some(k)
  {
    if k > 0 {
      OutputPositionFinds(outputs[1..], spk, k - 1);
    }
  }

  lemma {:induction false} OutputPositionMisses(outputs: seq<TxOut>, spk: Script)
    requires forall k | 0 <= k < |outputs| :: outputs[k].scriptPubkey != spk
    ensures OutputPosition(outputs, spk) == None
  {
    if outputs != [] {
      OutputPositionMisses(outputs[1..], spk);
    }
  }

  /** A Spend waits for the timelock of the descriptor; a revocation does not, and can be replaced. */
  lemma TxinSequences(lib: Library, psbt: Psbt, unvault: DerivedDescriptor)
    requires SpendUnvaultTxin(lib, psbt, unvault).Done? || RevaultUnvaultTxin(lib, psbt, unvault).Done?
    ensures SpendUnvaultTxin(lib, psbt, unvault).Done? && RevaultUnvaultTxin(lib, psbt, unvault).Done?
    ensures var spend := SpendUnvaultTxin(lib, psbt, unvault).value;
            var revault := RevaultUnvaultTxin(lib, psbt, unvault).value;
            spend.sequence == unvault.csv && revault == spend.(sequence := 0xffff_fffd)
  {
  }

  lemma NewHasInv(lib: Library, deposit: InternalTxIn, unvault: DerivedDescriptor, cpfp: DerivedDescriptor,
                  lockTime: nat)
    requires ValidTxOut(lib, deposit.txout) && New(lib, deposit, unvault, cpfp, lockTime).Done?
    ensures Inv(lib, Unvault, New(lib, deposit, unvault, cpfp, lockTime).value)
  {
    VaultInputIsGood(lib, deposit.txout, All);
  }

  lemma NewIsSane(lib: Library, deposit: InternalTxIn, unvault: DerivedDescriptor, cpfp: DerivedDescriptor,
                  lockTime: nat)
    requires ValidTxOut(lib, deposit.txout)
    requires New(lib, deposit, unvault, cpfp, lockTime).Done?
    ensures var psbt := New(lib, deposit, unvault, cpfp, lockTime).value;
            && |psbt.inputs| == 1 && psbt.inputs[0] == VaultInput(deposit.txout, All)
            && (forall o | o in psbt.tx.output :: SaneOutput(o))
            && SaneBalance(psbt)
            && (Sane(lib, psbt) <==> deposit.txout.txout.value <= MAX_MONEY)
  {
    var psbt := New(lib, deposit, unvault, cpfp, lockTime).value;
    NewConserves(lib, deposit, unvault, cpfp, lockTime);
    VaultInputIsGood(lib, deposit.txout, All);
    P2wshShape(lib, unvault.script);
    P2wshShape(lib, cpfp.script);
    SingleSum(SpentValue, psbt.inputs[0]);
    PairSum(TxOutValue, psbt.tx.output[0], psbt.tx.output[1]);
    assert psbt.inputs[0] in psbt.inputs;
  }

  lemma NewOutputs(lib: Library, deposit: InternalTxIn, unvault: DerivedDescriptor, cpfp: DerivedDescriptor,
                   lockTime: nat)
    requires ValidDescriptor(lib, unvault) && ValidDescriptor(lib, cpfp)
    requires New(lib, deposit, unvault, cpfp, lockTime).Done?
    ensures var psbt := New(lib, deposit, unvault, cpfp, lockTime).value;
            |psbt.tx.output| == |psbt.outputs| == 2 && KindOutputs(Unvault, psbt)
  {
    var outputs := New(lib, deposit, unvault, cpfp, lockTime).value.outputs;
    assert outputs[0].bip32Derivation == DerivationMap(unvault.keys);
    assert outputs[1].bip32Derivation == DerivationMap(cpfp.keys);
  }

  /** Constructor and parser agree on everything but one amount: a constructed Unvault parses exactly when its
      deposit was at most 21 million bitcoins, and then so does every PSBT it becomes. */
  lemma NewParses(lib: Library, deposit: InternalTxIn, unvault: DerivedDescriptor, cpfp: DerivedDescriptor,
                  lockTime: nat, events: seq<Event>)
    requires ValidTxOut(lib, deposit.txout) && ValidDescriptor(lib, unvault) && ValidDescriptor(lib, cpfp)
    requires New(lib, deposit, unvault, cpfp, lockTime).Done?
    ensures var psbt := New(lib, deposit, unvault, cpfp, lockTime).value;
            && (Parses(lib, Unvault, psbt) <==> deposit.txout.txout.value <= MAX_MONEY)
            && (deposit.txout.txout.value <= MAX_MONEY ==> Parses(lib, Unvault, Run(lib, psbt, events)))
  {
    var psbt := New(lib, deposit, unvault, cpfp, lockTime).value;
    NewIsSane(lib, deposit, unvault, cpfp, lockTime);
    VaultInputIsGood(lib, deposit.txout, All);
    NewOutputs(lib, deposit, unvault, cpfp, lockTime);
    ParsesSurvives(lib, Unvault, psbt, events);
  }

  /** A deposit of one sat too many: the Unvault is built, and does not parse. */
  lemma OversizedDeposit(lib: Library, outpoint: OutPoint, d: DerivedDescriptor, unvault: DerivedDescriptor,
                         cpfp: DerivedDescriptor, lockTime: nat)
    requires ValidDescriptor(lib, d) && ValidDescriptor(lib, unvault) && ValidDescriptor(lib, cpfp)
    requires 548 + lib.satWeight(d.script).value <= MAX_STANDARD_TX_WEIGHT
    ensures var deposit := InternalTxIn(outpoint, NewTxOut(lib, MAX_MONEY + 1, d), RBF_SEQUENCE);
            var r := New(lib, deposit, unvault, cpfp, lockTime);
            r.Done? && !Parses(lib, Unvault, r.value)
  {
    var deposit := InternalTxIn(outpoint, NewTxOut(lib, MAX_MONEY + 1, d), RBF_SEQUENCE);
    NewTxOutIsValid(lib, MAX_MONEY + 1, d);
    NewThreshold(lib, deposit, unvault, cpfp, lockTime);
    NewParses(lib, deposit, unvault, cpfp, lockTime, []);
  }

  /** The reference to the Unvault output always points at output 0 and carries its amount. */
  lemma TxinIsUnvaultOutput(lib: Library, deposit: InternalTxIn, unvault: DerivedDescriptor,
                            cpfp: DerivedDescriptor, lockTime: nat, sequence: nat)
    requires New(lib, deposit, unvault, cpfp, lockTime).Done?
    ensures var psbt := New(lib, deposit, unvault, cpfp, lockTime).value;
            UnvaultTxin(lib, psbt, unvault, sequence) ==
            Done(InternalTxIn(OutPoint((lib.txid)(psbt.tx), 0), NewTxOut(lib, psbt.tx.output[0].value, unvault),
                              sequence))
  {
  }
}
