/** The chain of pre-signed transactions built from one deposit. */
module Chain {
  import opened Wrappers
  import opened Sums
  import opened Bitcoin
  import opened TxOuts
  import opened Validation
  import opened Parsing
  import opened Creation
  import Unvaulting
  import opened Revocation

  datatype Vault = Vault(deposit: Descriptor, unvault: Descriptor, cpfp: Descriptor)

  datatype ManagerChain = ManagerChain(unvault: Psbt, cancel: Psbt)
  datatype FullChain = FullChain(unvault: Psbt, cancel: Psbt, emergency: Psbt, unvaultEmergency: Psbt)

  function DepositTxin(lib: Library, v: Vault, outpoint: OutPoint, amount: u64, index: nat): InternalTxIn {
    InternalTxIn(outpoint, NewTxOut(lib, amount, Derive(lib, v.deposit, index)), RBF_SEQUENCE)
  }

  function NewUnvault(lib: Library, v: Vault, outpoint: OutPoint, amount: u64, index: nat, lockTime: nat)
    : Outcome<Psbt, CreationError>
  {
    Unvaulting.New(lib, DepositTxin(lib, v, outpoint, amount, index), Derive(lib, v.unvault, index),
                   Derive(lib, v.cpfp, index), lockTime)
  }

  /** A Cancel or UnvaultEmergency of the Unvault output, without a fee-bump. */
  function RevaultOf(lib: Library, unvaultTx: Psbt, v: Vault, index: nat, t: Target, lockTime: nat)
    : Outcome<Psbt, CreationError>
  {
    var txin :- Unvaulting.RevaultUnvaultTxin(lib, unvaultTx, Derive(lib, v.unvault, index));
    t.New(lib, txin, None, lockTime)
  }

  function TransactionChainManager(lib: Library, outpoint: OutPoint, amount: u64, v: Vault, index: nat, lockTime: nat)
    : Outcome<ManagerChain, CreationError>
  {
    var unvaultTx :- NewUnvault(lib, v, outpoint, amount, index, lockTime);
    var cancelTx :- RevaultOf(lib, unvaultTx, v, index, CancelTo(Derive(lib, v.deposit, index)), lockTime);
    Done(ManagerChain(unvaultTx, cancelTx))
  }

  function TransactionChain(lib: Library, outpoint: OutPoint, amount: u64, v: Vault, index: nat, emergency: Script,
                            lockTime: nat)
    : Outcome<FullChain, CreationError>
  {
    var managers :- TransactionChainManager(lib, outpoint, amount, v, index, lockTime);
    var emergencyTx :- NewEmergency(lib, DepositTxin(lib, v, outpoint, amount, index), None, emergency, lockTime);
    var unvaultEmergencyTx :- RevaultOf(lib, managers.unvault, v, index, UnvaultEmergencyTo(emergency), lockTime);
    Done(FullChain(managers.unvault, managers.cancel, emergencyTx, unvaultEmergencyTx))
  }

  ghost predicate ValidVault(lib: Library, v: Vault, index: nat) {
    && ValidDescriptor(lib, Derive(lib, v.deposit, index))
    && ValidDescriptor(lib, Derive(lib, v.unvault, index))
    && ValidDescriptor(lib, Derive(lib, v.cpfp, index))
  }

  /** The coin a transaction spends is output 0 of `parent`. */
  ghost predicate SpendsOutputZero(lib: Library, child: Psbt, parent: Psbt) {
    && child.inputs != [] && child.tx.input != [] && parent.tx.output != []
    && child.tx.input[0].previousOutput == OutPoint((lib.txid)(parent.tx), 0)
    && child.inputs[0].witnessUtxo == Some(parent.tx.output[0])
  }

  // ----- conservation

  /** Not a sat is lost along the chain: each amount is the next one plus the fixed feerate times the signed weight
      of the transaction returned in between. */
  lemma ChainConserves(lib: Library, outpoint: OutPoint, amount: u64, v: Vault, index: nat, emergency: Script,
                       lockTime: nat)
    requires TransactionChain(lib, outpoint, amount, v, index, emergency, lockTime).Done?
    ensures var c := TransactionChain(lib, outpoint, amount, v, index, emergency, lockTime).value;
            && |c.unvault.tx.output| == 2
            && |c.cancel.tx.output| == |c.emergency.tx.output| == |c.unvaultEmergency.tx.output| == 1
            && SpendsOutputZero(lib, c.cancel, c.unvault) && SpendsOutputZero(lib, c.unvaultEmergency, c.unvault)
            && amount == c.unvault.tx.output[0].value + 30_000 + 6 * FullWeight(lib, c.unvault)
            && amount == c.emergency.tx.output[0].value + 75 * FullWeight(lib, c.emergency)
            && c.unvault.tx.output[0].value == c.cancel.tx.output[0].value + 22 * FullWeight(lib, c.cancel)
            && c.unvault.tx.output[0].value ==
               c.unvaultEmergency.tx.output[0].value + 75 * FullWeight(lib, c.unvaultEmergency)
            && Fees(c.unvault) == Some(6 * FullWeight(lib, c.unvault))
            && Fees(c.cancel) == Some(22 * FullWeight(lib, c.cancel))
            && Fees(c.emergency) == Some(75 * FullWeight(lib, c.emergency))
            && Fees(c.unvaultEmergency) == Some(75 * FullWeight(lib, c.unvaultEmergency))
  {
    var c := TransactionChain(lib, outpoint, amount, v, index, emergency, lockTime).value;
    var txin := ChainParts(lib, outpoint, amount, v, index, emergency, lockTime);
    UnvaultConserves(lib, outpoint, amount, v, index, lockTime);
    RevocationConserves(lib, CancelTo(Derive(lib, v.deposit, index)), txin, lockTime);
    RevocationConserves(lib, EmergencyTo(emergency), DepositTxin(lib, v, outpoint, amount, index), lockTime);
    RevocationConserves(lib, UnvaultEmergencyTo(emergency), txin, lockTime);
  }

  /** The chain is done when the four constructors are, and returns what they return. */
  lemma ChainIsDone(lib: Library, outpoint: OutPoint, amount: u64, v: Vault, index: nat, emergency: Script,
                    lockTime: nat)
    ensures var r := TransactionChain(lib, outpoint, amount, v, index, emergency, lockTime);
            var cancel := RevaultFor(lib, outpoint, amount, v, index, CancelTo(Derive(lib, v.deposit, index)),
                                     lockTime);
            var emergencyTx := NewEmergency(lib, DepositTxin(lib, v, outpoint, amount, index), None, emergency,
                                            lockTime);
            var unvaultEmergency := RevaultFor(lib, outpoint, amount, v, index, UnvaultEmergencyTo(emergency),
                                               lockTime);
            && (r.Done? <==> cancel.Done? && emergencyTx.Done? && unvaultEmergency.Done?)
            && (r.Done? ==>
                && NewUnvault(lib, v, outpoint, amount, index, lockTime) == Done(r.value.unvault)
                && r.value == FullChain(r.value.unvault, cancel.value, emergencyTx.value, unvaultEmergency.value))
  {
    ManagersDone(lib, outpoint, amount, v, index, lockTime);
  }

  lemma ManagersDone(lib: Library, outpoint: OutPoint, amount: u64, v: Vault, index: nat, lockTime: nat)
    ensures var r := TransactionChainManager(lib, outpoint, amount, v, index, lockTime);
            var cancel := RevaultFor(lib, outpoint, amount, v, index, CancelTo(Derive(lib, v.deposit, index)),
                                     lockTime);
            && (r.Done? <==> cancel.Done?)
            && (r.Done? ==>
                && NewUnvault(lib, v, outpoint, amount, index, lockTime) == Done(r.value.unvault)
                && r.value == ManagerChain(r.value.unvault, cancel.value))
  {
  }

  /** The four transactions are what the four constructors return, on output 0 of the Unvault where they spend it. */
  lemma ChainParts(lib: Library, outpoint: OutPoint, amount: u64, v: Vault, index: nat, emergency: Script,
                   lockTime: nat)
    returns (txin: InternalTxIn)
    requires TransactionChain(lib, outpoint, amount, v, index, emergency, lockTime).Done?
    ensures var c := TransactionChain(lib, outpoint, amount, v, index, emergency, lockTime).value;
            && NewUnvault(lib, v, outpoint, amount, index, lockTime) == Done(c.unvault)
            && |c.unvault.tx.output| == 2
            && txin.outpoint == OutPoint((lib.txid)(c.unvault.tx), 0) && txin.txout.txout == c.unvault.tx.output[0]
            && txin.sequence == 0xffff_fffd
            && CancelTo(Derive(lib, v.deposit, index)).New(lib, txin, None, lockTime) == Done(c.cancel)
            && EmergencyTo(emergency).New(lib, DepositTxin(lib, v, outpoint, amount, index), None, lockTime) ==
               Done(c.emergency)
            && UnvaultEmergencyTo(emergency).New(lib, txin, None, lockTime) == Done(c.unvaultEmergency)
  {
    var deposit := DepositTxin(lib, v, outpoint, amount, index);
    ChainIsDone(lib, outpoint, amount, v, index, emergency, lockTime);
    var unvaultTx := NewUnvault(lib, v, outpoint, amount, index, lockTime).value;
    Unvaulting.TxinIsUnvaultOutput(lib, deposit, Derive(lib, v.unvault, index), Derive(lib, v.cpfp, index),
                                   lockTime, RBF_SEQUENCE);
    txin := Unvaulting.RevaultUnvaultTxin(lib, unvaultTx, Derive(lib, v.unvault, index)).value;
  }

  /** A lone vault coin, spent with a replaceable input. */
  ghost predicate SpendsOnly(psbt: Psbt, outpoint: OutPoint, utxo: TxOut, ty: SigHashType, lockTime: nat) {
    && psbt.tx.version == 2 && psbt.tx.lockTime == lockTime && |psbt.tx.input| == |psbt.inputs| == 1
    && psbt.tx.input[0] == TxIn(outpoint, 0xffff_fffd)
    && psbt.inputs[0].witnessUtxo == Some(utxo) && psbt.inputs[0].sighashType == Some(ty) && Unsigned(psbt.inputs[0])
  }

  /** Who spends what and pays to whom along the chain: the Unvault and the Emergency the deposit that was asked for,
      the Cancel and the UnvaultEmergency output 0 of the Unvault; every script and key is derived at the one index. */
  lemma ChainIs(lib: Library, outpoint: OutPoint, amount: u64, v: Vault, index: nat, emergency: Script, lockTime: nat)
    requires TransactionChain(lib, outpoint, amount, v, index, emergency, lockTime).Done?
    ensures var c := TransactionChain(lib, outpoint, amount, v, index, emergency, lockTime).value;
            var deposit := TxOut(amount, [0x00, 0x20] + lib.sha256(Derive(lib, v.deposit, index).script));
            var unvaulted := OutPoint((lib.txid)(c.unvault.tx), 0);
            && SpendsOnly(c.unvault, outpoint, deposit, All, lockTime)
            && |c.unvault.tx.output| == |c.unvault.outputs| == 2
            && PaysTo(lib, c.unvault.tx.output[0], c.unvault.outputs[0], Derive(lib, v.unvault, index))
            && PaysTo(lib, c.unvault.tx.output[1], c.unvault.outputs[1], Derive(lib, v.cpfp, index))
            && SpendsOnly(c.cancel, unvaulted, c.unvault.tx.output[0], AllPlusAnyoneCanPay, lockTime)
            && |c.cancel.tx.output| == |c.cancel.outputs| == 1
            && PaysTo(lib, c.cancel.tx.output[0], c.cancel.outputs[0], Derive(lib, v.deposit, index))
            && SpendsOnly(c.emergency, outpoint, deposit, AllPlusAnyoneCanPay, lockTime)
            && |c.emergency.tx.output| == 1 && c.emergency.tx.output[0].scriptPubkey == emergency
            && SpendsOnly(c.unvaultEmergency, unvaulted, c.unvault.tx.output[0], AllPlusAnyoneCanPay, lockTime)
            && |c.unvaultEmergency.tx.output| == 1 && c.unvaultEmergency.tx.output[0].scriptPubkey == emergency
  {
    var deposit := DepositTxin(lib, v, outpoint, amount, index);
    var txin := ChainParts(lib, outpoint, amount, v, index, emergency, lockTime);
    Unvaulting.NewIs(lib, deposit, Derive(lib, v.unvault, index), Derive(lib, v.cpfp, index), lockTime);
    NewIs(lib, CancelTo(Derive(lib, v.deposit, index)), txin, None, lockTime);
    NewIs(lib, EmergencyTo(emergency), deposit, None, lockTime);
    NewIs(lib, UnvaultEmergencyTo(emergency), txin, None, lockTime);
  }

  lemma UnvaultConserves(lib: Library, outpoint: OutPoint, amount: u64, v: Vault, index: nat, lockTime: nat)
    requires NewUnvault(lib, v, outpoint, amount, index, lockTime).Done?
    ensures var psbt := NewUnvault(lib, v, outpoint, amount, index, lockTime).value;
            && |psbt.tx.output| == 2
            && amount == psbt.tx.output[0].value + 30_000 + 6 * FullWeight(lib, psbt)
            && Fees(psbt) == Some(6 * FullWeight(lib, psbt))
  {
    var deposit := DepositTxin(lib, v, outpoint, amount, index);
    Unvaulting.NewConserves(lib, deposit, Derive(lib, v.unvault, index), Derive(lib, v.cpfp, index), lockTime);
    UnvaultFullWeight(lib, deposit, Derive(lib, v.unvault, index), Derive(lib, v.cpfp, index), lockTime);
  }

  lemma RevocationConserves(lib: Library, t: Target, txin: InternalTxIn, lockTime: nat)
    requires t.New(lib, txin, None, lockTime).Done?
    ensures var psbt := t.New(lib, txin, None, lockTime).value;
            && |psbt.tx.output| == 1 && psbt.tx.input != [] && psbt.inputs != []
            && psbt.tx.input[0].previousOutput == txin.outpoint && psbt.inputs[0].witnessUtxo == Some(txin.txout.txout)
            && txin.txout.txout.value == psbt.tx.output[0].value + t.Feerate() * FullWeight(lib, psbt)
            && Fees(psbt) == Some(t.Feerate() * FullWeight(lib, psbt))
  {
    NewConserves(lib, t, txin, None, lockTime);
    NewShape(lib, t, txin, None, lockTime);
  }

  lemma UnvaultFullWeight(lib: Library, deposit: InternalTxIn, unvault: DerivedDescriptor, cpfp: DerivedDescriptor,
                          lockTime: nat)
    requires Unvaulting.New(lib, deposit, unvault, cpfp, lockTime).Done?
    ensures var psbt := Unvaulting.New(lib, deposit, unvault, cpfp, lockTime).value;
            UnvaultMaxWeight(lib, psbt) == Some(FullWeight(lib, psbt))
  {
    var psbt := Unvaulting.New(lib, deposit, unvault, cpfp, lockTime).value;
    Unvaulting.NewConserves(lib, deposit, unvault, cpfp, lockTime);
    SingleSum(PendingWeight(lib), psbt.inputs[0]);
  }

  // ----- when the chain completes

  /** The weight of the Cancel and of the UnvaultEmergency once signed: both have one P2WSH output. */
  function RevaultWeight(lib: Library, unvault: DerivedDescriptor): nat {
    376 + (if (lib.satWeight)(unvault.script).Some? then (lib.satWeight)(unvault.script).value else 0)
  }

  lemma RevaultFees(lib: Library, feerate: nat, txin: InternalTxIn, spk: Script, lockTime: nat)
    requires feerate == CANCEL_TX_FEERATE || feerate == EMER_TX_FEERATE
    requires ValidTxOut(lib, txin.txout) && IsP2wsh(spk)
    ensures var w := 376 + (lib.satWeight)(txin.txout.witnessScript).value;
            BaseFees(lib, feerate, txin, spk, lockTime) ==
            if feerate * w < INSANE_FEES && w <= MAX_STANDARD_TX_WEIGHT then Done(feerate * w) else Panics
  {
    StrippedWeight(txin, TxOut(U64_MAX, spk), EmptyPsbtOut, lockTime);
  }

  /** The fee is standard, sane and affordable. */
  predicate WithinBounds(feerate: nat, weight: nat, value: nat) {
    weight <= 400_000 && feerate * weight < 20_000_000 && feerate * weight <= value
  }

  /** More than 21 million bitcoins. */
  predicate Excessive(feebump: Option<FeeBumpTxIn>) {
    feebump.Some? && feebump.value.txout.value > 2_100_000_000_000_000
  }

  /** On any valid coin the Cancel and the UnvaultEmergency are built exactly when the weight and insane-fee bounds
      hold, the fee is within the coin's value and what is left below 21 million bitcoins. The only error is an insane
      fee-bump; everything else ends in an `expect` or `assert!`. */
  lemma CoinThreshold(lib: Library, t: Target, txin: InternalTxIn, feebump: Option<FeeBumpTxIn>, lockTime: nat)
    requires ValidTxOut(lib, txin.txout) && t.Valid(lib) && !t.EmergencyTo?
    ensures var w, value := 376 + (lib.satWeight)(txin.txout.witnessScript).value, txin.txout.txout.value;
            var r := t.New(lib, txin, feebump, lockTime);
            && (r.Fails? <==> Excessive(feebump)) && (r.Fails? ==> r.error == CreationError.InsaneAmounts)
            && (r.Done? <==>
                && !Excessive(feebump) && WithinBounds(t.Feerate(), w, value)
                && value - t.Feerate() * w < 2_100_000_000_000_000)
            && (value <= 2_100_000_000_000_000 && !Excessive(feebump) ==>
                (r.Done? <==> WithinBounds(t.Feerate(), w, value)))
  {
    if t.CancelTo? { P2wshShape(lib, t.deposit.script); }
    RevaultFees(lib, t.Feerate(), txin, t.Spk(lib), lockTime);
    SomeFee(t.Feerate(), 376 + (lib.satWeight)(txin.txout.witnessScript).value);
  }

  lemma SomeFee(feerate: nat, w: nat)
    requires feerate > 0 && w > 0
    ensures feerate * w > 0
  {
  }

  /** The Emergency reports a deposit too small for its fees, or what would leave too much, instead of panicking. */
  lemma EmergencyThreshold(lib: Library, spk: Script, deposit: InternalTxIn, feebump: Option<FeeBumpTxIn>,
                           lockTime: nat)
    requires ValidTxOut(lib, deposit.txout) && IsP2wsh(spk)
    ensures var w, value := 376 + (lib.satWeight)(deposit.txout.witnessScript).value, deposit.txout.txout.value;
            var r := NewEmergency(lib, deposit, feebump, spk, lockTime);
            && (r.Done? <==>
                && !Excessive(feebump) && WithinBounds(75, w, value)
                && value - 75 * w <= 2_100_000_000_000_000)
            && (r == Fails(CreationError.InsaneAmounts) <==>
                Excessive(feebump)
                || (WithinBounds(75, w, value) && value - 75 * w > 2_100_000_000_000_000))
            && (r == Fails(Dust) <==>
                && !Excessive(feebump) && WithinBounds(75, w, 75 * w)
                && value < 75 * w)
            && (r.Panics? <==> !Excessive(feebump) && !WithinBounds(75, w, 75 * w))
  {
    RevaultFees(lib, EMER_TX_FEERATE, deposit, spk, lockTime);
  }

  /** The coin a constructed Unvault offers to the revocation transactions. */
  lemma UnvaultCoin(lib: Library, outpoint: OutPoint, amount: u64, v: Vault, index: nat, lockTime: nat)
    returns (txin: InternalTxIn)
    requires ValidVault(lib, v, index)
    requires NewUnvault(lib, v, outpoint, amount, index, lockTime).Done?
    ensures var unvaultTx := NewUnvault(lib, v, outpoint, amount, index, lockTime).value;
            && |unvaultTx.tx.output| == 2
            && Unvaulting.RevaultUnvaultTxin(lib, unvaultTx, Derive(lib, v.unvault, index)) == Done(txin)
            && txin.txout == NewTxOut(lib, unvaultTx.tx.output[0].value, Derive(lib, v.unvault, index))
            && ValidTxOut(lib, txin.txout)
            && DUST_LIMIT <= txin.txout.txout.value <= MAX_MONEY
  {
    var deposit := DepositTxin(lib, v, outpoint, amount, index);
    var unvault, cpfp := Derive(lib, v.unvault, index), Derive(lib, v.cpfp, index);
    Unvaulting.NewConserves(lib, deposit, unvault, cpfp, lockTime);
    Unvaulting.TxinIsUnvaultOutput(lib, deposit, unvault, cpfp, lockTime, RBF_SEQUENCE);
    var unvaultTx := NewUnvault(lib, v, outpoint, amount, index, lockTime).value;
    NewTxOutIsValid(lib, unvaultTx.tx.output[0].value, unvault);
    txin := Unvaulting.RevaultUnvaultTxin(lib, unvaultTx, unvault).value;
  }

  /** A revaulting transaction of the Unvault built from a deposit of `amount`. */
  function RevaultFor(lib: Library, outpoint: OutPoint, amount: u64, v: Vault, index: nat, t: Target, lockTime: nat)
    : Outcome<Psbt, CreationError>
  {
    var unvaultTx :- NewUnvault(lib, v, outpoint, amount, index, lockTime);
    RevaultOf(lib, unvaultTx, v, index, t, lockTime)
  }

  /** The exact threshold along the chain: after a successful Unvault, the Cancel and the UnvaultEmergency complete
      exactly within the bounds, and panic otherwise. */
  lemma RevaultThreshold(lib: Library, outpoint: OutPoint, amount: u64, v: Vault, index: nat, t: Target, lockTime: nat)
    requires ValidVault(lib, v, index) && t.Valid(lib) && !t.EmergencyTo?
    requires NewUnvault(lib, v, outpoint, amount, index, lockTime).Done?
    ensures var w := RevaultWeight(lib, Derive(lib, v.unvault, index));
            var unvaultTx := NewUnvault(lib, v, outpoint, amount, index, lockTime).value;
            && |unvaultTx.tx.output| == 2 && DUST_LIMIT <= unvaultTx.tx.output[0].value
            && (RevaultFor(lib, outpoint, amount, v, index, t, lockTime).Done? <==>
                WithinBounds(t.Feerate(), w, unvaultTx.tx.output[0].value))
            && !RevaultFor(lib, outpoint, amount, v, index, t, lockTime).Fails?
  {
    var txin := UnvaultCoin(lib, outpoint, amount, v, index, lockTime);
    assert RevaultFor(lib, outpoint, amount, v, index, t, lockTime) == t.New(lib, txin, None, lockTime);
    CoinThreshold(lib, t, txin, None, lockTime);
  }

  lemma LightFees(feerate: nat, w: nat)
    requires feerate == CANCEL_TX_FEERATE || feerate == EMER_TX_FEERATE
    requires EMER_TX_FEERATE * w <= DUST_LIMIT
    ensures feerate * w <= DUST_LIMIT && w <= MAX_STANDARD_TX_WEIGHT
  {
  }

  /** The dust limit protects descriptors of at most 2666 weight units: from any deposit that gives an Unvault, the
      Cancel and the UnvaultEmergency are built. */
  lemma LightChainCompletes(lib: Library, outpoint: OutPoint, amount: u64, v: Vault, index: nat, t: Target,
                            lockTime: nat)
    requires ValidVault(lib, v, index) && t.Valid(lib) && !t.EmergencyTo?
    requires EMER_TX_FEERATE * RevaultWeight(lib, Derive(lib, v.unvault, index)) <= DUST_LIMIT
    requires NewUnvault(lib, v, outpoint, amount, index, lockTime).Done?
    ensures RevaultFor(lib, outpoint, amount, v, index, t, lockTime).Done?
  {
    RevaultThreshold(lib, outpoint, amount, v, index, t, lockTime);
    LightFees(t.Feerate(), RevaultWeight(lib, Derive(lib, v.unvault, index)));
  }

  /** When the Unvault of a deposit is built. */
  predicate UnvaultBounds(weight: nat, amount: nat) {
    && weight <= 400_000
    && 6 * weight + 30_000 + 200_000 <= amount
    && amount <= 2_100_000_000_000_000 + 6 * weight + 30_000
  }

  lemma UnvaultThreshold(lib: Library, outpoint: OutPoint, amount: u64, v: Vault, index: nat, lockTime: nat)
    requires ValidVault(lib, v, index)
    ensures var w := 548 + (lib.satWeight)(Derive(lib, v.deposit, index).script).value;
            var r := NewUnvault(lib, v, outpoint, amount, index, lockTime);
            && (r.Done? <==> UnvaultBounds(w, amount))
            && (r.Done? ==>
                && r.value.tx.output != []
                && r.value.tx.output[0].value == amount - UNVAULT_TX_FEERATE * w - UNVAULT_CPFP_VALUE)
  {
    NewTxOutIsValid(lib, amount, Derive(lib, v.deposit, index));
    Unvaulting.NewThreshold(lib, DepositTxin(lib, v, outpoint, amount, index), Derive(lib, v.unvault, index),
                            Derive(lib, v.cpfp, index), lockTime);
  }

  /** A revocation transaction whose output is dust: the coin is worth its fee and one sat. It is built, and does not
      parse. */
  lemma DustyCoin(lib: Library, t: Target, outpoint: OutPoint, value: u64, d: DerivedDescriptor, lockTime: nat)
    requires ValidDescriptor(lib, d) && t.Valid(lib) && !t.EmergencyTo?
    requires value == t.Feerate() * RevaultWeight(lib, d) + 1 && WithinBounds(t.Feerate(), RevaultWeight(lib, d), value)
    ensures var r := t.New(lib, InternalTxIn(outpoint, NewTxOut(lib, value, d), RBF_SEQUENCE), None, lockTime);
            && r.Done? && r.value.tx.output != [] && r.value.tx.output[0].value == 1
            && !Parses(lib, t.TheKind(), r.value)
  {
    var coin := InternalTxIn(outpoint, NewTxOut(lib, value, d), RBF_SEQUENCE);
    NewTxOutIsValid(lib, value, d);
    CoinThreshold(lib, t, coin, None, lockTime);
    DustyOutput(lib, t, coin, lockTime);
  }

  /** What a revocation transaction leaves of its coin, and that dust keeps it from parsing. */
  lemma DustyOutput(lib: Library, t: Target, coin: InternalTxIn, lockTime: nat)
    requires ValidTxOut(lib, coin.txout) && t.Valid(lib) && !t.EmergencyTo? && t.New(lib, coin, None, lockTime).Done?
    ensures var psbt := t.New(lib, coin, None, lockTime).value;
            var fees := t.Feerate() * (376 + lib.satWeight(coin.txout.witnessScript).value);
            && psbt.tx.output != [] && psbt.tx.output[0].value == coin.txout.txout.value - fees
            && (psbt.tx.output[0].value < 330 ==> !Parses(lib, t.TheKind(), psbt))
  {
    if t.CancelTo? { P2wshShape(lib, t.deposit.script); }
    RevaultFees(lib, t.Feerate(), coin, t.Spk(lib), lockTime);
    NewShape(lib, t, coin, None, lockTime);
    NewParses(lib, t, coin, None, lockTime, []);
  }

  /** Along the chain too: a descriptor that takes the fee past the dust limit has a deposit whose Unvault can be
      built and revaulted, but into dust that does not parse. */
  lemma DustyChain(lib: Library, outpoint: OutPoint, v: Vault, index: nat, t: Target, lockTime: nat)
    returns (amount: u64)
    requires ValidVault(lib, v, index) && t.Valid(lib) && !t.EmergencyTo?
    requires 548 + lib.satWeight(Derive(lib, v.deposit, index).script).value <= MAX_STANDARD_TX_WEIGHT
    requires var w := RevaultWeight(lib, Derive(lib, v.unvault, index));
             WithinBounds(t.Feerate(), w, t.Feerate() * w) && DUST_LIMIT <= t.Feerate() * w
    ensures NewUnvault(lib, v, outpoint, amount, index, lockTime).Done?
    ensures RevaultFor(lib, outpoint, amount, v, index, t, lockTime).Done?
    ensures !Parses(lib, t.TheKind(), RevaultFor(lib, outpoint, amount, v, index, t, lockTime).value)
  {
    var w := 548 + lib.satWeight(Derive(lib, v.deposit, index).script).value;
    var fees := t.Feerate() * RevaultWeight(lib, Derive(lib, v.unvault, index));
    amount := UNVAULT_TX_FEERATE * w + UNVAULT_CPFP_VALUE + fees;
    UnvaultThreshold(lib, outpoint, amount, v, index, lockTime);
    RevaultThreshold(lib, outpoint, amount, v, index, t, lockTime);
    var txin := UnvaultCoin(lib, outpoint, amount, v, index, lockTime);
    DustyOutput(lib, t, txin, lockTime);
  }

  /** The comment "We would never create a dust unvault txo" does not protect heavier descriptors: whenever 75 sats
      for every weight unit exceed the dust limit, some deposit gives a valid Unvault on which building the
      UnvaultEmergency panics. */
  lemma HeavyChainPanics(lib: Library, outpoint: OutPoint, v: Vault, index: nat, emergency: Script, lockTime: nat)
    returns (amount: u64)
    requires ValidVault(lib, v, index) && IsP2wsh(emergency)
    requires EMER_TX_FEERATE * RevaultWeight(lib, Derive(lib, v.unvault, index)) > DUST_LIMIT
    requires 548 + (lib.satWeight)(Derive(lib, v.deposit, index).script).value <= MAX_STANDARD_TX_WEIGHT
    ensures NewUnvault(lib, v, outpoint, amount, index, lockTime).Done?
    ensures RevaultFor(lib, outpoint, amount, v, index, UnvaultEmergencyTo(emergency), lockTime).Panics?
  {
    var w := 548 + (lib.satWeight)(Derive(lib, v.deposit, index).script).value;
    amount := 6 * w + UNVAULT_CPFP_VALUE + DUST_LIMIT;
    UnvaultThreshold(lib, outpoint, amount, v, index, lockTime);
    RevaultThreshold(lib, outpoint, amount, v, index, UnvaultEmergencyTo(emergency), lockTime);
  }

  /** So the dust limit alone makes the `expect` of the UnvaultEmergency unreachable exactly for descriptors light
      enough. */
  lemma DustLimitThreshold(lib: Library, outpoint: OutPoint, v: Vault, index: nat, emergency: Script, lockTime: nat)
    requires ValidVault(lib, v, index) && IsP2wsh(emergency)
    requires 548 + (lib.satWeight)(Derive(lib, v.deposit, index).script).value <= MAX_STANDARD_TX_WEIGHT
    ensures (forall amount: u64 ::
               NewUnvault(lib, v, outpoint, amount, index, lockTime).Done? ==>
               RevaultFor(lib, outpoint, amount, v, index, UnvaultEmergencyTo(emergency), lockTime).Done?)
            <==> EMER_TX_FEERATE * RevaultWeight(lib, Derive(lib, v.unvault, index)) <= DUST_LIMIT
  {
    if EMER_TX_FEERATE * RevaultWeight(lib, Derive(lib, v.unvault, index)) <= DUST_LIMIT {
      forall amount: u64 | NewUnvault(lib, v, outpoint, amount, index, lockTime).Done?
        ensures RevaultFor(lib, outpoint, amount, v, index, UnvaultEmergencyTo(emergency), lockTime).Done?
      {
        LightChainCompletes(lib, outpoint, amount, v, index, UnvaultEmergencyTo(emergency), lockTime);
      }
    } else {
      var amount := HeavyChainPanics(lib, outpoint, v, index, emergency, lockTime);
    }
  }

  /** The whole chain is built exactly when the Unvault is, its output can pay for the UnvaultEmergency, and the
      deposit for the Emergency; the Cancel never is the obstacle. */
  lemma ChainThreshold(lib: Library, outpoint: OutPoint, amount: u64, v: Vault, index: nat, emergency: Script,
                       lockTime: nat)
    requires ValidVault(lib, v, index) && IsP2wsh(emergency)
    ensures var sat := (lib.satWeight)(Derive(lib, v.deposit, index).script).value;
            var w := RevaultWeight(lib, Derive(lib, v.unvault, index));
            TransactionChain(lib, outpoint, amount, v, index, emergency, lockTime).Done? <==>
            && UnvaultBounds(548 + sat, amount)
            && WithinBounds(75, w, amount - 6 * (548 + sat) - 30_000)
            && WithinBounds(75, 376 + sat, amount)
            && amount - 75 * (376 + sat) <= 2_100_000_000_000_000
  {
    var deposit := DepositTxin(lib, v, outpoint, amount, index);
    NewTxOutIsValid(lib, amount, Derive(lib, v.deposit, index));
    EmergencyThreshold(lib, emergency, deposit, None, lockTime);
    UnvaultThreshold(lib, outpoint, amount, v, index, lockTime);
    ChainIsDone(lib, outpoint, amount, v, index, emergency, lockTime);
    if NewUnvault(lib, v, outpoint, amount, index, lockTime).Done? {
      RevaultsThreshold(lib, outpoint, amount, v, index, emergency, lockTime);
    }
  }

  lemma RevaultsThreshold(lib: Library, outpoint: OutPoint, amount: u64, v: Vault, index: nat, emergency: Script,
                          lockTime: nat)
    requires ValidVault(lib, v, index) && IsP2wsh(emergency)
    requires NewUnvault(lib, v, outpoint, amount, index, lockTime).Done?
    ensures var unvaultTx := NewUnvault(lib, v, outpoint, amount, index, lockTime).value;
            && unvaultTx.tx.output != []
            && (&& RevaultFor(lib, outpoint, amount, v, index, CancelTo(Derive(lib, v.deposit, index)), lockTime).Done?
                && RevaultFor(lib, outpoint, amount, v, index, UnvaultEmergencyTo(emergency), lockTime).Done?
                <==> WithinBounds(EMER_TX_FEERATE, RevaultWeight(lib, Derive(lib, v.unvault, index)),
                                  unvaultTx.tx.output[0].value))
  {
    RevaultThreshold(lib, outpoint, amount, v, index, CancelTo(Derive(lib, v.deposit, index)), lockTime);
    RevaultThreshold(lib, outpoint, amount, v, index, UnvaultEmergencyTo(emergency), lockTime);
  }
}
