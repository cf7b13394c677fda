/** The Cancel, Emergency and UnvaultEmergency transactions: a vault input, maybe a fee-bump input, one output. */
module Revocation {
  import opened Wrappers
  import opened Sums
  import opened Bitcoin
  import opened TxOuts
  import opened Validation
  import opened Signing
  import opened Parsing
  import opened Creation

  /** The three `create_psbt` differ only in their output. */
  function CreatePsbt(vault: InternalTxIn, feebump: Option<FeeBumpTxIn>, txo: TxOut, psbtOut: PsbtOut,
                      lockTime: nat): Psbt {
    Psbt(
      Transaction(TX_VERSION, lockTime,
                  [vault.Unsigned()] + (if feebump.Some? then [feebump.value.Unsigned()] else []),
                  [txo]),
      [VaultInput(vault.txout, AllPlusAnyoneCanPay)] + (if feebump.Some? then [FeeBumpPsbtIn(feebump.value)] else []),
      [psbtOut])
  }

  /** The fee at `feerate` of the transaction without a fee-bump input; panics where the constructors do. */
  function BaseFees(lib: Library, feerate: nat, vault: InternalTxIn, spk: Script, lockTime: nat)
    : Outcome<nat, CreationError>
  {
    var dummyTx := CreatePsbt(vault, None, TxOut(U64_MAX, spk), EmptyPsbtOut, lockTime).tx;
    match SignedWeight(lib, dummyTx, vault.txout)
    case None => Panics
    case Some(totalWeight) =>
      var fees := feerate * totalWeight;
      if fees > U64_MAX || fees >= INSANE_FEES || totalWeight > MAX_STANDARD_TX_WEIGHT then Panics
      else Done(fees)
  }

  predicate InsaneFeeBump(feebump: Option<FeeBumpTxIn>) { feebump.Some? && feebump.value.txout.value > MAX_MONEY }

  function NewCancel(lib: Library, unvault: InternalTxIn, feebump: Option<FeeBumpTxIn>, deposit: DerivedDescriptor,
                     lockTime: nat)
    : Outcome<Psbt, CreationError>
  {
    if InsaneFeeBump(feebump) then Fails(CreationError.InsaneAmounts) else
    var fees :- BaseFees(lib, CANCEL_TX_FEERATE, unvault, P2wshScript(lib, deposit.script), lockTime);
    var unvaultValue := unvault.txout.txout.value;
    if fees > unvaultValue || unvaultValue - fees >= MAX_MONEY then Panics
    else
      var txo := NewTxOut(lib, unvaultValue - fees, deposit);
      Done(CreatePsbt(unvault, feebump, txo.txout, DerivedOutput(txo.bip32Derivation), lockTime))
  }

  /** `emergency` is the scriptPubKey of the Emergency address, always a P2WSH. */
  function NewUnvaultEmergency(lib: Library, unvault: InternalTxIn, feebump: Option<FeeBumpTxIn>, emergency: Script,
                               lockTime: nat)
    : Outcome<Psbt, CreationError>
  {
    if InsaneFeeBump(feebump) then Fails(CreationError.InsaneAmounts) else
    var fees :- BaseFees(lib, EMER_TX_FEERATE, unvault, emergency, lockTime);
    var unvaultValue := unvault.txout.txout.value;
    if fees > unvaultValue || unvaultValue - fees >= MAX_MONEY then Panics
    else Done(CreatePsbt(unvault, feebump, TxOut(unvaultValue - fees, emergency), EmptyPsbtOut, lockTime))
  }

  function NewEmergency(lib: Library, deposit: InternalTxIn, feebump: Option<FeeBumpTxIn>, emergency: Script,
                        lockTime: nat)
    : Outcome<Psbt, CreationError>
  {
    if InsaneFeeBump(feebump) then Fails(CreationError.InsaneAmounts) else
    var fees :- BaseFees(lib, EMER_TX_FEERATE, deposit, emergency, lockTime);
    var depositValue := deposit.txout.txout.value;
    if fees > depositValue then Fails(Dust)
    else if depositValue - fees > MAX_MONEY then Fails(CreationError.InsaneAmounts)
    else Done(CreatePsbt(deposit, feebump, TxOut(depositValue - fees, emergency), EmptyPsbtOut, lockTime))
  }

  /** The output a constructor of each kind makes, and at which feerate. */
  datatype Target = CancelTo(deposit: DerivedDescriptor) | EmergencyTo(spk: Script) | UnvaultEmergencyTo(spk: Script) {
    function TheKind(): Kind {
      match this
      case CancelTo(_) => Cancel
      case EmergencyTo(_) => Emergency
      case UnvaultEmergencyTo(_) => UnvaultEmergency
    }

    function Feerate(): nat { if CancelTo? then CANCEL_TX_FEERATE else EMER_TX_FEERATE }

    function Spk(lib: Library): Script { if CancelTo? then P2wshScript(lib, deposit.script) else spk }

    ghost predicate Valid(lib: Library) { if CancelTo? then ValidDescriptor(lib, deposit) else IsP2wsh(spk) }

    function New(lib: Library, vault: InternalTxIn, feebump: Option<FeeBumpTxIn>, lockTime: nat)
      : Outcome<Psbt, CreationError>
    {
      match this
      case CancelTo(d) => NewCancel(lib, vault, feebump, d, lockTime)
      case EmergencyTo(s) => NewEmergency(lib, vault, feebump, s, lockTime)
      case UnvaultEmergencyTo(s) => NewUnvaultEmergency(lib, vault, feebump, s, lockTime)
    }
  }

  function FeeBumpValue(feebump: Option<FeeBumpTxIn>): nat { if feebump.Some? then feebump.value.txout.value else 0 }

  /** The weight of a returned revocation transaction once signed, not counting a fee-bump input. */
  function VaultWeight(lib: Library, psbt: Psbt): Option<nat> {
    if psbt.inputs == [] || psbt.tx.input == [] then None else
    match SatWeightOf(lib, psbt.inputs[0])
    case None => None
    case Some(sat) => Some(Weight(psbt.tx.(input := psbt.tx.input[..1])) + sat)
  }

  // ----- what all three constructors return

  lemma NewShape(lib: Library, t: Target, vault: InternalTxIn, feebump: Option<FeeBumpTxIn>, lockTime: nat)
    requires t.New(lib, vault, feebump, lockTime).Done?
    ensures var psbt := t.New(lib, vault, feebump, lockTime).value;
            && psbt == CreatePsbt(vault, feebump, psbt.tx.output[0], psbt.outputs[0], lockTime)
            && psbt.tx.output[0].scriptPubkey == t.Spk(lib)
            && !InsaneFeeBump(feebump)
            && BaseFees(lib, t.Feerate(), vault, t.Spk(lib), lockTime).Done?
            && psbt.tx.output[0].value ==
               vault.txout.txout.value - BaseFees(lib, t.Feerate(), vault, t.Spk(lib), lockTime).value
  {
  }

  /** Each revocation spends the vault coin, then the fee-bump coin if there is one, and pays to its target only. The
      Cancel describes the keys of its deposit output; nothing is said about an Emergency one. */
  lemma NewIs(lib: Library, t: Target, vault: InternalTxIn, feebump: Option<FeeBumpTxIn>, lockTime: nat)
    requires t.New(lib, vault, feebump, lockTime).Done?
    ensures var psbt := t.New(lib, vault, feebump, lockTime).value;
            && psbt.tx.version == 2 && psbt.tx.lockTime == lockTime
            && |psbt.tx.input| == |psbt.inputs| == (if feebump.Some? then 2 else 1)
            && SpendsCoin(psbt.tx.input[0], psbt.inputs[0], vault, AllPlusAnyoneCanPay)
            && (feebump.Some? ==> SpendsFeeBump(psbt.tx.input[1], psbt.inputs[1], feebump.value))
            && |psbt.tx.output| == |psbt.outputs| == 1
            && match t {
                 case CancelTo(d) => PaysTo(lib, psbt.tx.output[0], psbt.outputs[0], d)
                 case EmergencyTo(spk) => psbt.tx.output[0].scriptPubkey == spk && Undescribed(psbt.outputs[0])
                 case UnvaultEmergencyTo(spk) => psbt.tx.output[0].scriptPubkey == spk && Undescribed(psbt.outputs[0])
               }
  {
    if t.CancelTo? {
      DerivationsAreSources(t.deposit.keys);
    }
  }

  lemma CreatedPair(vault: InternalTxIn, f: FeeBumpTxIn, txo: TxOut, psbtOut: PsbtOut, lockTime: nat)
    ensures var psbt := CreatePsbt(vault, Some(f), txo, psbtOut, lockTime);
            && psbt.inputs == [VaultInput(vault.txout, AllPlusAnyoneCanPay), FeeBumpPsbtIn(f)]
            && SumBy(SpentValue, psbt.inputs) == vault.txout.txout.value + f.txout.value
  {
    PairSum(SpentValue, VaultInput(vault.txout, AllPlusAnyoneCanPay), FeeBumpPsbtIn(f));
  }

  lemma CreatedSingle(vault: InternalTxIn, txo: TxOut, psbtOut: PsbtOut, lockTime: nat)
    ensures var psbt := CreatePsbt(vault, None, txo, psbtOut, lockTime);
            && psbt.inputs == [VaultInput(vault.txout, AllPlusAnyoneCanPay)]
            && SumBy(SpentValue, psbt.inputs) == vault.txout.txout.value
  {
    SingleSum(SpentValue, VaultInput(vault.txout, AllPlusAnyoneCanPay));
  }

  lemma CreatedFees(vault: InternalTxIn, feebump: Option<FeeBumpTxIn>, txo: TxOut, psbtOut: PsbtOut, lockTime: nat)
    requires txo.value <= vault.txout.txout.value && vault.txout.txout.value + FeeBumpValue(feebump) <= U64_MAX
    ensures Fees(CreatePsbt(vault, feebump, txo, psbtOut, lockTime)) ==
            Some(vault.txout.txout.value - txo.value + FeeBumpValue(feebump))
  {
    var psbt := CreatePsbt(vault, feebump, txo, psbtOut, lockTime);
    if feebump.Some? {
      CreatedPair(vault, feebump.value, txo, psbtOut, lockTime);
    } else {
      CreatedSingle(vault, txo, psbtOut, lockTime);
    }
    SingleSum(TxOutValue, txo);
    FeesOf(psbt, vault.txout.txout.value + FeeBumpValue(feebump), txo.value);
  }

  /** The dummy with the largest amount weighs what the real transaction weighs without its fee-bump input. */
  lemma CreatedWeight(lib: Library, vault: InternalTxIn, feebump: Option<FeeBumpTxIn>, txo: TxOut, psbtOut: PsbtOut,
                      lockTime: nat)
    ensures var psbt := CreatePsbt(vault, feebump, txo, psbtOut, lockTime);
            var dummyTx := CreatePsbt(vault, None, TxOut(U64_MAX, txo.scriptPubkey), EmptyPsbtOut, lockTime).tx;
            && psbt.tx.input != [] && psbt.inputs != []
            && Weight(psbt.tx.(input := psbt.tx.input[..1])) == Weight(dummyTx)
            && psbt.inputs[0] == VaultInput(vault.txout, AllPlusAnyoneCanPay)
  {
    var psbt := CreatePsbt(vault, feebump, txo, psbtOut, lockTime);
    var dummyTx := CreatePsbt(vault, None, TxOut(U64_MAX, txo.scriptPubkey), EmptyPsbtOut, lockTime).tx;
    WeightIgnoresValues(dummyTx, psbt.tx.(input := psbt.tx.input[..1]));
  }

  lemma CreatedFullWeight(lib: Library, vault: InternalTxIn, txo: TxOut, psbtOut: PsbtOut, lockTime: nat)
    ensures var psbt := CreatePsbt(vault, None, txo, psbtOut, lockTime);
            VaultWeight(lib, psbt).Some? ==> VaultWeight(lib, psbt).value == FullWeight(lib, psbt)
  {
    var psbt := CreatePsbt(vault, None, txo, psbtOut, lockTime);
    CreatedSingle(vault, txo, psbtOut, lockTime);
    assert psbt.tx.input == [vault.Unsigned()] && psbt.tx.input[..1] == psbt.tx.input;
    SingleSum(PendingWeight(lib), VaultInput(vault.txout, AllPlusAnyoneCanPay));
  }

  lemma BaseFeesWeight(lib: Library, feerate: nat, vault: InternalTxIn, spk: Script, lockTime: nat)
    requires BaseFees(lib, feerate, vault, spk, lockTime).Done?
    ensures var dummyTx := CreatePsbt(vault, None, TxOut(U64_MAX, spk), EmptyPsbtOut, lockTime).tx;
            var sat := SatWeightOf(lib, VaultInput(vault.txout, AllPlusAnyoneCanPay));
            && sat.Some? && Weight(dummyTx) + sat.value <= MAX_STANDARD_TX_WEIGHT
            && BaseFees(lib, feerate, vault, spk, lockTime) == Done(feerate * (Weight(dummyTx) + sat.value))
  {
  }

  /** The base fees are those of the weight of what is returned. */
  lemma NewWeight(lib: Library, t: Target, vault: InternalTxIn, feebump: Option<FeeBumpTxIn>, lockTime: nat)
    requires t.New(lib, vault, feebump, lockTime).Done?
    ensures var psbt := t.New(lib, vault, feebump, lockTime).value;
            var w := VaultWeight(lib, psbt);
            && w.Some? && w.value <= MAX_STANDARD_TX_WEIGHT
            && BaseFees(lib, t.Feerate(), vault, t.Spk(lib), lockTime) == Done(t.Feerate() * w.value)
            && (feebump.None? ==> w.value == FullWeight(lib, psbt))
  {
    var psbt := t.New(lib, vault, feebump, lockTime).value;
    NewShape(lib, t, vault, feebump, lockTime);
    BaseFeesWeight(lib, t.Feerate(), vault, t.Spk(lib), lockTime);
    CreatedWeight(lib, vault, feebump, psbt.tx.output[0], psbt.outputs[0], lockTime);
    if feebump.None? {
      CreatedFullWeight(lib, vault, psbt.tx.output[0], psbt.outputs[0], lockTime);
    }
  }

  /** Value is conserved: the vault input is worth the output plus `feerate` sats for every weight unit of the
      transaction returned without its fee-bump input, whose whole value goes to fees. */
  lemma NewConserves(lib: Library, t: Target, vault: InternalTxIn, feebump: Option<FeeBumpTxIn>, lockTime: nat)
    requires t.New(lib, vault, feebump, lockTime).Done?
    ensures var psbt := t.New(lib, vault, feebump, lockTime).value;
            var w := VaultWeight(lib, psbt);
            && w.Some? && w.value <= MAX_STANDARD_TX_WEIGHT
            && |psbt.tx.output| == 1
            && BaseFees(lib, t.Feerate(), vault, t.Spk(lib), lockTime) == Done(t.Feerate() * w.value)
            && vault.txout.txout.value == psbt.tx.output[0].value + t.Feerate() * w.value
            && Fees(psbt) == Some(t.Feerate() * w.value + FeeBumpValue(feebump))
            && (feebump.None? ==> w.value == FullWeight(lib, psbt))
  {
    var psbt := t.New(lib, vault, feebump, lockTime).value;
    NewShape(lib, t, vault, feebump, lockTime);
    NewWeight(lib, t, vault, feebump, lockTime);
    CreatedFees(vault, feebump, psbt.tx.output[0], psbt.outputs[0], lockTime);
  }

  /** The weight without witness and fee-bump is 376 for any P2WSH output. */
  lemma StrippedWeight(vault: InternalTxIn, txo: TxOut, psbtOut: PsbtOut, lockTime: nat)
    requires IsP2wsh(txo.scriptPubkey)
    ensures Weight(CreatePsbt(vault, None, txo, psbtOut, lockTime).tx) == 376
  {
    SingleSum(TxOutSize, txo);
  }

  lemma NewInputs(lib: Library, t: Target, vault: InternalTxIn, feebump: Option<FeeBumpTxIn>, lockTime: nat)
    requires ValidTxOut(lib, vault.txout) && ValidFeeBumpOption(feebump)
    requires t.New(lib, vault, feebump, lockTime).Done?
    ensures var psbt := t.New(lib, vault, feebump, lockTime).value;
            && OnlyP2wsh(psbt.inputs, 0)
            && KindCount(t.TheKind(), psbt.inputs) && KindInputs(lib, t.TheKind(), psbt.inputs)
            && AllOrNoneFinal(psbt.inputs)
            && ((forall i | i in psbt.inputs :: SaneInput(lib, i)) <==> vault.txout.txout.value <= MAX_MONEY)
            && forall i | i in psbt.inputs :: InputInv(lib, t.TheKind(), i)
  {
    var psbt := t.New(lib, vault, feebump, lockTime).value;
    NewShape(lib, t, vault, feebump, lockTime);
    VaultInputIsGood(lib, vault.txout, AllPlusAnyoneCanPay);
    assert psbt.inputs[0] == VaultInput(vault.txout, AllPlusAnyoneCanPay);
    assert psbt.inputs[0] in psbt.inputs;
    assert OnlyP2wsh(psbt.inputs, 0);
    if feebump.Some? {
      assert psbt.inputs == [psbt.inputs[0], FeeBumpPsbtIn(feebump.value)];
    }
  }

  lemma NewHasInv(lib: Library, t: Target, vault: InternalTxIn, feebump: Option<FeeBumpTxIn>, lockTime: nat)
    requires ValidTxOut(lib, vault.txout) && ValidFeeBumpOption(feebump)
    requires t.New(lib, vault, feebump, lockTime).Done?
    ensures Inv(lib, t.TheKind(), t.New(lib, vault, feebump, lockTime).value)
  {
    NewInputs(lib, t, vault, feebump, lockTime);
  }

  // ----- constructor and parser

  /** What a caller has to check for the result to parse: bounded amounts, a P2WSH output above dust, and a fee-bump
      coin that is not the vault coin itself. */
  ghost predicate Parseable(lib: Library, t: Target, vault: InternalTxIn, feebump: Option<FeeBumpTxIn>, lockTime: nat)
    requires BaseFees(lib, t.Feerate(), vault, t.Spk(lib), lockTime).Done?
  {
    var fees := BaseFees(lib, t.Feerate(), vault, t.Spk(lib), lockTime).value;
    && vault.txout.txout.value <= MAX_MONEY
    && fees + 330 <= vault.txout.txout.value
    && fees + FeeBumpValue(feebump) <= MAX_MONEY
    && (feebump.Some? ==> feebump.value.outpoint != vault.outpoint)
  }

  /** A constructed revocation transaction parses exactly under those conditions, and then so does every PSBT it
      becomes by signing and finalising. */
  lemma NewParses(lib: Library, t: Target, vault: InternalTxIn, feebump: Option<FeeBumpTxIn>, lockTime: nat,
                  events: seq<Event>)
    requires ValidTxOut(lib, vault.txout) && ValidFeeBumpOption(feebump) && t.Valid(lib)
    requires t.New(lib, vault, feebump, lockTime).Done?
    ensures BaseFees(lib, t.Feerate(), vault, t.Spk(lib), lockTime).Done?
    ensures var psbt := t.New(lib, vault, feebump, lockTime).value;
            && (Parses(lib, t.TheKind(), psbt) <==> Parseable(lib, t, vault, feebump, lockTime))
            && (Parseable(lib, t, vault, feebump, lockTime) ==> Parses(lib, t.TheKind(), Run(lib, psbt, events)))
  {
    var psbt := t.New(lib, vault, feebump, lockTime).value;
    NewShape(lib, t, vault, feebump, lockTime);
    NewInputs(lib, t, vault, feebump, lockTime);
    NewBalance(lib, t, vault, feebump, lockTime);
    DistinctOutPoints(lib, t, vault, feebump, lockTime);
    if t.CancelTo? { P2wshShape(lib, t.deposit.script); }
    P2wshDust(t.Spk(lib));
    assert (forall o | o in psbt.tx.output :: SaneOutput(o)) <==> SaneOutput(psbt.tx.output[0]);
    ParsesSurvives(lib, t.TheKind(), psbt, events);
  }

  lemma NewBalance(lib: Library, t: Target, vault: InternalTxIn, feebump: Option<FeeBumpTxIn>, lockTime: nat)
    requires t.New(lib, vault, feebump, lockTime).Done?
    ensures BaseFees(lib, t.Feerate(), vault, t.Spk(lib), lockTime).Done?
    ensures var psbt := t.New(lib, vault, feebump, lockTime).value;
            SaneBalance(psbt) <==>
            BaseFees(lib, t.Feerate(), vault, t.Spk(lib), lockTime).value + FeeBumpValue(feebump) <= MAX_MONEY
  {
    NewConserves(lib, t, vault, feebump, lockTime);
  }

  lemma DistinctOutPoints(lib: Library, t: Target, vault: InternalTxIn, feebump: Option<FeeBumpTxIn>, lockTime: nat)
    requires t.New(lib, vault, feebump, lockTime).Done?
    ensures NoDuplicates(OutPoints(t.New(lib, vault, feebump, lockTime).value.tx)) <==>
            (feebump.Some? ==> feebump.value.outpoint != vault.outpoint)
  {
    var psbt := t.New(lib, vault, feebump, lockTime).value;
    NewShape(lib, t, vault, feebump, lockTime);
    if feebump.Some? {
      assert OutPoints(psbt.tx)[0] == vault.outpoint && OutPoints(psbt.tx)[1] == feebump.value.outpoint;
    }
  }

  // ----- signatures are reusable

  function VaultPreimage(psbt: Psbt, vault: InternalTxIn, ty: SigHashType): SigPreimage
    requires psbt.tx.input != []
  {
    Preimage(psbt.tx, 0, vault.txout.witnessScript, vault.txout.txout.value, ty)
  }

  /** Two transactions built alike but for the fee-bump have the same outputs and the same preimage for the vault
      input, so exactly the same signatures are accepted for it on both. Under `ALL` the preimages would agree only
      with the same fee-bump coin. */
  lemma SignaturesAreReusable(lib: Library, t: Target, vault: InternalTxIn, fb: Option<FeeBumpTxIn>,
                              fc: Option<FeeBumpTxIn>, lockTime: nat, pubkey: PublicKey, signature: Signature)
    requires ValidTxOut(lib, vault.txout)
    requires t.New(lib, vault, fb, lockTime).Done? && t.New(lib, vault, fc, lockTime).Done?
    ensures var a, b := t.New(lib, vault, fb, lockTime).value, t.New(lib, vault, fc, lockTime).value;
            && a.tx.output == b.tx.output && a.outputs == b.outputs
            && a.tx.input != [] && b.tx.input != []
            && VaultPreimage(a, vault, AllPlusAnyoneCanPay) == VaultPreimage(b, vault, AllPlusAnyoneCanPay)
            && (TryAddSignature(lib, a, 0, pubkey, signature).Done? <==>
                TryAddSignature(lib, b, 0, pubkey, signature).Done?)
            && (VaultPreimage(a, vault, All) == VaultPreimage(b, vault, All) <==>
                (fb.Some? == fc.Some? && (fb.Some? ==> fb.value.outpoint == fc.value.outpoint)))
  {
    NewShape(lib, t, vault, fb, lockTime);
    NewShape(lib, t, vault, fc, lockTime);
    SameOutputs(lib, t, vault, fb, fc, lockTime);
    SameVerdict(lib, t, vault, fb, fc, lockTime, pubkey, signature);
    var txo := t.New(lib, vault, fb, lockTime).value.tx.output[0];
    var psbtOut := t.New(lib, vault, fb, lockTime).value.outputs[0];
    PreimagesOf(vault, fb, fc, txo, psbtOut, lockTime);
  }

  /** Input 0 of the two transactions commits to the same data, and under `ALL` also to the fee-bump coin. */
  lemma PreimagesOf(vault: InternalTxIn, fb: Option<FeeBumpTxIn>, fc: Option<FeeBumpTxIn>, txo: TxOut, psbtOut: PsbtOut,
                    lockTime: nat)
    ensures var a, b := CreatePsbt(vault, fb, txo, psbtOut, lockTime), CreatePsbt(vault, fc, txo, psbtOut, lockTime);
            && VaultPreimage(a, vault, AllPlusAnyoneCanPay) == VaultPreimage(b, vault, AllPlusAnyoneCanPay)
            && (VaultPreimage(a, vault, All) == VaultPreimage(b, vault, All) <==>
                (fb.Some? == fc.Some? && (fb.Some? ==> fb.value.outpoint == fc.value.outpoint)))
  {
    var a, b := CreatePsbt(vault, fb, txo, psbtOut, lockTime), CreatePsbt(vault, fc, txo, psbtOut, lockTime);
    AllCommitsToInputs(a.tx, b.tx, vault.txout.witnessScript, vault.txout.txout.value);
    SameInputs(vault, fb, fc, txo, psbtOut, lockTime);
  }

  lemma SameInputs(vault: InternalTxIn, fb: Option<FeeBumpTxIn>, fc: Option<FeeBumpTxIn>, txo: TxOut, psbtOut: PsbtOut,
                   lockTime: nat)
    ensures CreatePsbt(vault, fb, txo, psbtOut, lockTime).tx.input ==
            CreatePsbt(vault, fc, txo, psbtOut, lockTime).tx.input
            <==> fb.Some? == fc.Some? && (fb.Some? ==> fb.value.outpoint == fc.value.outpoint)
  {
    var a, b := CreatePsbt(vault, fb, txo, psbtOut, lockTime).tx, CreatePsbt(vault, fc, txo, psbtOut, lockTime).tx;
    if fb.Some? && fc.Some? {
      assert a.input[1] == fb.value.Unsigned() && b.input[1] == fc.value.Unsigned();
    } else {
      assert |a.input| == if fb.Some? then 2 else 1;
      assert |b.input| == if fc.Some? then 2 else 1;
    }
  }

  lemma SameVerdict(lib: Library, t: Target, vault: InternalTxIn, fb: Option<FeeBumpTxIn>, fc: Option<FeeBumpTxIn>,
                    lockTime: nat, pubkey: PublicKey, signature: Signature)
    requires ValidTxOut(lib, vault.txout)
    requires t.New(lib, vault, fb, lockTime).Done? && t.New(lib, vault, fc, lockTime).Done?
    ensures TryAddSignature(lib, t.New(lib, vault, fb, lockTime).value, 0, pubkey, signature).Done? <==>
            TryAddSignature(lib, t.New(lib, vault, fc, lockTime).value, 0, pubkey, signature).Done?
  {
    NewShape(lib, t, vault, fb, lockTime);
    NewShape(lib, t, vault, fc, lockTime);
    SameOutputs(lib, t, vault, fb, fc, lockTime);
    var txo := t.New(lib, vault, fb, lockTime).value.tx.output[0];
    var psbtOut := t.New(lib, vault, fb, lockTime).value.outputs[0];
    CreatedVerdict(lib, vault, fb, txo, psbtOut, lockTime, pubkey, signature);
    CreatedVerdict(lib, vault, fc, txo, psbtOut, lockTime, pubkey, signature);
    PreimagesOf(vault, fb, fc, txo, psbtOut, lockTime);
  }

  /** A signature for the vault input is accepted exactly when it verifies over its preimage. */
  lemma CreatedVerdict(lib: Library, vault: InternalTxIn, feebump: Option<FeeBumpTxIn>, txo: TxOut, psbtOut: PsbtOut,
                       lockTime: nat, pubkey: PublicKey, signature: Signature)
    requires ValidTxOut(lib, vault.txout)
    ensures var psbt := CreatePsbt(vault, feebump, txo, psbtOut, lockTime);
            TryAddSignature(lib, psbt, 0, pubkey, signature).Done? <==>
            (lib.verify)((lib.sighash)(VaultPreimage(psbt, vault, AllPlusAnyoneCanPay)), signature, pubkey)
  {
    P2wshShape(lib, vault.txout.witnessScript);
  }

  lemma SameOutputs(lib: Library, t: Target, vault: InternalTxIn, fb: Option<FeeBumpTxIn>, fc: Option<FeeBumpTxIn>,
                    lockTime: nat)
    requires t.New(lib, vault, fb, lockTime).Done? && t.New(lib, vault, fc, lockTime).Done?
    ensures t.New(lib, vault, fb, lockTime).value.tx.output == t.New(lib, vault, fc, lockTime).value.tx.output
    ensures t.New(lib, vault, fb, lockTime).value.outputs == t.New(lib, vault, fc, lockTime).value.outputs
  {
  }

  /** A preimage under `ALL` determines the inputs. */
  lemma AllCommitsToInputs(a: Transaction, b: Transaction, scriptCode: Script, value: nat)
    requires a.input != [] && b.input != []
    requires a.version == b.version && a.lockTime == b.lockTime && a.output == b.output
    ensures Preimage(a, 0, scriptCode, value, All) == Preimage(b, 0, scriptCode, value, All) <==> a.input == b.input
  {
    var p, q := Preimage(a, 0, scriptCode, value, All), Preimage(b, 0, scriptCode, value, All);
    if p == q {
      assert |p.prevouts.value| == |q.prevouts.value|;
      forall i | 0 <= i < |a.input| ensures a.input[i] == b.input[i] {
        assert p.prevouts.value[i] == q.prevouts.value[i];
        assert p.sequences.value[i] == q.sequences.value[i];
      }
    }
  }
}
