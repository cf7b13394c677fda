/** The Spend transaction: any number of Unvault outputs in; a CPFP output, payments and maybe a change out. */
module Spending {
  import opened Wrappers
  import opened Sums
  import opened Bitcoin
  import opened TxOuts
  import opened Validation
  import opened Signing
  import opened Parsing
  import opened Creation

  // ----- what is built

  function SpendInput(t: InternalTxIn): PsbtIn { VaultInput(t.txout, All) }

  function PlainOutput(o: TxOut): PsbtOut { EmptyPsbtOut }

  /** The payments and the change, without the CPFP output. */
  function Payments(spends: seq<TxOut>, change: Option<InternalTxOut>): seq<TxOut> {
    spends + (if change.Some? then [change.value.txout] else [])
  }

  function UnsignedTx(unvaults: seq<InternalTxIn>, cpfp: TxOut, payments: seq<TxOut>, lockTime: nat): Transaction {
    Transaction(TX_VERSION, lockTime, Image(UnsignedInput, unvaults), [cpfp] + payments)
  }

  function CpfpValue(lib: Library, unvaults: seq<InternalTxIn>, payments: seq<TxOut>, cpfp: DerivedDescriptor,
                     lockTime: nat): nat {
    var dummyTx := UnsignedTx(unvaults, NewTxOut(lib, U64_MAX, cpfp).txout, payments, lockTime);
    16 * (Weight(dummyTx) + SumBy(TxinSat(lib), unvaults))
  }

  /** Panics when the value does not fit 64 bits. */
  function CpfpTxout(lib: Library, unvaults: seq<InternalTxIn>, payments: seq<TxOut>, cpfp: DerivedDescriptor,
                     lockTime: nat)
    : Outcome<InternalTxOut, CreationError>
  {
    var value := CpfpValue(lib, unvaults, payments, cpfp, lockTime);
    if value > U64_MAX then Panics else Done(NewTxOut(lib, value, cpfp))
  }

  function SpendPsbt(unvaults: seq<InternalTxIn>, cpfpTxo: InternalTxOut, spends: seq<TxOut>,
                     change: Option<InternalTxOut>, lockTime: nat)
    : Psbt
  {
    Psbt(
      UnsignedTx(unvaults, cpfpTxo.txout, Payments(spends, change), lockTime),
      Image(SpendInput, unvaults),
      [DerivedOutput(cpfpTxo.bip32Derivation)] + Image(PlainOutput, spends)
      + (if change.Some? then [DerivedOutput(change.value.bip32Derivation)] else []))
  }

  /** What a Spend says: it spends each Unvault coin with that coin's sequence, in order, and pays to the CPFP
      descriptor, then to the destinations, of which nothing is said, then to the change. */
  ghost predicate SpendsAndPays(lib: Library, psbt: Psbt, unvaults: seq<InternalTxIn>, spends: seq<TxOut>,
                                change: Option<InternalTxOut>, cpfp: DerivedDescriptor, lockTime: nat)
  {
    && psbt.tx.version == 2 && psbt.tx.lockTime == lockTime
    && |psbt.tx.input| == |psbt.inputs| == |unvaults|
    && (forall k | 0 <= k < |unvaults| :: SpendsCoin(psbt.tx.input[k], psbt.inputs[k], unvaults[k], All))
    && |psbt.tx.output| == |psbt.outputs| == 1 + |spends| + (if change.Some? then 1 else 0)
    && PaysTo(lib, psbt.tx.output[0], psbt.outputs[0], cpfp)
    && (forall k | 0 <= k < |spends| :: psbt.tx.output[1 + k] == spends[k] && Undescribed(psbt.outputs[1 + k]))
    && (change.Some? ==>
          var last := 1 + |spends|;
          && psbt.tx.output[last] == change.value.txout
          && psbt.outputs[last].bip32Derivation == change.value.bip32Derivation
          && psbt.outputs[last].redeemScript == None && psbt.outputs[last].witnessScript == None)
  }

  lemma SpendPsbtIs(lib: Library, unvaults: seq<InternalTxIn>, value: u64, cpfp: DerivedDescriptor, spends: seq<TxOut>,
                    change: Option<InternalTxOut>, lockTime: nat)
    ensures SpendsAndPays(lib, SpendPsbt(unvaults, NewTxOut(lib, value, cpfp), spends, change, lockTime),
                          unvaults, spends, change, cpfp, lockTime)
  {
    var psbt := SpendPsbt(unvaults, NewTxOut(lib, value, cpfp), spends, change, lockTime);
    NewTxOutIs(lib, value, cpfp);
    InputsAre(unvaults, psbt.tx.input, psbt.inputs);
    OutputsAre(NewTxOut(lib, value, cpfp), spends, change, psbt.tx.output, psbt.outputs);
  }

  lemma InputsAre(unvaults: seq<InternalTxIn>, input: seq<TxIn>, inputs: seq<PsbtIn>)
    requires input == Image(UnsignedInput, unvaults) && inputs == Image(SpendInput, unvaults)
    ensures |input| == |inputs| == |unvaults|
    ensures forall k | 0 <= k < |unvaults| :: SpendsCoin(input[k], inputs[k], unvaults[k], All)
  {
    forall k | 0 <= k < |unvaults| ensures SpendsCoin(input[k], inputs[k], unvaults[k], All) {
      assert input[k] == UnsignedInput(unvaults[k]) && inputs[k] == SpendInput(unvaults[k]);
    }
  }

  lemma OutputsAre(cpfpTxo: InternalTxOut, spends: seq<TxOut>, change: Option<InternalTxOut>, output: seq<TxOut>,
                   outputs: seq<PsbtOut>)
    requires output == [cpfpTxo.txout] + Payments(spends, change)
    requires outputs == [DerivedOutput(cpfpTxo.bip32Derivation)] + Image(PlainOutput, spends)
                        + (if change.Some? then [DerivedOutput(change.value.bip32Derivation)] else [])
    ensures |output| == |outputs| == 1 + |spends| + (if change.Some? then 1 else 0)
    ensures output[0] == cpfpTxo.txout && outputs[0] == PsbtOut(None, None, cpfpTxo.bip32Derivation)
    ensures forall k | 0 <= k < |spends| :: output[1 + k] == spends[k] && Undescribed(outputs[1 + k])
    ensures change.Some? ==>
              && output[1 + |spends|] == change.value.txout
              && outputs[1 + |spends|] == PsbtOut(None, None, change.value.bip32Derivation)
  {
    forall k | 0 <= k < |spends| ensures output[1 + k] == spends[k] && Undescribed(outputs[1 + k]) {
      assert outputs[1 + k] == PlainOutput(spends[k]);
    }
  }

  predicate AboveDust(o: TxOut) { DustValue(o.scriptPubkey) <= o.value }

  /** When a Spend is built. The value of the CPFP output takes no part in it. */
  ghost predicate Buildable(lib: Library, unvaults: seq<InternalTxIn>, payments: seq<TxOut>,
                            cpfp: DerivedDescriptor, lockTime: nat, insaneFeeCheck: bool)
  {
    var spent, paid := SumBy(TxinValue, unvaults), SumBy(TxOutValue, payments);
    && NoDuplicates(Image(TxinPoint, unvaults))
    && (forall o | o in payments :: AboveDust(o))
    && CpfpValue(lib, unvaults, payments, cpfp, lockTime) <= 16 * 400_000
    && paid <= 2_100_000_000_000_000 && paid <= spent <= 0xffff_ffff_ffff_ffff
    && (insaneFeeCheck ==> spent - paid <= 20_000_000)
  }

  /** The error is that of the first check that fails, in this order. */
  ghost predicate CreationBlames(lib: Library, unvaults: seq<InternalTxIn>, payments: seq<TxOut>,
                                 cpfp: DerivedDescriptor, lockTime: nat, insaneFeeCheck: bool, e: CreationError)
  {
    var spent, paid := SumBy(TxinValue, unvaults), SumBy(TxOutValue, payments);
    e == if !NoDuplicates(Image(TxinPoint, unvaults)) then CreationError.DuplicatedInput
         else if exists o :: o in payments && !AboveDust(o) then Dust
         else if CpfpValue(lib, unvaults, payments, cpfp, lockTime) > 16 * 400_000 then TooLarge
         else if paid > 2_100_000_000_000_000 then CreationError.InsaneAmounts
         else if paid > spent then NegativeFees
         else InsaneFees
  }

  /** The outputs, then the inputs, are pushed one by one, with running sums that may overflow. */
  method New(lib: Library, unvaults: seq<InternalTxIn>, spends: seq<TxOut>, change: Option<InternalTxOut>,
             cpfp: DerivedDescriptor, lockTime: nat, insaneFeeCheck: bool) returns (r: Outcome<Psbt, CreationError>)
    requires forall t | t in unvaults :: ValidTxOut(lib, t.txout)
    ensures r.Done? <==> Buildable(lib, unvaults, Payments(spends, change), cpfp, lockTime, insaneFeeCheck)
    ensures r.Done? ==>
              && CpfpTxout(lib, unvaults, Payments(spends, change), cpfp, lockTime).Done?
              && r.value ==
                 SpendPsbt(unvaults, CpfpTxout(lib, unvaults, Payments(spends, change), cpfp, lockTime).value,
                                      spends, change, lockTime)
    ensures r.Done? ==> SpendsAndPays(lib, r.value, unvaults, spends, change, cpfp, lockTime)
    ensures r.Fails? ==>
              CreationBlames(lib, unvaults, Payments(spends, change), cpfp, lockTime, insaneFeeCheck, r.error)
    ensures r.Panics? ==>
              || SumBy(TxinValue, unvaults) > U64_MAX || SumBy(TxOutValue, Payments(spends, change)) > U64_MAX
              || CpfpValue(lib, unvaults, Payments(spends, change), cpfp, lockTime) > U64_MAX
  {
    var uniqTxins := Elements(Image(TxinPoint, unvaults));
    DuplicateTest(Image(TxinPoint, unvaults));
    if |uniqTxins| != |unvaults| {
      return Fails(CreationError.DuplicatedInput);
    }
    var satWeight := SumBy(TxinSat(lib), unvaults);
    var assembled := Assemble(lib, unvaults, spends, change, cpfp, lockTime);
    if !assembled.Done? {
      return assembled.PropagateFailure();
    }
    var (psbt, valueIn, valueOut) := assembled.value;
    var checked := CheckTotals(Weight(psbt.tx) + satWeight, valueIn, valueOut, insaneFeeCheck);
    if checked.Err? {
      return Fails(checked.error);
    }
    return Done(psbt);
  }

  /** The CPFP output first, then the pushes; and what is spent and paid. */
  method Assemble(lib: Library, unvaults: seq<InternalTxIn>, spends: seq<TxOut>, change: Option<InternalTxOut>,
                  cpfp: DerivedDescriptor, lockTime: nat) returns (r: Outcome<(Psbt, u64, u64), CreationError>)
    ensures r.Done? ==>
              && (forall o | o in Payments(spends, change) :: AboveDust(o))
              && CpfpTxout(lib, unvaults, Payments(spends, change), cpfp, lockTime).Done?
              && r.value.0 ==
                 SpendPsbt(unvaults, CpfpTxout(lib, unvaults, Payments(spends, change), cpfp, lockTime).value,
                           spends, change, lockTime)
              && SpendsAndPays(lib, r.value.0, unvaults, spends, change, cpfp, lockTime)
              && CpfpValue(lib, unvaults, Payments(spends, change), cpfp, lockTime) ==
                 16 * (Weight(r.value.0.tx) + SumBy(TxinSat(lib), unvaults))
              && r.value.1 == SumBy(TxinValue, unvaults) && r.value.2 == SumBy(TxOutValue, Payments(spends, change))
    ensures r.Fails? ==> r.error == Dust && !forall o | o in Payments(spends, change) :: AboveDust(o)
    ensures r.Panics? ==>
              || SumBy(TxinValue, unvaults) > U64_MAX || SumBy(TxOutValue, Payments(spends, change)) > U64_MAX
              || CpfpValue(lib, unvaults, Payments(spends, change), cpfp, lockTime) > U64_MAX
  {
    var cpfpTxo :- CpfpTxout(lib, unvaults, Payments(spends, change), cpfp, lockTime);
    var pushed :- PushAll(unvaults, cpfpTxo, spends, change, lockTime);
    DummyWeight(lib, unvaults, cpfpTxo.txout.value, Payments(spends, change), cpfp, lockTime);
    SpendPsbtIs(lib, unvaults, cpfpTxo.txout.value, cpfp, spends, change, lockTime);
    return Done(pushed);
  }

  method PushAll(unvaults: seq<InternalTxIn>, cpfpTxo: InternalTxOut, spends: seq<TxOut>, change: Option<InternalTxOut>,
                 lockTime: nat) returns (r: Outcome<(Psbt, u64, u64), CreationError>)
    ensures r.Done? ==>
              && (forall o | o in Payments(spends, change) :: AboveDust(o))
              && r.value == (SpendPsbt(unvaults, cpfpTxo, spends, change, lockTime),
                             SumBy(TxinValue, unvaults), SumBy(TxOutValue, Payments(spends, change)))
    ensures r.Fails? ==> r.error == Dust && !forall o | o in Payments(spends, change) :: AboveDust(o)
    ensures r.Panics? ==>
              SumBy(TxinValue, unvaults) > U64_MAX || SumBy(TxOutValue, Payments(spends, change)) > U64_MAX
  {
    PaymentSums(spends, change);
    var paid :- PushSpends(cpfpTxo, spends);
    var outputs :- PushChange(paid.0, paid.1, paid.2, change);
    var inputs :- PushInputs(unvaults);
    var (txos, psbtouts, valueOut) := outputs;
    var (psbtins, valueIn) := inputs;
    Assembled(unvaults, cpfpTxo, spends, change, lockTime);
    var psbt := Psbt(Transaction(TX_VERSION, lockTime, Image(UnsignedInput, unvaults), txos), psbtins, psbtouts);
    return Done((psbt, valueIn, valueOut));
  }

  /** The last checks: not a transaction too large to be relayed, sane amounts, and fees that exist and are sane. */
  method CheckTotals(totalWeight: nat, valueIn: nat, valueOut: nat, insaneFeeCheck: bool)
    returns (r: Result<(), CreationError>)
    ensures r.Ok? <==>
              && totalWeight <= 400_000 && valueOut <= 2_100_000_000_000_000 && valueOut <= valueIn
              && (insaneFeeCheck ==> valueIn - valueOut <= 20_000_000)
    ensures r.Err? ==>
              r.error == if totalWeight > 400_000 then TooLarge
                         else if valueOut > 2_100_000_000_000_000 then CreationError.InsaneAmounts
                         else if valueOut > valueIn then NegativeFees
                         else InsaneFees
  {
    if totalWeight > MAX_STANDARD_TX_WEIGHT {
      return Err(TooLarge);
    }
    if valueOut > MAX_MONEY {
      return Err(CreationError.InsaneAmounts);
    }
    if valueOut > valueIn {
      return Err(NegativeFees);
    }
    if insaneFeeCheck && valueIn - valueOut > INSANE_FEES {
      return Err(InsaneFees);
    }
    return Ok(());
  }

  method PushSpends(cpfpTxo: InternalTxOut, spends: seq<TxOut>)
    returns (r: Outcome<(seq<TxOut>, seq<PsbtOut>, u64), CreationError>)
    ensures r.Done? ==>
              && r.value.0 == [cpfpTxo.txout] + spends
              && r.value.1 == [DerivedOutput(cpfpTxo.bip32Derivation)] + Image(PlainOutput, spends)
              && r.value.2 == SumBy(TxOutValue, spends)
              && forall o | o in spends :: AboveDust(o)
    ensures r.Fails? ==> r.error == Dust && !forall o | o in spends :: AboveDust(o)
    ensures r.Panics? ==> SumBy(TxOutValue, spends) > U64_MAX
  {
    var valueOut := 0;
    var txos, psbtouts := [cpfpTxo.txout], [DerivedOutput(cpfpTxo.bip32Derivation)];
    for k := 0 to |spends|
      invariant forall j | 0 <= j < k :: AboveDust(spends[j])
      invariant valueOut == SumTo(TxOutValue, spends, k) <= U64_MAX
      invariant |txos| == k + 1 && txos[0] == cpfpTxo.txout && forall j | 1 <= j <= k :: txos[j] == spends[j - 1]
      invariant |psbtouts| == k + 1 && psbtouts[0] == DerivedOutput(cpfpTxo.bip32Derivation)
      invariant forall j | 1 <= j <= k :: psbtouts[j] == EmptyPsbtOut
    {
      var txo := spends[k];
      assert txo in spends;
      if txo.value < DustValue(txo.scriptPubkey) {
        return Fails(Dust);
      }
      if valueOut + txo.value > U64_MAX {
        PartialSum(TxOutValue, spends, k + 1);
        return Panics;
      }
      valueOut := valueOut + txo.value;
      txos := txos + [txo];
      psbtouts := psbtouts + [EmptyPsbtOut];
    }
    ConsIs(txos, cpfpTxo.txout, spends);
    PlainOutputs(psbtouts, DerivedOutput(cpfpTxo.bip32Derivation), spends);
    return Done((txos, psbtouts, valueOut));
  }

  lemma PlainOutputs(psbtouts: seq<PsbtOut>, first: PsbtOut, spends: seq<TxOut>)
    requires |psbtouts| == |spends| + 1 && psbtouts[0] == first
    requires forall j | 1 <= j <= |spends| :: psbtouts[j] == EmptyPsbtOut
    ensures psbtouts == [first] + Image(PlainOutput, spends)
  {
    var image := Image(PlainOutput, spends);
    forall j | 0 <= j < |spends| ensures image[j] == EmptyPsbtOut {
      assert image[j] == PlainOutput(spends[j]);
    }
    ConsIs(psbtouts, first, image);
  }

  method PushChange(txos: seq<TxOut>, psbtouts: seq<PsbtOut>, valueOut: u64, change: Option<InternalTxOut>)
    returns (r: Outcome<(seq<TxOut>, seq<PsbtOut>, u64), CreationError>)
    ensures change.None? ==> r == Done((txos, psbtouts, valueOut))
    ensures change.Some? ==>
              var txo := change.value.txout;
              r == if !AboveDust(txo) then Fails(Dust)
                   else if valueOut + txo.value > U64_MAX then Panics
                   else Done((txos + [txo], psbtouts + [DerivedOutput(change.value.bip32Derivation)],
                              valueOut + txo.value))
  {
    if change.None? {
      return Done((txos, psbtouts, valueOut));
    }
    var txo := change.value.txout;
    if txo.value < DustValue(txo.scriptPubkey) {
      return Fails(Dust);
    }
    if valueOut + txo.value > U64_MAX {
      return Panics;
    }
    return Done((txos + [txo], psbtouts + [DerivedOutput(change.value.bip32Derivation)], valueOut + txo.value));
  }

  /** The vectors the pushes leave are the PSBT meant. */
  lemma Assembled(unvaults: seq<InternalTxIn>, cpfpTxo: InternalTxOut, spends: seq<TxOut>,
                  change: Option<InternalTxOut>, lockTime: nat)
    ensures var txos := [cpfpTxo.txout] + spends;
            var outs := [DerivedOutput(cpfpTxo.bip32Derivation)] + Image(PlainOutput, spends);
            SpendPsbt(unvaults, cpfpTxo, spends, change, lockTime) ==
            Psbt(Transaction(TX_VERSION, lockTime, Image(UnsignedInput, unvaults),
                             if change.Some? then txos + [change.value.txout] else txos),
                 Image(SpendInput, unvaults),
                 if change.Some? then outs + [DerivedOutput(change.value.bip32Derivation)] else outs)
  {
    var psbt := SpendPsbt(unvaults, cpfpTxo, spends, change, lockTime);
    var txos := [cpfpTxo.txout] + spends;
    assert psbt.tx.output == if change.Some? then txos + [change.value.txout] else txos;
  }

  lemma PaymentSums(spends: seq<TxOut>, change: Option<InternalTxOut>)
    ensures SumBy(TxOutValue, Payments(spends, change)) ==
            SumBy(TxOutValue, spends) + (if change.Some? then change.value.txout.value else 0)
    ensures (forall o | o in Payments(spends, change) :: AboveDust(o)) <==>
            (forall o | o in spends :: AboveDust(o)) && (change.Some? ==> AboveDust(change.value.txout))
  {
    if change.Some? {
      SumBySnoc(TxOutValue, spends, change.value.txout);
    } else {
      assert Payments(spends, change) == spends;
    }
    forall o | o in spends || (change.Some? && o == change.value.txout) ensures o in Payments(spends, change) {
      if o in spends {
        var k :| 0 <= k < |spends| && spends[k] == o;
        assert Payments(spends, change)[k] == o;
      } else {
        assert Payments(spends, change)[|spends|] == o;
      }
    }
  }

  method PushInputs(unvaults: seq<InternalTxIn>) returns (r: Outcome<(seq<PsbtIn>, nat), CreationError>)
    ensures !r.Fails?
    ensures r.Done? <==> SumBy(TxinValue, unvaults) <= U64_MAX
    ensures r.Done? ==> r.value == (Image(SpendInput, unvaults), SumBy(TxinValue, unvaults))
  {
    var valueIn, psbtins := 0, [];
    for k := 0 to |unvaults|
      invariant valueIn == SumTo(TxinValue, unvaults, k) <= U64_MAX
      invariant |psbtins| == k && forall j | 0 <= j < k :: psbtins[j] == SpendInput(unvaults[j])
    {
      if valueIn + unvaults[k].txout.txout.value > U64_MAX {
        PartialSum(TxinValue, unvaults, k + 1);
        return Panics;
      }
      valueIn := valueIn + unvaults[k].txout.txout.value;
      psbtins := psbtins + [VaultInput(unvaults[k].txout, All)];
    }
    assert psbtins == Image(SpendInput, unvaults);
    return Done((psbtins, valueIn));
  }

  /** The dummy with the largest CPFP amount weighs what the real transaction weighs. */
  lemma DummyWeight(lib: Library, unvaults: seq<InternalTxIn>, value: u64, payments: seq<TxOut>,
                    cpfp: DerivedDescriptor, lockTime: nat)
    ensures var tx := UnsignedTx(unvaults, NewTxOut(lib, value, cpfp).txout, payments, lockTime);
            CpfpValue(lib, unvaults, payments, cpfp, lockTime) == 16 * (Weight(tx) + SumBy(TxinSat(lib), unvaults))
  {
    WeightIgnoresValues(UnsignedTx(unvaults, NewTxOut(lib, U64_MAX, cpfp).txout, payments, lockTime),
                        UnsignedTx(unvaults, NewTxOut(lib, value, cpfp).txout, payments, lockTime));
  }

  // ----- max_weight

  function InputWeightOrZero(lib: Library, final: bool): PsbtIn -> nat {
    (i: PsbtIn) => if InputWeight(lib, final, i).Some? then InputWeight(lib, final, i).value else 0
  }

  /** `None` when an `expect` of `max_weight` fires. */
  function MaxWeightOf(lib: Library, psbt: Psbt): Option<nat> {
    var total := Weight(psbt.tx) + SumBy(InputWeightOrZero(lib, IsFinalized(psbt)), psbt.inputs);
    if (forall i | i in psbt.inputs :: InputWeight(lib, IsFinalized(psbt), i).Some?) && total <= U64_MAX
    then Some(total)
    else None
  }

  method MaxWeight(lib: Library, psbt: Psbt) returns (r: Option<nat>)
    requires Weight(psbt.tx) <= U64_MAX
    ensures r == MaxWeightOf(lib, psbt)
  {
    var final := IsFinalized(psbt);
    var f := InputWeightOrZero(lib, final);
    var weight := Weight(psbt.tx);
    for k := 0 to |psbt.inputs|
      invariant forall j | 0 <= j < k :: InputWeight(lib, final, psbt.inputs[j]).Some?
      invariant weight == Weight(psbt.tx) + SumTo(f, psbt.inputs, k) <= U64_MAX
    {
      var txin := psbt.inputs[k];
      assert txin in psbt.inputs;
      var txinWeight := InputWeight(lib, final, txin);
      if txinWeight.None? {
        return None;
      }
      if weight + txinWeight.value > U64_MAX {
        PartialSum(f, psbt.inputs, k + 1);
        return None;
      }
      weight := weight + txinWeight.value;
    }
    assert weight > 0;
    return Some(weight);
  }

  /** A Spend whose satisfactions can all be estimated and stay within standardness. */
  ghost predicate Standard(lib: Library, psbt: Psbt) {
    KindInputs(lib, Spend, psbt.inputs) && FullWeight(lib, psbt) <= 400_000
  }

  lemma MaxWeightIsFullWeight(lib: Library, psbt: Psbt)
    requires Standard(lib, psbt) && !IsFinalized(psbt)
    ensures MaxWeightOf(lib, psbt) == Some(FullWeight(lib, psbt))
  {
    forall k | 0 <= k < |psbt.inputs|
      ensures InputWeightOrZero(lib, false)(psbt.inputs[k]) == PendingWeight(lib)(psbt.inputs[k])
    {
      assert psbt.inputs[k] in psbt.inputs;
    }
    SumByCongruent(InputWeightOrZero(lib, false), psbt.inputs, PendingWeight(lib), psbt.inputs);
  }

  /** Through any run, as long as a standard Spend is not final its `max_weight` is defined and standard. */
  lemma MaxWeightStaysStandard(lib: Library, psbt: Psbt, events: seq<Event>)
    requires Standard(lib, psbt)
    ensures var now := Run(lib, psbt, events);
            !IsFinalized(now) ==> MaxWeightOf(lib, now).Some? && MaxWeightOf(lib, now).value <= 400_000
  {
    var now := Run(lib, psbt, events);
    RunEvolves(lib, psbt, events);
    if !IsFinalized(now) {
      forall k | 0 <= k < |psbt.inputs|
        ensures KindInput(lib, Spend, now.inputs[k])
        ensures PendingWeight(lib)(now.inputs[k]) <= PendingWeight(lib)(psbt.inputs[k])
      {
        assert now.inputs[k] in now.inputs && psbt.inputs[k] in psbt.inputs;
      }
      SumByMonotone(PendingWeight(lib), now.inputs, psbt.inputs);
      MaxWeightIsFullWeight(lib, now);
    }
  }

  // ----- what a constructed Spend satisfies

  /** The PSBT `New` returns; `cpfpTxo` is the output `CpfpTxout` computes. */
  ghost predicate Built(lib: Library, psbt: Psbt, unvaults: seq<InternalTxIn>, spends: seq<TxOut>,
                        change: Option<InternalTxOut>, cpfp: DerivedDescriptor, lockTime: nat)
  {
    && (forall t | t in unvaults :: ValidTxOut(lib, t.txout))
    && (change.Some? ==> ValidTxOut(lib, change.value))
    && ValidDescriptor(lib, cpfp)
    && Buildable(lib, unvaults, Payments(spends, change), cpfp, lockTime, false)
    && CpfpTxout(lib, unvaults, Payments(spends, change), cpfp, lockTime).Done?
    && psbt == SpendPsbt(unvaults, CpfpTxout(lib, unvaults, Payments(spends, change), cpfp, lockTime).value,
                         spends, change, lockTime)
  }

  lemma SpendInputIsGood(lib: Library, t: InternalTxIn)
    requires ValidTxOut(lib, t.txout)
    ensures var i := SpendInput(t);
            && KindInput(lib, Spend, i) && !Final(i) && InputInv(lib, Spend, i)
            && (SaneInput(lib, i) <==> t.txout.txout.value <= MAX_MONEY)
            && SpentValue(i) == TxinValue(t)
            && PendingWeight(lib)(i) == TxinSat(lib)(t)
  {
    VaultInputIsGood(lib, t.txout, All);
  }

  lemma SpendInputsGood(lib: Library, unvaults: seq<InternalTxIn>)
    requires forall t | t in unvaults :: ValidTxOut(lib, t.txout)
    ensures var inputs := Image(SpendInput, unvaults);
            && KindInputs(lib, Spend, inputs)
            && (forall i | i in inputs :: !Final(i) && InputInv(lib, Spend, i))
            && ((forall i | i in inputs :: SaneInput(lib, i)) <==>
                forall t | t in unvaults :: t.txout.txout.value <= MAX_MONEY)
            && SumBy(SpentValue, inputs) == SumBy(TxinValue, unvaults)
            && SumBy(PendingWeight(lib), inputs) == SumBy(TxinSat(lib), unvaults)
  {
    var inputs := Image(SpendInput, unvaults);
    forall k | 0 <= k < |unvaults|
      ensures KindInput(lib, Spend, inputs[k]) && !Final(inputs[k]) && InputInv(lib, Spend, inputs[k])
      ensures SaneInput(lib, inputs[k]) <==> unvaults[k].txout.txout.value <= MAX_MONEY
      ensures SpentValue(inputs[k]) == TxinValue(unvaults[k])
      ensures PendingWeight(lib)(inputs[k]) == TxinSat(lib)(unvaults[k])
    {
      assert unvaults[k] in unvaults;
      SpendInputIsGood(lib, unvaults[k]);
    }
    SumByCongruent(SpentValue, inputs, TxinValue, unvaults);
    SumByCongruent(PendingWeight(lib), inputs, TxinSat(lib), unvaults);
    if forall i | i in inputs :: SaneInput(lib, i) {
      forall t | t in unvaults ensures t.txout.txout.value <= MAX_MONEY {
        var k :| 0 <= k < |unvaults| && unvaults[k] == t;
        assert inputs[k] in inputs;
      }
    }
  }

  lemma SpentPoints(unvaults: seq<InternalTxIn>)
    ensures Image(SpentPoint, Image(UnsignedInput, unvaults)) == Image(TxinPoint, unvaults)
  {
  }

  lemma BuiltInputs(lib: Library, psbt: Psbt, unvaults: seq<InternalTxIn>)
    requires forall t | t in unvaults :: ValidTxOut(lib, t.txout)
    requires psbt.inputs == Image(SpendInput, unvaults) && psbt.tx.input == Image(UnsignedInput, unvaults)
    ensures KindInputs(lib, Spend, psbt.inputs) && !IsFinalized(psbt)
    ensures Inv(lib, Spend, psbt)
    ensures forall i | i in psbt.inputs :: i.witnessUtxo.Some?
    ensures (forall i | i in psbt.inputs :: SaneInput(lib, i)) <==>
            forall t | t in unvaults :: t.txout.txout.value <= MAX_MONEY
    ensures SumBy(SpentValue, psbt.inputs) == SumBy(TxinValue, unvaults)
    ensures SumBy(PendingWeight(lib), psbt.inputs) == SumBy(TxinSat(lib), unvaults)
    ensures OutPoints(psbt.tx) == Image(TxinPoint, unvaults)
  {
    SpendInputsGood(lib, unvaults);
    SpentPoints(unvaults);
    forall i | i in psbt.inputs ensures i.witnessUtxo.Some? && SpendsP2wsh(i) {
      assert KindInput(lib, Spend, i);
    }
  }

  lemma BuiltOutputs(lib: Library, psbt: Psbt, unvaults: seq<InternalTxIn>, spends: seq<TxOut>,
                     change: Option<InternalTxOut>, cpfp: DerivedDescriptor, lockTime: nat)
    requires Built(lib, psbt, unvaults, spends, change, cpfp, lockTime)
    ensures |psbt.tx.output| == |psbt.outputs| && psbt.tx.output == [psbt.tx.output[0]] + Payments(spends, change)
    ensures psbt.tx.output[0].value == CpfpValue(lib, unvaults, Payments(spends, change), cpfp, lockTime)
    ensures SumBy(TxOutValue, psbt.tx.output) == psbt.tx.output[0].value + SumBy(TxOutValue, Payments(spends, change))
    ensures 1 <= SumBy(HasDerivations, psbt.outputs) <= 2
    ensures forall o | o in psbt.tx.output :: SaneOutput(o)
  {
    var payments := Payments(spends, change);
    SingleSum(TxOutValue, psbt.tx.output[0]);
    SumByAppend(TxOutValue, [psbt.tx.output[0]], payments);
    P2wshShape(lib, cpfp.script);
    forall o | o in payments ensures SaneOutput(o) {
      var k :| 0 <= k < |payments| && payments[k] == o;
      SumByMember(TxOutValue, payments, k);
    }
    forall o | o in psbt.tx.output ensures SaneOutput(o) {
      assert o == psbt.tx.output[0] || o in payments;
    }
    SumByConstant(HasDerivations, Image(PlainOutput, spends), 0);
    SumByAppend(HasDerivations, [psbt.outputs[0]], Image(PlainOutput, spends));
    SingleSum(HasDerivations, psbt.outputs[0]);
    if change.Some? {
      SumBySnoc(HasDerivations, [psbt.outputs[0]] + Image(PlainOutput, spends),
                DerivedOutput(change.value.bip32Derivation));
    } else {
      assert psbt.outputs == [psbt.outputs[0]] + Image(PlainOutput, spends);
    }
  }

  /** The weight fixpoint: the CPFP output of the Spend returned pays 16 sats for every unit of that very Spend's
      `max_weight`, which is standard now and through every run. */
  lemma CpfpFixpoint(lib: Library, psbt: Psbt, unvaults: seq<InternalTxIn>, spends: seq<TxOut>,
                     change: Option<InternalTxOut>, cpfp: DerivedDescriptor, lockTime: nat)
    requires Built(lib, psbt, unvaults, spends, change, cpfp, lockTime)
    ensures Standard(lib, psbt)
    ensures MaxWeightOf(lib, psbt).Some? && psbt.tx.output != []
    ensures psbt.tx.output[0].value == 16 * MaxWeightOf(lib, psbt).value
  {
    BuiltInputs(lib, psbt, unvaults);
    DummyWeight(lib, unvaults, psbt.tx.output[0].value, Payments(spends, change), cpfp, lockTime);
    MaxWeightIsFullWeight(lib, psbt);
  }

  /** `new` forgets the CPFP output in its balance, so the fees of the Spend it returns are defined exactly when the
      inputs also cover that output. */
  lemma BuiltFees(lib: Library, psbt: Psbt, unvaults: seq<InternalTxIn>, spends: seq<TxOut>,
                  change: Option<InternalTxOut>, cpfp: DerivedDescriptor, lockTime: nat)
    requires Built(lib, psbt, unvaults, spends, change, cpfp, lockTime)
    ensures var spent, paid := SumBy(TxinValue, unvaults), SumBy(TxOutValue, Payments(spends, change));
            var cpfpValue := CpfpValue(lib, unvaults, Payments(spends, change), cpfp, lockTime);
            Fees(psbt) == if paid + cpfpValue <= spent then Some(spent - paid - cpfpValue) else None
  {
    var spent, paid := SumBy(TxinValue, unvaults), SumBy(TxOutValue, Payments(spends, change));
    var cpfpValue := CpfpValue(lib, unvaults, Payments(spends, change), cpfp, lockTime);
    BuiltSpent(lib, psbt, unvaults, spends, change, cpfp, lockTime);
    BuiltPaid(lib, psbt, unvaults, spends, change, cpfp, lockTime);
    FeesOf(psbt, spent, paid + cpfpValue);
  }

  /** Paying out all that is spent: the Spend is built, even with the insane fees check, and its fees are undefined. */
  lemma UncoveredCpfp(lib: Library, t: InternalTxIn, cpfp: DerivedDescriptor, lockTime: nat)
    requires ValidTxOut(lib, t.txout) && ValidDescriptor(lib, cpfp)
    requires 330 <= t.txout.txout.value <= MAX_MONEY && 548 + TxinSat(lib)(t) <= MAX_STANDARD_TX_WEIGHT
    ensures var unvaults, spends := [t], [t.txout.txout];
            var value := CpfpValue(lib, unvaults, Payments(spends, None), cpfp, lockTime);
            && Buildable(lib, unvaults, Payments(spends, None), cpfp, lockTime, true)
            && value == 16 * (548 + TxinSat(lib)(t))
            && var psbt := SpendPsbt(unvaults, NewTxOut(lib, value, cpfp), spends, None, lockTime);
               Built(lib, psbt, unvaults, spends, None, cpfp, lockTime) && Fees(psbt).None?
  {
    var unvaults, spends := [t], [t.txout.txout];
    var dummy := NewTxOut(lib, U64_MAX, cpfp).txout;
    assert Payments(spends, None) == spends;
    P2wshShape(lib, t.txout.witnessScript);
    P2wshShape(lib, cpfp.script);
    assert [dummy] + spends == [dummy, t.txout.txout];
    PairSum(TxOutSize, dummy, t.txout.txout);
    SingleSum(TxinSat(lib), t);
    SingleSum(TxinValue, t);
    SingleSum(TxOutValue, t.txout.txout);
    var value := CpfpValue(lib, unvaults, Payments(spends, None), cpfp, lockTime);
    BuiltFees(lib, SpendPsbt(unvaults, NewTxOut(lib, value, cpfp), spends, None, lockTime), unvaults, spends, None,
              cpfp, lockTime);
  }

  /** A constructed Spend parses exactly when it has inputs, each at most 21 million bitcoins, that cover the
      payments and the CPFP output without an absurd excess; then so does every PSBT it becomes. */
  lemma BuiltParses(lib: Library, psbt: Psbt, unvaults: seq<InternalTxIn>, spends: seq<TxOut>,
                    change: Option<InternalTxOut>, cpfp: DerivedDescriptor, lockTime: nat, events: seq<Event>)
    requires Built(lib, psbt, unvaults, spends, change, cpfp, lockTime)
    ensures var spent, paid := SumBy(TxinValue, unvaults), SumBy(TxOutValue, Payments(spends, change));
            var cpfpValue := CpfpValue(lib, unvaults, Payments(spends, change), cpfp, lockTime);
            Parses(lib, Spend, psbt) <==>
            && unvaults != []
            && (forall t | t in unvaults :: t.txout.txout.value <= MAX_MONEY)
            && paid + cpfpValue <= spent <= paid + cpfpValue + MAX_MONEY
    ensures Parses(lib, Spend, psbt) ==> Parses(lib, Spend, Run(lib, psbt, events))
  {
    var paid := SumBy(TxOutValue, Payments(spends, change));
    var cpfpValue := CpfpValue(lib, unvaults, Payments(spends, change), cpfp, lockTime);
    BuiltSummary(lib, psbt, unvaults, spends, change, cpfp, lockTime);
    SummaryParses(lib, psbt, unvaults, paid, cpfpValue);
    ParsesSurvives(lib, Spend, psbt, events);
  }

  /** Everything about a constructed Spend that its parser looks at. */
  ghost predicate Summary(lib: Library, psbt: Psbt, unvaults: seq<InternalTxIn>, paid: nat, cpfpValue: nat) {
    && psbt.tx.version == TX_VERSION
    && |psbt.tx.input| == |psbt.inputs| == |unvaults| && |psbt.tx.output| == |psbt.outputs|
    && NoDuplicates(OutPoints(psbt.tx))
    && KindInputs(lib, Spend, psbt.inputs) && AllOrNoneFinal(psbt.inputs)
    && ((forall i | i in psbt.inputs :: SaneInput(lib, i)) <==>
        forall t | t in unvaults :: t.txout.txout.value <= MAX_MONEY)
    && (forall o | o in psbt.tx.output :: SaneOutput(o))
    && SumBy(SpentValue, psbt.inputs) == SumBy(TxinValue, unvaults) <= U64_MAX
    && SumBy(TxOutValue, psbt.tx.output) == paid + cpfpValue
    && 1 <= SumBy(HasDerivations, psbt.outputs) <= 2
    && FullWeight(lib, psbt) <= MAX_STANDARD_TX_WEIGHT
  }

  lemma BuiltSummary(lib: Library, psbt: Psbt, unvaults: seq<InternalTxIn>, spends: seq<TxOut>,
                     change: Option<InternalTxOut>, cpfp: DerivedDescriptor, lockTime: nat)
    requires Built(lib, psbt, unvaults, spends, change, cpfp, lockTime)
    ensures Summary(lib, psbt, unvaults, SumBy(TxOutValue, Payments(spends, change)),
                    CpfpValue(lib, unvaults, Payments(spends, change), cpfp, lockTime))
  {
    BuiltInputs(lib, psbt, unvaults);
    BuiltOutputs(lib, psbt, unvaults, spends, change, cpfp, lockTime);
    CpfpFixpoint(lib, psbt, unvaults, spends, change, cpfp, lockTime);
    NoneFinal(psbt);
  }

  lemma BuiltSpent(lib: Library, psbt: Psbt, unvaults: seq<InternalTxIn>, spends: seq<TxOut>,
                   change: Option<InternalTxOut>, cpfp: DerivedDescriptor, lockTime: nat)
    requires Built(lib, psbt, unvaults, spends, change, cpfp, lockTime)
    ensures forall i | i in psbt.inputs :: i.witnessUtxo.Some?
    ensures SumBy(SpentValue, psbt.inputs) == SumBy(TxinValue, unvaults) <= U64_MAX
  {
    BuiltInputs(lib, psbt, unvaults);
  }

  lemma BuiltPaid(lib: Library, psbt: Psbt, unvaults: seq<InternalTxIn>, spends: seq<TxOut>,
                  change: Option<InternalTxOut>, cpfp: DerivedDescriptor, lockTime: nat)
    requires Built(lib, psbt, unvaults, spends, change, cpfp, lockTime)
    ensures SumBy(TxOutValue, psbt.tx.output) ==
            SumBy(TxOutValue, Payments(spends, change)) +
            CpfpValue(lib, unvaults, Payments(spends, change), cpfp, lockTime)
  {
    BuiltOutputs(lib, psbt, unvaults, spends, change, cpfp, lockTime);
  }

  lemma SummaryParses(lib: Library, psbt: Psbt, unvaults: seq<InternalTxIn>, paid: nat, cpfpValue: nat)
    requires Summary(lib, psbt, unvaults, paid, cpfpValue)
    ensures Parses(lib, Spend, psbt) <==>
            && unvaults != []
            && (forall t | t in unvaults :: t.txout.txout.value <= MAX_MONEY)
            && paid + cpfpValue <= SumBy(TxinValue, unvaults) <= paid + cpfpValue + MAX_MONEY
  {
  }

  lemma NoneFinal(psbt: Psbt)
    requires !IsFinalized(psbt)
    ensures AllOrNoneFinal(psbt.inputs)
  {
  }
}
