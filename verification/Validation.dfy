/** The checks common to all parsed PSBTs, and the lookups and checks of revocation inputs. */
module Validation {
  import opened Wrappers
  import opened Sums
  import opened Bitcoin

  const TX_VERSION := 2

  datatype ValidationError =
    | InvalidTransactionVersion(version: int)
    | InputCountMismatch(txCount: nat, psbtCount: nat)
    | OutputCountMismatch(txCount: nat, psbtCount: nat)
    | InvalidInputCount(count: nat)
    | InvalidOutputCount(count: nat)
    | DuplicatedInput
    | MissingRevocationInput
    | MissingFeeBumpingInput
    | MissingWitnessUtxo(input: PsbtIn)
    | MissingInWitnessScript(input: PsbtIn)
    | InvalidInWitnessScript(input: PsbtIn)
    | InvalidSighashType(input: PsbtIn)
    | InvalidInputField(input: PsbtIn)
    | InvalidOutputField(output: PsbtOut)
    | InvalidPrevoutType(input: PsbtIn)
    | InvalidCountOutputWithDerivations(count: nat)
    | PartiallyFinalized
    | InsaneAmounts
    | TransactionTooLarge

  predicate Final(i: PsbtIn) { i.finalScriptWitness.Some? }

  predicate SpendsP2wsh(i: PsbtIn) { i.witnessUtxo.Some? && IsP2wsh(i.witnessUtxo.value.scriptPubkey) }

  predicate SpendsP2wpkh(i: PsbtIn) { i.witnessUtxo.Some? && IsP2wpkh(i.witnessUtxo.value.scriptPubkey) }

  // ----- the declarative meaning of the common checks

  /** One input is acceptable on its own. */
  ghost predicate SaneInput(lib: Library, i: PsbtIn) {
    && i.witnessUtxo.Some?
    && i.nonWitnessUtxo.None?
    && i.redeemScript.None?
    && i.witnessUtxo.value.value <= 2_100_000_000_000_000
    && (Final(i) ==> i.witnessScript.None?)
    && (i.witnessScript.Some? ==> lib.parses(i.witnessScript.value))
    && (SpendsP2wsh(i) || SpendsP2wpkh(i))
    && (SpendsP2wsh(i) && !Final(i) ==>
          && i.witnessScript.Some?
          && P2wshScript(lib, i.witnessScript.value) == i.witnessUtxo.value.scriptPubkey)
  }

  ghost predicate SaneOutput(o: TxOut) { DustValue(o.scriptPubkey) <= o.value <= 2_100_000_000_000_000 }

  ghost predicate AllOrNoneFinal(inputs: seq<PsbtIn>) {
    forall i, j | i in inputs && j in inputs :: Final(i) == Final(j)
  }

  /** The transaction spends at least what it creates, and not too much more. */
  ghost predicate SaneBalance(psbt: Psbt) {
    var spent, created := SumBy(SpentValue, psbt.inputs), SumBy(TxOutValue, psbt.tx.output);
    created <= spent <= 0xffff_ffff_ffff_ffff && spent - created <= 2_100_000_000_000_000
  }

  function OutPoints(tx: Transaction): seq<OutPoint> { Image(SpentPoint, tx.input) }

  /** The whole specification; no clause looks at the order of the inputs or of the outputs. */
  ghost predicate Sane(lib: Library, psbt: Psbt) {
    && psbt.tx.version == 2
    && |psbt.tx.input| == |psbt.inputs|
    && |psbt.tx.output| == |psbt.outputs|
    && NoDuplicates(OutPoints(psbt.tx))
    && (forall i | i in psbt.inputs :: SaneInput(lib, i))
    && AllOrNoneFinal(psbt.inputs)
    && (forall o | o in psbt.tx.output :: SaneOutput(o))
    && SaneBalance(psbt)
  }

  /** The error is that of the first check that fails, in this order: version, counts, duplicates, then the inputs, the
      outputs and the balance. */
  ghost predicate Blames(lib: Library, psbt: Psbt, e: ValidationError) {
    if psbt.tx.version != 2 then e == InvalidTransactionVersion(psbt.tx.version)
    else if |psbt.tx.input| != |psbt.inputs| then e == InputCountMismatch(|psbt.tx.input|, |psbt.inputs|)
    else if |psbt.tx.output| != |psbt.outputs| then e == OutputCountMismatch(|psbt.tx.output|, |psbt.outputs|)
    else if !NoDuplicates(OutPoints(psbt.tx)) then e == DuplicatedInput
    else if !SaneInputs(lib, psbt.inputs) then InputBlames(lib, psbt.inputs, e)
    else e == InsaneAmounts && !((forall o | o in psbt.tx.output :: SaneOutput(o)) && SaneBalance(psbt))
  }

  ghost predicate SaneInputs(lib: Library, inputs: seq<PsbtIn>) {
    && (forall i | i in inputs :: SaneInput(lib, i)) && AllOrNoneFinal(inputs)
    && SumBy(SpentValue, inputs) <= 0xffff_ffff_ffff_ffff
  }

  /** The error is about the first input that fails. */
  ghost predicate InputBlames(lib: Library, inputs: seq<PsbtIn>, e: ValidationError) {
    exists k :: FirstFault(lib, inputs, k, e)
  }

  ghost predicate FirstFault(lib: Library, inputs: seq<PsbtIn>, k: int, e: ValidationError) {
    && 0 <= k < |inputs|
    && (forall j | 0 <= j < k :: SaneInput(lib, inputs[j]) && Final(inputs[j]) == Final(inputs[0]))
    && Fault(lib, inputs[k], Final(inputs[0]), SumTo(SpentValue, inputs, k), e)
  }

  /** What is wrong with one input, given whether the first one was final and what the earlier ones spend. */
  ghost predicate Fault(lib: Library, i: PsbtIn, firstFinal: bool, spent: nat, e: ValidationError) {
    match e
    case MissingWitnessUtxo(j) => i == j && i.witnessUtxo.None?
    case PartiallyFinalized => Segwit(i) && (Final(i) != firstFinal || (Final(i) && i.witnessScript.Some?))
    case InsaneAmounts =>
      Segwit(i) && (SpentValue(i) > 2_100_000_000_000_000 || spent + SpentValue(i) > 0xffff_ffff_ffff_ffff)
    case MissingInWitnessScript(j) => i == j && SpendsP2wsh(i) && !Final(i) && i.witnessScript.None?
    case InvalidInWitnessScript(j) =>
      && i == j && Segwit(i) && i.witnessScript.Some?
      && (!lib.parses(i.witnessScript.value)
          || (SpendsP2wsh(i) && P2wshScript(lib, i.witnessScript.value) != i.witnessUtxo.value.scriptPubkey))
    case InvalidInputField(j) => i == j && i.witnessUtxo.Some? && !(Segwit(i) && (SpendsP2wsh(i) || SpendsP2wpkh(i)))
    case _ => false
  }

  /** The input has the fields of a native segwit one only. */
  predicate Segwit(i: PsbtIn) { i.witnessUtxo.Some? && i.nonWitnessUtxo.None? && i.redeemScript.None? }

  ghost predicate SameCounts(psbt: Psbt) {
    |psbt.tx.input| == |psbt.inputs| && |psbt.tx.output| == |psbt.outputs|
  }

  // ----- the checks themselves

  /** Accepts exactly the sane PSBTs, unchanged, and blames a rejected one for something it really has. */
  method PsbtCommonSanityChecks(lib: Library, psbt: Psbt) returns (r: Result<Psbt, ValidationError>)
    ensures r.Ok? <==> Sane(lib, psbt)
    ensures r.Ok? ==> r.value == psbt
    ensures r.Err? ==> Blames(lib, psbt, r.error)
  {
    var innerTx := psbt.tx;
    if innerTx.version != TX_VERSION {
      return Err(InvalidTransactionVersion(innerTx.version));
    }
    if |innerTx.input| != |psbt.inputs| {
      return Err(InputCountMismatch(|innerTx.input|, |psbt.inputs|));
    }
    if |innerTx.output| != |psbt.outputs| {
      return Err(OutputCountMismatch(|innerTx.output|, |psbt.outputs|));
    }
    var uniqTxins := Elements(OutPoints(innerTx));
    DuplicateTest(OutPoints(innerTx));
    if |uniqTxins| != |innerTx.input| {
      return Err(DuplicatedInput);
    }

    var valueIn :- CheckInputs(lib, psbt.inputs);
    var valueOut :- CheckOutputs(lib, psbt);
    if valueOut > valueIn {
      return Err(InsaneAmounts);
    }
    if valueIn - valueOut > MAX_MONEY {
      return Err(InsaneAmounts);
    }
    return Ok(psbt);
  }

  /** The input loop: its state is whether the inputs seen so far were final, and the value they spend. */
  method CheckInputs(lib: Library, inputs: seq<PsbtIn>) returns (r: Result<nat, ValidationError>)
    ensures r.Ok? <==> SaneInputs(lib, inputs)
    ensures r.Ok? ==> r.value == SumBy(SpentValue, inputs)
    ensures r.Err? ==> InputBlames(lib, inputs, r.error)
  {
    // Whether the inputs seen so far are final; nothing is known before the first.
    var isFinal: Option<bool> := None;
    var valueIn := 0;
    for k := 0 to |inputs|
      invariant k == 0 <==> isFinal.None?
      invariant forall j | 0 <= j < k :: isFinal == Some(Final(inputs[j])) && SaneInput(lib, inputs[j])
      invariant valueIn == SumTo(SpentValue, inputs, k) <= U64_MAX
    {
      var input := inputs[k];
      if input.witnessUtxo.None? {
        FaultIsInsane(lib, inputs, k, MissingWitnessUtxo(input));
        return Err(MissingWitnessUtxo(input));
      }
      if input.nonWitnessUtxo.Some? {
        FaultIsInsane(lib, inputs, k, InvalidInputField(input));
        return Err(InvalidInputField(input));
      }
      if input.redeemScript.Some? {
        FaultIsInsane(lib, inputs, k, InvalidInputField(input));
        return Err(InvalidInputField(input));
      }
      if Final(input) {
        if isFinal == Some(false) || input.witnessScript.Some? {
          FaultIsInsane(lib, inputs, k, PartiallyFinalized);
          return Err(PartiallyFinalized);
        }
        isFinal := Some(true);
      } else {
        if isFinal == Some(true) {
          FaultIsInsane(lib, inputs, k, PartiallyFinalized);
          return Err(PartiallyFinalized);
        }
        isFinal := Some(false);
      }
      if input.witnessScript.Some? && !lib.parses(input.witnessScript.value) {
        FaultIsInsane(lib, inputs, k, InvalidInWitnessScript(input));
        return Err(InvalidInWitnessScript(input));
      }
      var spentUtxoValue := input.witnessUtxo.value.value;
      if spentUtxoValue > MAX_MONEY {
        FaultIsInsane(lib, inputs, k, InsaneAmounts);
        return Err(InsaneAmounts);
      }
      if valueIn + spentUtxoValue > U64_MAX {
        FaultIsInsane(lib, inputs, k, InsaneAmounts);
        return Err(InsaneAmounts);
      }
      valueIn := valueIn + spentUtxoValue;

      var spk := input.witnessUtxo.value.scriptPubkey;
      if IsP2wsh(spk) {
        // A final input has no witness script left to compare.
        if isFinal == Some(true) {
          continue;
        }
        if input.witnessScript.None? {
          FaultIsInsane(lib, inputs, k, MissingInWitnessScript(input));
          return Err(MissingInWitnessScript(input));
        }
        if P2wshScript(lib, input.witnessScript.value) != spk {
          FaultIsInsane(lib, inputs, k, InvalidInWitnessScript(input));
          return Err(InvalidInWitnessScript(input));
        }
      } else if !IsP2wpkh(spk) {
        FaultIsInsane(lib, inputs, k, InvalidInputField(input));
        return Err(InvalidInputField(input));
      }
    }
    return Ok(valueIn);
  }

  lemma FaultIsInsane(lib: Library, inputs: seq<PsbtIn>, k: nat, e: ValidationError)
    requires FirstFault(lib, inputs, k, e)
    ensures !SaneInputs(lib, inputs) && InputBlames(lib, inputs, e)
  {
    assert inputs[k] in inputs && inputs[0] in inputs;
    PartialSum(SpentValue, inputs, k + 1);
  }

  /** The output loop. */
  method CheckOutputs(lib: Library, psbt: Psbt) returns (r: Result<nat, ValidationError>)
    requires SameCounts(psbt)
    ensures r.Ok? <==> (forall o | o in psbt.tx.output :: SaneOutput(o)) && SumBy(TxOutValue, psbt.tx.output) <= U64_MAX
    ensures r.Ok? ==> r.value == SumBy(TxOutValue, psbt.tx.output)
    ensures r.Err? ==> r.error == InsaneAmounts
    ensures r.Err? ==>
              || (exists o :: o in psbt.tx.output && !SaneOutput(o))
              || SumBy(TxOutValue, psbt.tx.output) > U64_MAX
  {
    var valueOut := 0;
    for k := 0 to |psbt.tx.output|
      invariant forall j | 0 <= j < k :: SaneOutput(psbt.tx.output[j])
      invariant valueOut == SumTo(TxOutValue, psbt.tx.output, k) <= U64_MAX
    {
      var o := psbt.tx.output[k];
      if o.value > MAX_MONEY || o.value < DustValue(o.scriptPubkey) {
        assert o in psbt.tx.output && !SaneOutput(o);
        return Err(InsaneAmounts);
      }
      if valueOut + o.value > U64_MAX {
        PartialSum(TxOutValue, psbt.tx.output, k + 1);
        return Err(InsaneAmounts);
      }
      valueOut := valueOut + o.value;
    }
    return Ok(valueOut);
  }

  // ----- order does not matter

  function InputPairs(psbt: Psbt): seq<(TxIn, PsbtIn)>
    requires |psbt.tx.input| == |psbt.inputs|
  {
    seq(|psbt.inputs|, k requires 0 <= k < |psbt.inputs| => (psbt.tx.input[k], psbt.inputs[k]))
  }

  function OutputPairs(psbt: Psbt): seq<(TxOut, PsbtOut)>
    requires |psbt.tx.output| == |psbt.outputs|
  {
    seq(|psbt.outputs|, k requires 0 <= k < |psbt.outputs| => (psbt.tx.output[k], psbt.outputs[k]))
  }

  function First<S, T>(p: (S, T)): S { p.0 }

  function Second<S, T>(p: (S, T)): T { p.1 }

  /** `b` is `a` with its inputs, and its outputs, in another order; each keeps its PSBT fields. */
  ghost predicate Reordered(a: Psbt, b: Psbt) {
    && SameCounts(a) && SameCounts(b)
    && a.tx.version == b.tx.version
    && multiset(InputPairs(a)) == multiset(InputPairs(b))
    && multiset(OutputPairs(a)) == multiset(OutputPairs(b))
  }

  lemma SaneIgnoresOrder(lib: Library, a: Psbt, b: Psbt)
    requires Reordered(a, b)
    ensures Sane(lib, a) <==> Sane(lib, b)
  {
    if Sane(lib, a) { SaneReordered(lib, a, b); }
    if Sane(lib, b) { SaneReordered(lib, b, a); }
  }

  lemma ReorderedParts(a: Psbt, b: Psbt)
    requires Reordered(a, b)
    ensures multiset(a.inputs) == multiset(b.inputs)
    ensures multiset(a.tx.output) == multiset(b.tx.output)
    ensures multiset(OutPoints(a.tx)) == multiset(OutPoints(b.tx))
  {
    ImagePermutation(Second<TxIn, PsbtIn>, InputPairs(a), InputPairs(b));
    assert Image(Second<TxIn, PsbtIn>, InputPairs(a)) == a.inputs;
    assert Image(Second<TxIn, PsbtIn>, InputPairs(b)) == b.inputs;
    ImagePermutation(First<TxIn, PsbtIn>, InputPairs(a), InputPairs(b));
    assert Image(First<TxIn, PsbtIn>, InputPairs(a)) == a.tx.input;
    assert Image(First<TxIn, PsbtIn>, InputPairs(b)) == b.tx.input;
    ImagePermutation(SpentPoint, a.tx.input, b.tx.input);
    ImagePermutation(First<TxOut, PsbtOut>, OutputPairs(a), OutputPairs(b));
    assert Image(First<TxOut, PsbtOut>, OutputPairs(a)) == a.tx.output;
    assert Image(First<TxOut, PsbtOut>, OutputPairs(b)) == b.tx.output;
  }

  lemma SaneReordered(lib: Library, a: Psbt, b: Psbt)
    requires Reordered(a, b) && Sane(lib, a)
    ensures Sane(lib, b)
  {
    ReorderedParts(a, b);
    NoDuplicatesPermutation(OutPoints(a.tx), OutPoints(b.tx));
    SumByPermutation(SpentValue, a.inputs, b.inputs);
    SumByPermutation(TxOutValue, a.tx.output, b.tx.output);
    forall i | i in b.inputs ensures i in a.inputs {
      assert i in multiset(b.inputs);
    }
    forall o | o in b.tx.output ensures o in a.tx.output {
      assert o in multiset(b.tx.output);
    }
  }

  // ----- fees

  /** The fees of a PSBT: the exact difference of the sums, when every step of it is defined. */
  function Fees(psbt: Psbt): Option<nat> {
    var spent, created := SumBy(SpentValue, psbt.inputs), SumBy(TxOutValue, psbt.tx.output);
    if (forall i | i in psbt.inputs :: i.witnessUtxo.Some?) && spent <= U64_MAX && created <= spent
    then Some(spent - created)
    else None
  }

  lemma FeesOf(psbt: Psbt, spent: nat, created: nat)
    requires forall i | i in psbt.inputs :: i.witnessUtxo.Some?
    requires SumBy(SpentValue, psbt.inputs) == spent <= U64_MAX && SumBy(TxOutValue, psbt.tx.output) == created
    ensures Fees(psbt) == if created <= spent then Some(spent - created) else None
  {
  }

  method PsbtFees(psbt: Psbt) returns (r: Option<nat>)
    ensures r == Fees(psbt)
  {
    var valueIn := 0;
    for k := 0 to |psbt.inputs|
      invariant forall j | 0 <= j < k :: psbt.inputs[j].witnessUtxo.Some?
      invariant valueIn == SumTo(SpentValue, psbt.inputs, k) <= U64_MAX
    {
      var i := psbt.inputs[k];
      assert i in psbt.inputs;
      if i.witnessUtxo.None? {
        return None;
      }
      if valueIn + i.witnessUtxo.value.value > U64_MAX {
        PartialSum(SpentValue, psbt.inputs, k + 1);
        return None;
      }
      valueIn := valueIn + i.witnessUtxo.value.value;
    }
    var valueOut := 0;
    for k := 0 to |psbt.tx.output|
      invariant valueOut == SumTo(TxOutValue, psbt.tx.output, k) <= U64_MAX
    {
      var o := psbt.tx.output[k];
      if valueOut + o.value > U64_MAX {
        PartialSum(TxOutValue, psbt.tx.output, k + 1);
        return None;
      }
      valueOut := valueOut + o.value;
    }
    return if valueOut <= valueIn then Some(valueIn - valueOut) else None;
  }

  /** `is_finalized` looks for one final input. */
  predicate IsFinalized(psbt: Psbt) {
    exists i | i in psbt.inputs :: Final(i)
  }

  /** On a validated PSBT fees are defined and bounded, and one final input means they all are. */
  lemma SaneFees(lib: Library, psbt: Psbt)
    requires Sane(lib, psbt)
    ensures Fees(psbt).Some? && Fees(psbt).value <= 2_100_000_000_000_000
    ensures psbt.inputs != [] ==> (IsFinalized(psbt) <==> forall i | i in psbt.inputs :: Final(i))
  {
    if psbt.inputs != [] {
      assert psbt.inputs[0] in psbt.inputs;
    }
  }

  // ----- lookups by first match

  function Find(p: PsbtIn -> bool, inputs: seq<PsbtIn>): Option<PsbtIn> {
    if inputs == [] then None else if p(inputs[0]) then Some(inputs[0]) else Find(p, inputs[1..])
  }

  function Position(p: PsbtIn -> bool, inputs: seq<PsbtIn>): Option<nat> {
    if inputs == [] then None
    else if p(inputs[0]) then Some(0)
    else match Position(p, inputs[1..]) case Some(k) => Some(k + 1) case None => None
  }

  /** A position is the first match, and the lookup returns what stands there. */
  lemma {:induction false} PositionIsFirst(p: PsbtIn -> bool, inputs: seq<PsbtIn>)
    ensures Position(p, inputs).None? <==> forall i | i in inputs :: !p(i)
    ensures Position(p, inputs).Some? ==>
              var k := Position(p, inputs).value;
              && k < |inputs| && p(inputs[k]) && (forall j | 0 <= j < k :: !p(inputs[j]))
              && Find(p, inputs) == Some(inputs[k])
    ensures Position(p, inputs).None? ==> Find(p, inputs).None?
  {
    if inputs != [] {
      PositionIsFirst(p, inputs[1..]);
      assert inputs == [inputs[0]] + inputs[1..];
      if Position(p, inputs).Some? && !p(inputs[0]) {
        var k := Position(p, inputs[1..]).value;
        forall j | 0 <= j < k + 1 ensures !p(inputs[j]) {
          if j > 0 { assert inputs[j] == inputs[1..][j - 1]; }
        }
      }
    }
  }

  function FindRevocationtxInput(inputs: seq<PsbtIn>): Option<PsbtIn> { Find(SpendsP2wsh, inputs) }

  function FindFeebumpingInput(inputs: seq<PsbtIn>): Option<PsbtIn> { Find(SpendsP2wpkh, inputs) }

  function P2wshInputIndex(psbt: Psbt): Option<nat> { Position(SpendsP2wsh, psbt.inputs) }

  function CheckRevocationtxInput(i: PsbtIn): Outcome<(), ValidationError> {
    if !SpendsP2wsh(i) then Panics
    else if Final(i) then Done(())
    else if i.sighashType != Some(AllPlusAnyoneCanPay) then Fails(InvalidSighashType(i))
    else if i.bip32Derivation == map[] then Fails(InvalidInputField(i))
    else Done(())
  }

  function CheckFeebumpInput(i: PsbtIn): Outcome<(), ValidationError> {
    if Final(i) then Done(())
    else if i.sighashType != Some(All) then Fails(InvalidSighashType(i))
    else if !SpendsP2wpkh(i) then Fails(InvalidPrevoutType(i))
    else if i.witnessScript.Some? then Fails(InvalidInputField(i))
    else Done(())
  }

  /** The checks of a vault input, for any input: final ones pass, the others must be signed with ALL|ANYONECANPAY and
      have key sources; being called on anything but a P2WSH input is a panic. */
  lemma RevocationtxInputIs(i: PsbtIn)
    ensures var r := CheckRevocationtxInput(i);
            && (r.Panics? <==> !SpendsP2wsh(i))
            && (r.Done? <==>
                && SpendsP2wsh(i)
                && (Final(i) || (i.sighashType == Some(AllPlusAnyoneCanPay) && i.bip32Derivation != map[])))
            && (r.Fails? ==> r.error == if i.sighashType != Some(AllPlusAnyoneCanPay) then InvalidSighashType(i)
                                        else InvalidInputField(i))
  {
  }

  /** The checks of a fee-bump input, for any input: final ones pass, the others must be P2WPKH, without a witness
      script and to be signed with ALL. */
  lemma FeebumpInputIs(i: PsbtIn)
    ensures var r := CheckFeebumpInput(i);
            && !r.Panics?
            && (r.Done? <==> Final(i) || (i.sighashType == Some(All) && SpendsP2wpkh(i) && i.witnessScript == None))
            && (r.Fails? ==> r.error == if i.sighashType != Some(All) then InvalidSighashType(i)
                                        else if !SpendsP2wpkh(i) then InvalidPrevoutType(i)
                                        else InvalidInputField(i))
  {
  }
}
