/** What the `from_raw_psbt` of each transaction accepts, starting from a decoded PSBT. */
module Parsing {
  import opened Wrappers
  import opened Sums
  import opened Bitcoin
  import opened Validation
  import opened Signing
  import opened TxOuts

  const MAX_STANDARD_TX_WEIGHT := 400_000

  // ----- the declarative meaning

  /** A non-final vault input that is fully described and will be signed with `ty`. */
  ghost predicate DescribedInput(lib: Library, i: PsbtIn, ty: SigHashType) {
    !Final(i) ==>
      && i.sighashType == Some(ty) && i.bip32Derivation != map[]
      && i.witnessScript.Some? && i.witnessUtxo.Some?
      && P2wshScript(lib, i.witnessScript.value) == i.witnessUtxo.value.scriptPubkey
  }

  ghost predicate FeeBumpInput(i: PsbtIn) { !Final(i) ==> i.sighashType == Some(All) && i.witnessScript.None? }

  /** An input that was checked for what its kind of transaction may spend. */
  ghost predicate KindInput(lib: Library, kind: Kind, i: PsbtIn) {
    match kind
    case Unvault => DescribedInput(lib, i, All)
    case Spend => SpendsP2wsh(i) && DescribedInput(lib, i, All) && (!Final(i) ==> SatWeightOf(lib, i).Some?)
    case _ =>
      if SpendsP2wsh(i) then DescribedInput(lib, i, AllPlusAnyoneCanPay) else SpendsP2wpkh(i) && FeeBumpInput(i)
  }

  ghost predicate KindInputs(lib: Library, kind: Kind, inputs: seq<PsbtIn>) {
    forall i | i in inputs :: KindInput(lib, kind, i)
  }

  function SatWeightOf(lib: Library, i: PsbtIn): Option<nat> {
    if i.witnessScript.Some? && lib.parses(i.witnessScript.value) then (lib.satWeight)(i.witnessScript.value) else None
  }

  /** What signing will still add to the weight of an input. */
  function PendingWeight(lib: Library): PsbtIn -> nat {
    (i: PsbtIn) => if Final(i) || SatWeightOf(lib, i).None? then 0 else SatWeightOf(lib, i).value
  }

  function HasDerivations(o: PsbtOut): nat { if o.bip32Derivation == map[] then 0 else 1 }

  /** The weight a Spend can reach once signed. */
  function FullWeight(lib: Library, psbt: Psbt): nat {
    Weight(psbt.tx) + SumBy(PendingWeight(lib), psbt.inputs)
  }

  /** How many inputs a kind may have; a revocation has one vault input and at most one fee-bump input, in any order. */
  ghost predicate KindCount(kind: Kind, inputs: seq<PsbtIn>) {
    match kind
    case Unvault => |inputs| == 1
    case Spend => inputs != []
    case _ => |inputs| <= 2 && exists k :: OnlyP2wsh(inputs, k)
  }

  ghost predicate KindOutputs(kind: Kind, psbt: Psbt)
    requires |psbt.tx.output| == |psbt.outputs|
  {
    match kind
    case Unvault => |psbt.outputs| == 2 && forall o | o in psbt.outputs :: o.bip32Derivation != map[]
    case Cancel =>
      |psbt.outputs| == 1 && psbt.outputs[0].bip32Derivation != map[] && psbt.outputs[0].redeemScript.None?
    case Spend => 1 <= SumBy(HasDerivations, psbt.outputs) <= 2
    case _ => |psbt.outputs| == 1
  }

  /** The whole acceptance condition of the parser of each kind. */
  ghost predicate Parses(lib: Library, kind: Kind, psbt: Psbt) {
    && Sane(lib, psbt)
    && KindInputs(lib, kind, psbt.inputs)
    && KindCount(kind, psbt.inputs)
    && KindOutputs(kind, psbt)
    && (kind == Spend ==> FullWeight(lib, psbt) <= 400_000)
  }

  /** The common checks come first; then the reason for a rejection is really present in the PSBT. */
  ghost predicate Explains(lib: Library, kind: Kind, psbt: Psbt, e: ValidationError) {
    if Sane(lib, psbt) then KindBlames(lib, kind, psbt, e) else Blames(lib, psbt, e)
  }

  ghost predicate KindBlames(lib: Library, kind: Kind, psbt: Psbt, e: ValidationError) {
    match e
    case InvalidOutputCount(n) => n == |psbt.tx.output| && n != (if kind == Unvault then 2 else 1)
    case InvalidInputCount(n) =>
      n == |psbt.tx.input| && (if kind == Spend then n == 0 else if kind == Unvault then n != 1 else n > 2)
    case InvalidOutputField(o) => o in psbt.outputs && (o.bip32Derivation == map[] || o.redeemScript.Some?)
    case MissingRevocationInput => forall i | i in psbt.inputs :: !SpendsP2wsh(i)
    case MissingFeeBumpingInput => |psbt.tx.input| == 2 && forall i | i in psbt.inputs :: !SpendsP2wpkh(i)
    case InvalidSighashType(i) => i in psbt.inputs && !Final(i) && i.sighashType != Some(ExpectedSighash(kind, i))
    case InvalidInputField(i) => i in psbt.inputs && !KindInput(lib, kind, i)
    case InvalidCountOutputWithDerivations(n) =>
      kind == Spend && (n == 3 <= SumBy(HasDerivations, psbt.outputs) || n == 0 == SumBy(HasDerivations, psbt.outputs))
    case MissingInWitnessScript(i) => i in psbt.inputs && !Final(i) && i.witnessScript.None?
    case InvalidInWitnessScript(i) =>
      && i in psbt.inputs && i.witnessScript.Some? && i.witnessUtxo.Some?
      && P2wshScript(lib, i.witnessScript.value) != i.witnessUtxo.value.scriptPubkey
    case TransactionTooLarge => kind == Spend && FullWeight(lib, psbt) > MAX_STANDARD_TX_WEIGHT
    case _ => false
  }

  // ----- the parsers

  method UnvaultFromRawPsbt(lib: Library, raw: Psbt) returns (r: Result<Psbt, ValidationError>)
    ensures r.Ok? <==> Parses(lib, Unvault, raw)
    ensures r.Ok? ==> r.value == raw
    ensures r.Err? ==> Explains(lib, Unvault, raw, r.error)
  {
    var psbt :- PsbtCommonSanityChecks(lib, raw);
    if |psbt.tx.output| != 2 {
      return Err(InvalidOutputCount(|psbt.tx.output|));
    }
    for k := 0 to |psbt.outputs|
      invariant forall j | 0 <= j < k :: psbt.outputs[j].bip32Derivation != map[]
    {
      if psbt.outputs[k].bip32Derivation == map[] {
        return Err(InvalidOutputField(psbt.outputs[k]));
      }
    }
    if |psbt.tx.input| != 1 {
      return Err(InvalidInputCount(|psbt.tx.input|));
    }
    assert psbt.inputs[0] in psbt.inputs && SaneInput(lib, psbt.inputs[0]);
    var checked :- CheckUnvaultInput(lib, psbt);
    return Ok(psbt);
  }

  method CheckUnvaultInput(lib: Library, psbt: Psbt) returns (r: Result<(), ValidationError>)
    requires |psbt.inputs| == 1 && psbt.inputs[0].witnessUtxo.Some?
    ensures r.Ok? <==> KindInputs(lib, Unvault, psbt.inputs)
    ensures r.Err? ==> KindBlames(lib, Unvault, psbt, r.error)
  {
    var input := psbt.inputs[0];
    assert input in psbt.inputs;
    if !Final(input) {
      if input.sighashType != Some(All) {
        return Err(InvalidSighashType(input));
      }
      if input.bip32Derivation == map[] {
        return Err(InvalidInputField(input));
      }
      // The script and its match with the scriptPubKey: a P2WPKH input gets here without one.
      if input.witnessScript.None? {
        return Err(MissingInWitnessScript(input));
      }
      if P2wshScript(lib, input.witnessScript.value) != input.witnessUtxo.value.scriptPubkey {
        return Err(InvalidInWitnessScript(input));
      }
    }
    return Ok(());
  }

  /** The part the three revocation parsers share: counting, two first-match lookups and two checks. */
  method CheckRevocationInputs(lib: Library, kind: Kind, psbt: Psbt) returns (r: Outcome<(), ValidationError>)
    requires kind.Revocation() && |psbt.tx.input| == |psbt.inputs|
    requires forall i | i in psbt.inputs :: RevocationScripts(lib, i)
    ensures !r.Panics?
    ensures r.Done? <==> KindInputs(lib, kind, psbt.inputs) && KindCount(kind, psbt.inputs)
    ensures r.Fails? ==> KindBlames(lib, kind, psbt, r.error)
  {
    PositionIsFirst(SpendsP2wsh, psbt.inputs);
    PositionIsFirst(SpendsP2wpkh, psbt.inputs);
    var inputCount := |psbt.tx.input|;
    if inputCount > 2 {
      return Fails(InvalidInputCount(inputCount));
    }
    if inputCount > 1 {
      var checked := CheckFeebump(lib, kind, psbt);
      if !checked.Done? {
        return checked;
      }
    }
    var revocation := FindRevocationtxInput(psbt.inputs);
    if revocation.None? {
      return Fails(MissingRevocationInput);
    }
    LookupsDecide(lib, kind, psbt.inputs);
    RevocationCheck(lib, kind, revocation.value);
    r := CheckRevocationtxInput(revocation.value);
  }

  method CheckFeebump(lib: Library, kind: Kind, psbt: Psbt) returns (r: Outcome<(), ValidationError>)
    requires kind.Revocation() && |psbt.tx.input| == |psbt.inputs| == 2
    requires forall i | i in psbt.inputs :: RevocationScripts(lib, i)
    ensures !r.Panics?
    ensures r.Done? <==>
              FindFeebumpingInput(psbt.inputs).Some? && KindInput(lib, kind, FindFeebumpingInput(psbt.inputs).value)
    ensures r.Fails? ==> KindBlames(lib, kind, psbt, r.error)
    ensures r.Fails? ==> !KindInputs(lib, kind, psbt.inputs) || forall i | i in psbt.inputs :: SpendsP2wsh(i)
  {
    PositionIsFirst(SpendsP2wpkh, psbt.inputs);
    var feebump := FindFeebumpingInput(psbt.inputs);
    if feebump.None? {
      return Fails(MissingFeeBumpingInput);
    }
    FeebumpCheck(lib, kind, feebump.value);
    return CheckFeebumpInput(feebump.value);
  }

  /** What the common checks leave to the revocation checks. */
  ghost predicate RevocationScripts(lib: Library, i: PsbtIn) {
    && SpendsP2wsh(i) != SpendsP2wpkh(i)
    && (SpendsP2wsh(i) && !Final(i) ==>
          i.witnessScript.Some? && P2wshScript(lib, i.witnessScript.value) == i.witnessUtxo.value.scriptPubkey)
  }

  lemma FeebumpCheck(lib: Library, kind: Kind, i: PsbtIn)
    requires kind.Revocation() && SpendsP2wpkh(i) && RevocationScripts(lib, i)
    ensures CheckFeebumpInput(i).Done? <==> KindInput(lib, kind, i)
    ensures CheckFeebumpInput(i).Fails? <==> !KindInput(lib, kind, i)
    ensures CheckFeebumpInput(i).Fails? ==>
              || CheckFeebumpInput(i).error == InvalidInputField(i)
              || (CheckFeebumpInput(i).error == InvalidSighashType(i) && !Final(i) && i.sighashType != Some(All))
  {
  }

  lemma RevocationCheck(lib: Library, kind: Kind, i: PsbtIn)
    requires kind.Revocation() && SpendsP2wsh(i) && RevocationScripts(lib, i)
    ensures CheckRevocationtxInput(i).Done? <==> KindInput(lib, kind, i)
    ensures CheckRevocationtxInput(i).Fails? <==> !KindInput(lib, kind, i)
    ensures CheckRevocationtxInput(i).Fails? ==>
              || CheckRevocationtxInput(i).error == InvalidInputField(i)
              || (&& CheckRevocationtxInput(i).error == InvalidSighashType(i)
                  && !Final(i) && i.sighashType != Some(AllPlusAnyoneCanPay))
  {
  }

  /** With at most two inputs, each P2WSH or P2WPKH, the two successful lookups have seen every input. */
  lemma LookupsCover(lib: Library, inputs: seq<PsbtIn>)
    requires |inputs| <= 2
    requires forall i | i in inputs :: RevocationScripts(lib, i)
    requires FindRevocationtxInput(inputs).Some? && (|inputs| == 2 ==> FindFeebumpingInput(inputs).Some?)
    ensures exists k :: OnlyP2wsh(inputs, k)
    ensures forall i | i in inputs ::
              || i == FindRevocationtxInput(inputs).value
              || (|inputs| == 2 && i == FindFeebumpingInput(inputs).value)
  {
    PositionIsFirst(SpendsP2wsh, inputs);
    PositionIsFirst(SpendsP2wpkh, inputs);
    var k := Position(SpendsP2wsh, inputs).value;
    assert forall j | 0 <= j < |inputs| :: inputs[j] in inputs;
    if |inputs| == 2 {
      var l := Position(SpendsP2wpkh, inputs).value;
      assert k != l;
    }
    assert OnlyP2wsh(inputs, k);
  }

  /** So checking what they found is checking all inputs. */
  lemma LookupsDecide(lib: Library, kind: Kind, inputs: seq<PsbtIn>)
    requires kind.Revocation() && |inputs| <= 2
    requires forall i | i in inputs :: RevocationScripts(lib, i)
    requires FindRevocationtxInput(inputs).Some?
    requires |inputs| == 2 ==>
               FindFeebumpingInput(inputs).Some? && KindInput(lib, kind, FindFeebumpingInput(inputs).value)
    ensures FindRevocationtxInput(inputs).value in inputs && SpendsP2wsh(FindRevocationtxInput(inputs).value)
    ensures KindCount(kind, inputs)
    ensures KindInputs(lib, kind, inputs) <==> KindInput(lib, kind, FindRevocationtxInput(inputs).value)
  {
    PositionIsFirst(SpendsP2wsh, inputs);
    LookupsCover(lib, inputs);
  }

  method CancelFromRawPsbt(lib: Library, raw: Psbt) returns (r: Result<Psbt, ValidationError>)
    ensures r.Ok? <==> Parses(lib, Cancel, raw)
    ensures r.Ok? ==> r.value == raw
    ensures r.Err? ==> Explains(lib, Cancel, raw, r.error)
  {
    var psbt :- PsbtCommonSanityChecks(lib, raw);
    if |psbt.tx.output| != 1 {
      return Err(InvalidOutputCount(|psbt.tx.output|));
    }
    for k := 0 to |psbt.outputs|
      invariant forall j | 0 <= j < k :: psbt.outputs[j].bip32Derivation != map[]
    {
      if psbt.outputs[k].bip32Derivation == map[] {
        return Err(InvalidOutputField(psbt.outputs[k]));
      }
    }
    var output := psbt.outputs[0];
    if output.redeemScript.Some? {
      return Err(InvalidOutputField(output));
    }
    forall i | i in psbt.inputs ensures RevocationScripts(lib, i) {
      assert SaneInput(lib, i);
    }
    var inputs := CheckRevocationInputs(lib, Cancel, psbt);
    return if inputs.Done? then Ok(psbt) else Err(inputs.error);
  }

  /** Emergency and UnvaultEmergency make the same checks. */
  method EmergencyFromRawPsbt(lib: Library, kind: Kind, raw: Psbt) returns (r: Result<Psbt, ValidationError>)
    requires kind == Emergency || kind == UnvaultEmergency
    ensures r.Ok? <==> Parses(lib, kind, raw)
    ensures r.Ok? ==> r.value == raw
    ensures r.Err? ==> Explains(lib, kind, raw, r.error)
  {
    var psbt :- PsbtCommonSanityChecks(lib, raw);
    if |psbt.tx.output| != 1 {
      return Err(InvalidOutputCount(|psbt.tx.output|));
    }
    forall i | i in psbt.inputs ensures RevocationScripts(lib, i) {
      assert SaneInput(lib, i);
    }
    var inputs := CheckRevocationInputs(lib, kind, psbt);
    return if inputs.Done? then Ok(psbt) else Err(inputs.error);
  }

  /** Panics only if the weights do not fit a machine word. */
  method SpendFromRawPsbt(lib: Library, raw: Psbt) returns (r: Outcome<Psbt, ValidationError>)
    ensures r.Done? <==> Parses(lib, Spend, raw)
    ensures r.Done? ==> r.value == raw
    ensures r.Fails? ==> Explains(lib, Spend, raw, r.error)
    ensures r.Panics? ==> FullWeight(lib, raw) > U64_MAX
  {
    var checked := PsbtCommonSanityChecks(lib, raw);
    if checked.Err? {
      return Fails(checked.error);
    }
    var psbt := checked.value;
    if psbt.inputs == [] {
      return Fails(InvalidInputCount(0));
    }
    forall i | i in psbt.inputs ensures RevocationScripts(lib, i) {
      assert SaneInput(lib, i);
    }
    var maxSatWeight :- CheckSpendInputs(lib, psbt);
    var outputs := CheckSpendOutputs(lib, psbt);
    if outputs.Err? {
      return Fails(outputs.error);
    }
    var witstripWeight := Weight(psbt.tx);
    if witstripWeight + maxSatWeight > U64_MAX {
      return Panics;
    }
    if witstripWeight + maxSatWeight > MAX_STANDARD_TX_WEIGHT {
      return Fails(TransactionTooLarge);
    }
    return Done(psbt);
  }

  /** The input loop of the Spend parser adds up the satisfactions still to come. */
  method CheckSpendInputs(lib: Library, psbt: Psbt) returns (r: Outcome<nat, ValidationError>)
    requires forall i | i in psbt.inputs :: RevocationScripts(lib, i)
    ensures r.Done? ==> KindInputs(lib, Spend, psbt.inputs) && r.value == SumBy(PendingWeight(lib), psbt.inputs)
    ensures r.Fails? ==> !KindInputs(lib, Spend, psbt.inputs) && KindBlames(lib, Spend, psbt, r.error)
    ensures r.Panics? ==> SumBy(PendingWeight(lib), psbt.inputs) > U64_MAX
  {
    var maxSatWeight := 0;
    for k := 0 to |psbt.inputs|
      invariant forall j | 0 <= j < k :: KindInput(lib, Spend, psbt.inputs[j])
      invariant maxSatWeight == SumTo(PendingWeight(lib), psbt.inputs, k) <= U64_MAX
    {
      var input := psbt.inputs[k];
      assert input in psbt.inputs && RevocationScripts(lib, input);
      if !SpendsP2wsh(input) {
        return Fails(InvalidInputField(input));
      }
      if Final(input) {
        continue;
      }
      if input.sighashType != Some(All) {
        return Fails(InvalidSighashType(input));
      }
      // The witness script and its match with the scriptPubKey were tested by the common checks.
      assert input.witnessScript.Some?;
      assert P2wshScript(lib, input.witnessScript.value) == input.witnessUtxo.value.scriptPubkey;
      if input.bip32Derivation == map[] {
        return Fails(InvalidInputField(input));
      }
      var satWeight := SatWeightOf(lib, input);
      if satWeight.None? {
        return Fails(InvalidInputField(input));
      }
      if maxSatWeight + satWeight.value > U64_MAX {
        PartialSum(PendingWeight(lib), psbt.inputs, k + 1);
        return Panics;
      }
      maxSatWeight := maxSatWeight + satWeight.value;
    }
    return Done(maxSatWeight);
  }

  /** The output loop counts the outputs with key sources: the CPFP one, and maybe a change. */
  method CheckSpendOutputs(lib: Library, psbt: Psbt) returns (r: Result<(), ValidationError>)
    ensures r.Ok? <==> 1 <= SumBy(HasDerivations, psbt.outputs) <= 2
    ensures r.Err? ==> KindBlames(lib, Spend, psbt, r.error)
  {
    var derivationCount := 0;
    for k := 0 to |psbt.outputs|
      invariant derivationCount == SumTo(HasDerivations, psbt.outputs, k) <= 2
    {
      if psbt.outputs[k].bip32Derivation != map[] {
        derivationCount := derivationCount + 1;
        if derivationCount > 2 {
          PartialSum(HasDerivations, psbt.outputs, k + 1);
          return Err(InvalidCountOutputWithDerivations(derivationCount));
        }
      }
    }
    if derivationCount < 1 {
      return Err(InvalidCountOutputWithDerivations(derivationCount));
    }
    return Ok(());
  }

  // ----- parsing and the life cycle

  /** Every parsed transaction has the invariant of its kind. */
  lemma ParsesGivesInv(lib: Library, kind: Kind, psbt: Psbt)
    requires Parses(lib, kind, psbt)
    ensures Inv(lib, kind, psbt)
  {
    forall i | i in psbt.inputs ensures InputInv(lib, kind, i) {
      assert SaneInput(lib, i) && KindInput(lib, kind, i);
      if kind == Unvault && !Final(i) {
        P2wshShape(lib, i.witnessScript.value);
      }
    }
    if kind == Unvault && !Final(psbt.inputs[0]) {
      assert psbt.inputs[0] in psbt.inputs;
      P2wshShape(lib, psbt.inputs[0].witnessScript.value);
    }
  }

  lemma ChangedInputStaysGood(lib: Library, kind: Kind, i: PsbtIn, j: PsbtIn)
    requires SaneInput(lib, i) && KindInput(lib, kind, i)
    requires || (j == i.(partialSigs := j.partialSigs))
             || (Final(j) && j == FinalInput(i, j.finalScriptWitness.value))
    ensures SaneInput(lib, j) && KindInput(lib, kind, j)
    ensures PendingWeight(lib)(j) <= PendingWeight(lib)(i)
  {
  }

  lemma EvolvesKeepsInputs(lib: Library, kind: Kind, a: Psbt, b: Psbt)
    requires Evolves(a, b)
    requires KindInputs(lib, kind, a.inputs) && forall i | i in a.inputs :: SaneInput(lib, i)
    ensures KindInputs(lib, kind, b.inputs) && forall i | i in b.inputs :: SaneInput(lib, i)
    ensures FullWeight(lib, b) <= FullWeight(lib, a)
  {
    forall k | 0 <= k < |a.inputs|
      ensures PendingWeight(lib)(b.inputs[k]) <= PendingWeight(lib)(a.inputs[k])
      ensures SaneInput(lib, b.inputs[k]) && KindInput(lib, kind, b.inputs[k])
    {
      assert a.inputs[k] in a.inputs;
      ChangedInputStaysGood(lib, kind, a.inputs[k], b.inputs[k]);
    }
    SumByMonotone(PendingWeight(lib), b.inputs, a.inputs);
  }

  lemma EvolvesKeepsCount(kind: Kind, a: Psbt, b: Psbt)
    requires Evolves(a, b) && KindCount(kind, a.inputs)
    ensures KindCount(kind, b.inputs)
  {
    EvolvesKeepsScripts(a, b);
    if kind.Revocation() {
      var k :| OnlyP2wsh(a.inputs, k);
      assert OnlyP2wsh(b.inputs, k);
    }
  }

  /** Whatever is signed or finalised, a parsed transaction can be written out and parsed again. */
  lemma EvolvesKeepsParses(lib: Library, kind: Kind, a: Psbt, b: Psbt)
    requires Parses(lib, kind, a) && Evolves(a, b)
    ensures Parses(lib, kind, b)
  {
    EvolvesKeepsFinality(a, b);
    EvolvesKeepsFees(a, b);
    EvolvesKeepsInputs(lib, kind, a, b);
    EvolvesKeepsCount(kind, a, b);
  }

  lemma RunKeepsParses(lib: Library, kind: Kind, psbt: Psbt, events: seq<Event>)
    requires Parses(lib, kind, psbt)
    ensures Parses(lib, kind, Run(lib, psbt, events))
  {
    RunEvolves(lib, psbt, events);
    EvolvesKeepsParses(lib, kind, psbt, Run(lib, psbt, events));
  }

  lemma ParsesSurvives(lib: Library, kind: Kind, psbt: Psbt, events: seq<Event>)
    ensures Parses(lib, kind, psbt) ==> Parses(lib, kind, Run(lib, psbt, events))
  {
    if Parses(lib, kind, psbt) {
      RunKeepsParses(lib, kind, psbt, events);
    }
  }

  /** A parsed revocation transaction has one P2WSH input and otherwise only P2WPKH ones; the index the signing
      helpers use, and the input the parser checked, are that P2WSH input. */
  lemma LookupsSeeEverything(lib: Library, kind: Kind, psbt: Psbt) returns (k: nat)
    requires kind.Revocation() && Parses(lib, kind, psbt)
    ensures OnlyP2wsh(psbt.inputs, k)
    ensures forall j | 0 <= j < |psbt.inputs| && j != k :: SpendsP2wpkh(psbt.inputs[j])
    ensures P2wshInputIndex(psbt) == Some(k) && FindRevocationtxInput(psbt.inputs) == Some(psbt.inputs[k])
    ensures CheckRevocationtxInput(psbt.inputs[k]) == Done(())
    ensures forall j | 0 <= j < |psbt.inputs| && j != k ::
              FindFeebumpingInput(psbt.inputs) == Some(psbt.inputs[j]) && CheckFeebumpInput(psbt.inputs[j]) == Done(())
  {
    k :| OnlyP2wsh(psbt.inputs, k);
    RevocationIndex(psbt, k);
    PositionIsFirst(SpendsP2wpkh, psbt.inputs);
    assert psbt.inputs[k] in psbt.inputs;
    forall j | 0 <= j < |psbt.inputs| && j != k
      ensures SpendsP2wpkh(psbt.inputs[j])
      ensures FindFeebumpingInput(psbt.inputs) == Some(psbt.inputs[j]) && CheckFeebumpInput(psbt.inputs[j]) == Done(())
    {
      assert psbt.inputs[j] in psbt.inputs && SaneInput(lib, psbt.inputs[j]);
    }
  }
}
