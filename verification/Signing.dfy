/** The life of a vault PSBT after it was built or parsed: signatures are added, then it is finalised. */
module Signing {
  import opened Wrappers
  import opened Sums
  import opened Bitcoin
  import opened Validation

  datatype Kind = Unvault | Cancel | Emergency | UnvaultEmergency | Spend {
    predicate Revocation() { Cancel? || Emergency? || UnvaultEmergency? }
  }

  datatype SatisfactionError =
    | OutOfBounds
    | AlreadyFinalized
    | MissingWitnessScript
    | InvalidSignature(signature: Signature, pubkey: PublicKey, sighash: Hash32)

  // ----- the invariant of each kind of transaction

  /** The vault inputs of revocation transactions let anyone add an input; all others commit to everything. */
  function ExpectedSighash(kind: Kind, i: PsbtIn): SigHashType {
    if kind.Revocation() && SpendsP2wsh(i) then AllPlusAnyoneCanPay else All
  }

  ghost predicate InputInv(lib: Library, kind: Kind, i: PsbtIn) {
    && i.witnessUtxo.Some? && i.nonWitnessUtxo.None? && i.redeemScript.None?
    && (SpendsP2wsh(i) || SpendsP2wpkh(i))
    && (Final(i) ==> i.witnessScript.None?)
    && (!Final(i) ==>
          && i.sighashType == Some(ExpectedSighash(kind, i))
          && (SpendsP2wsh(i) ==>
                i.witnessScript.Some? && P2wshScript(lib, i.witnessScript.value) == i.witnessUtxo.value.scriptPubkey)
          && (SpendsP2wpkh(i) ==> i.witnessScript.None?))
  }

  /** Position `k` holds the only P2WSH input. */
  ghost predicate OnlyP2wsh(inputs: seq<PsbtIn>, k: nat) {
    k < |inputs| && forall j | 0 <= j < |inputs| :: SpendsP2wsh(inputs[j]) <==> j == k
  }

  /** Which inputs a kind may have. */
  ghost predicate InputsShape(kind: Kind, inputs: seq<PsbtIn>) {
    match kind
    case Unvault => |inputs| == 1 && (Final(inputs[0]) || SpendsP2wsh(inputs[0]))
    case Spend => forall i | i in inputs :: SpendsP2wsh(i)
    case _ => |inputs| <= 2 && exists k :: OnlyP2wsh(inputs, k)
  }

  ghost predicate Inv(lib: Library, kind: Kind, psbt: Psbt) {
    && |psbt.tx.input| == |psbt.inputs|
    && (forall i | i in psbt.inputs :: InputInv(lib, kind, i))
    && AllOrNoneFinal(psbt.inputs)
    && InputsShape(kind, psbt.inputs)
  }

  // ----- signature hashes and signatures

  function SignatureHash(lib: Library, psbt: Psbt, index: nat, ty: SigHashType): Outcome<Hash32, SatisfactionError> {
    if index >= |psbt.inputs| then Fails(OutOfBounds)
    else
      var input := psbt.inputs[index];
      if input.witnessUtxo.None? then Panics
      else if IsP2wsh(input.witnessUtxo.value.scriptPubkey) then
        if input.witnessScript.None? then Fails(MissingWitnessScript)
        else HashInput(lib, psbt.tx, index, input.witnessScript.value, input.witnessUtxo.value.value, ty)
      else if !IsP2wpkh(input.witnessUtxo.value.scriptPubkey) then Panics
      else
        var witscript := P2pkhScript(input.witnessUtxo.value.scriptPubkey[2..]);
        HashInput(lib, psbt.tx, index, witscript, input.witnessUtxo.value.value, ty)
  }

  function HashInput(lib: Library, tx: Transaction, index: nat, scriptCode: Script, value: nat, ty: SigHashType)
    : Outcome<Hash32, SatisfactionError>
  {
    if index < |tx.input| then Done((lib.sighash)(Preimage(tx, index, scriptCode, value, ty))) else Panics
  }

  function RawSignature(signature: Signature, ty: SigHashType): Bytes { signature.der + [ty.Flag()] }

  function WithSignature(psbt: Psbt, index: nat, pubkey: PublicKey, raw: Bytes): Psbt
    requires index < |psbt.inputs|
  {
    var input := psbt.inputs[index];
    psbt.(inputs := psbt.inputs[index := input.(partialSigs := input.partialSigs[pubkey := raw])])
  }

  /** `add_signature` with its assertions as panics: the new PSBT and the signature it replaced. */
  function TryAddSignature(lib: Library, psbt: Psbt, index: nat, pubkey: PublicKey, signature: Signature)
    : Outcome<(Psbt, Option<Bytes>), SatisfactionError>
  {
    if index >= |psbt.inputs| then Fails(OutOfBounds)
    else
      var input := psbt.inputs[index];
      if Final(input) then Fails(AlreadyFinalized)
      else if input.witnessUtxo.None? || input.nonWitnessUtxo.Some? then Panics
      else if input.witnessScript.Some? &&
              P2wshScript(lib, input.witnessScript.value) != input.witnessUtxo.value.scriptPubkey then Panics
      else if input.witnessScript.None? && !SpendsP2wpkh(input) then Panics
      else if input.redeemScript.Some? || input.sighashType.None? then Panics
      else
        var sighash :- SignatureHash(lib, psbt, index, input.sighashType.value);
        if !(lib.verify)(sighash, signature, pubkey) then Fails(InvalidSignature(signature, pubkey, sighash))
        else
          var replaced := if pubkey in input.partialSigs then Some(input.partialSigs[pubkey]) else None;
          Done((WithSignature(psbt, index, pubkey, RawSignature(signature, input.sighashType.value)), replaced))
  }

  /** The script a signature for this input commits to. */
  ghost function ScriptCode(i: PsbtIn): Script
    requires i.witnessUtxo.Some? && (SpendsP2wsh(i) ==> i.witnessScript.Some?)
    requires SpendsP2wsh(i) || SpendsP2wpkh(i)
  {
    if SpendsP2wsh(i) then i.witnessScript.value else P2pkhScript(i.witnessUtxo.value.scriptPubkey[2..])
  }

  /** The declarative meaning of acceptance: a non-final input, and a signature over its BIP143 preimage under the
      sighash type of its kind. */
  ghost predicate Accepts(lib: Library, kind: Kind, psbt: Psbt, index: nat, pubkey: PublicKey, signature: Signature)
    requires Inv(lib, kind, psbt)
  {
    && index < |psbt.inputs|
    && !Final(psbt.inputs[index])
    && var i := psbt.inputs[index];
       assert InputInv(lib, kind, i) by { assert i in psbt.inputs; }
       var preimage := Preimage(psbt.tx, index, ScriptCode(i), i.witnessUtxo.value.value, ExpectedSighash(kind, i));
       (lib.verify)((lib.sighash)(preimage), signature, pubkey)
  }

  /** Under the invariant no assertion of the signing code can fail, and exactly the right signatures are taken. */
  lemma SigningIsSafe(lib: Library, kind: Kind, psbt: Psbt, index: nat, pubkey: PublicKey, signature: Signature)
    requires Inv(lib, kind, psbt)
    ensures !TryAddSignature(lib, psbt, index, pubkey, signature).Panics?
    ensures forall ty :: !SignatureHash(lib, psbt, index, ty).Panics?
    ensures TryAddSignature(lib, psbt, index, pubkey, signature).Done? <==>
            Accepts(lib, kind, psbt, index, pubkey, signature)
    ensures TryAddSignature(lib, psbt, index, pubkey, signature) == Fails(AlreadyFinalized) <==>
            index < |psbt.inputs| && IsFinalized(psbt)
  {
    if index < |psbt.inputs| {
      var i := psbt.inputs[index];
      assert i in psbt.inputs && InputInv(lib, kind, i);
    }
  }

  /** All that an accepted signature changes: the entry of its key in one input becomes its DER bytes and the byte of
      the sighash type, 0x81 for the vault input of a revocation and 0x01 for any other; `replaced` is what was there.
   */
  ghost predicate Stored(kind: Kind, before: Psbt, after: Psbt, index: nat, pubkey: PublicKey, signature: Signature,
                         replaced: Option<Bytes>)
  {
    && after.tx == before.tx && after.outputs == before.outputs && |after.inputs| == |before.inputs|
    && index < |before.inputs|
    && (forall j | 0 <= j < |before.inputs| && j != index :: after.inputs[j] == before.inputs[j])
    && var was, now := before.inputs[index], after.inputs[index];
       && now == was.(partialSigs := now.partialSigs)
       && now.partialSigs.Keys == was.partialSigs.Keys + {pubkey}
       && (forall key | key in was.partialSigs && key != pubkey :: now.partialSigs[key] == was.partialSigs[key])
       && now.partialSigs[pubkey] ==
          signature.der + [if kind in {Cancel, Emergency, UnvaultEmergency} && SpendsP2wsh(was) then 0x81 else 0x01]
       && (pubkey in was.partialSigs ==> replaced == Some(was.partialSigs[pubkey]))
       && (pubkey !in was.partialSigs ==> replaced == None)
  }

  lemma SignatureIsStored(lib: Library, kind: Kind, psbt: Psbt, index: nat, pubkey: PublicKey, signature: Signature)
    requires Inv(lib, kind, psbt) && TryAddSignature(lib, psbt, index, pubkey, signature).Done?
    ensures var r := TryAddSignature(lib, psbt, index, pubkey, signature).value;
            Stored(kind, psbt, r.0, index, pubkey, signature, r.1)
  {
    var i := psbt.inputs[index];
    assert i in psbt.inputs && InputInv(lib, kind, i);
  }

  /** What is signed for an input: the witness script of a P2WSH one, the P2PKH script of the same hash for a P2WPKH
      one. */
  lemma ScriptCodeIs(lib: Library, kind: Kind, i: PsbtIn)
    requires InputInv(lib, kind, i) && !Final(i)
    ensures SpendsP2wsh(i) ==> i.witnessScript == Some(ScriptCode(i))
    ensures !SpendsP2wsh(i) ==>
              exists h: Bytes ::
                && |h| == 20 && i.witnessUtxo.value.scriptPubkey == [0x00, 0x14] + h
                && ScriptCode(i) == [0x76, 0xa9, 0x14] + h + [0x88, 0xac]
  {
    if !SpendsP2wsh(i) {
      var spk := i.witnessUtxo.value.scriptPubkey;
      assert spk == [0x00, 0x14] + spk[2..];
    }
  }

  // ----- runs

  /** The effect of a successful `miniscript::psbt::finalize` on one input. */
  function FinalInput(i: PsbtIn, w: Witness): PsbtIn {
    EmptyPsbtIn.(nonWitnessUtxo := i.nonWitnessUtxo, witnessUtxo := i.witnessUtxo, finalScriptWitness := Some(w))
  }

  function Finalized(psbt: Psbt, witnesses: seq<Witness>): Psbt
    requires |witnesses| == |psbt.inputs|
  {
    psbt.(inputs := seq(|psbt.inputs|, k requires 0 <= k < |psbt.inputs| => FinalInput(psbt.inputs[k], witnesses[k])))
  }

  /** A call on the transaction; `Finalize` is a call that succeeded. */
  datatype Event = Sign(index: nat, pubkey: PublicKey, signature: Signature) | Finalize(witnesses: seq<Witness>)

  function Step(lib: Library, psbt: Psbt, e: Event): Psbt {
    match e
    case Sign(index, pubkey, signature) =>
      (match TryAddSignature(lib, psbt, index, pubkey, signature)
       case Done((signed, _)) => signed
       case _ => psbt)
    case Finalize(witnesses) => if |witnesses| == |psbt.inputs| then Finalized(psbt, witnesses) else psbt
  }

  function Run(lib: Library, psbt: Psbt, events: seq<Event>): Psbt
    decreases |events|
  {
    if events == [] then psbt else Run(lib, Step(lib, psbt, events[0]), events[1..])
  }

  /** All that a successful finalisation changes: each input gets its own witness, keeps its UTXO, and loses everything
      that served signing. */
  ghost predicate FinalisedWith(before: Psbt, after: Psbt, witnesses: seq<Witness>) {
    && after.tx == before.tx && after.outputs == before.outputs
    && |after.inputs| == |before.inputs| == |witnesses|
    && forall k | 0 <= k < |after.inputs| ::
         && after.inputs[k].finalScriptWitness == Some(witnesses[k])
         && after.inputs[k].witnessUtxo == before.inputs[k].witnessUtxo
         && after.inputs[k].nonWitnessUtxo == before.inputs[k].nonWitnessUtxo
         && Wiped(after.inputs[k])
  }

  predicate Wiped(i: PsbtIn) {
    && i.partialSigs == map[] && i.sighashType == None && i.redeemScript == None && i.witnessScript == None
    && i.bip32Derivation == map[] && i.finalScriptSig == None
  }

  lemma FinalizedIs(psbt: Psbt, witnesses: seq<Witness>)
    requires |witnesses| == |psbt.inputs|
    ensures FinalisedWith(psbt, Finalized(psbt, witnesses), witnesses)
  {
  }

  /** What one call does: a signature that is accepted is stored, any other changes nothing, and a finalisation is
      complete. */
  lemma StepIs(lib: Library, kind: Kind, psbt: Psbt, e: Event)
    requires Inv(lib, kind, psbt)
    ensures e.Sign? && Accepts(lib, kind, psbt, e.index, e.pubkey, e.signature) ==>
              exists replaced: Option<Bytes> ::
                Stored(kind, psbt, Step(lib, psbt, e), e.index, e.pubkey, e.signature, replaced)
    ensures e.Sign? && !Accepts(lib, kind, psbt, e.index, e.pubkey, e.signature) ==> Step(lib, psbt, e) == psbt
    ensures e.Finalize? && |e.witnesses| == |psbt.inputs| ==> FinalisedWith(psbt, Step(lib, psbt, e), e.witnesses)
  {
    if e.Sign? {
      SigningIsSafe(lib, kind, psbt, e.index, e.pubkey, e.signature);
      if Accepts(lib, kind, psbt, e.index, e.pubkey, e.signature) {
        SignatureIsStored(lib, kind, psbt, e.index, e.pubkey, e.signature);
        var r := TryAddSignature(lib, psbt, e.index, e.pubkey, e.signature).value;
        assert Step(lib, psbt, e) == r.0;
        assert Stored(kind, psbt, Step(lib, psbt, e), e.index, e.pubkey, e.signature, r.1);
      }
    } else if |e.witnesses| == |psbt.inputs| {
      FinalizedIs(psbt, e.witnesses);
    }
  }

  /** A run takes its steps in order, and may be cut anywhere. */
  lemma {:induction false} RunIs(lib: Library, psbt: Psbt, first: seq<Event>, e: Event, rest: seq<Event>)
    ensures Run(lib, psbt, []) == psbt
    ensures Run(lib, psbt, first + [e] + rest) == Run(lib, Step(lib, Run(lib, psbt, first), e), rest)
    decreases |first|
  {
    var all := first + [e] + rest;
    if first == [] {
      assert all == [e] + rest && all[1..] == rest;
    } else {
      RunIs(lib, Step(lib, psbt, first[0]), first[1..], e, rest);
      assert all[1..] == first[1..] + [e] + rest;
    }
  }

  /** All that can ever change: either only signatures differ, or every input was finalised. */
  ghost predicate Evolves(a: Psbt, b: Psbt) {
    && a.tx == b.tx && a.outputs == b.outputs && |a.inputs| == |b.inputs|
    && ((forall k | 0 <= k < |a.inputs| ::
           && b.inputs[k] == a.inputs[k].(partialSigs := b.inputs[k].partialSigs)
           && (Final(a.inputs[k]) ==> b.inputs[k] == a.inputs[k]))
        || (forall k | 0 <= k < |a.inputs| ::
              Final(b.inputs[k]) && b.inputs[k] == FinalInput(a.inputs[k], b.inputs[k].finalScriptWitness.value)))
  }

  lemma EvolvesTransitive(a: Psbt, b: Psbt, c: Psbt)
    requires Evolves(a, b) && Evolves(b, c)
    ensures Evolves(a, c)
  {
  }

  lemma StepEvolves(lib: Library, psbt: Psbt, e: Event)
    ensures Evolves(psbt, Step(lib, psbt, e))
  {
  }

  lemma {:induction false} RunEvolves(lib: Library, psbt: Psbt, events: seq<Event>)
    ensures Evolves(psbt, Run(lib, psbt, events))
    decreases |events|
  {
    if events != [] {
      var next := Step(lib, psbt, events[0]);
      StepEvolves(lib, psbt, events[0]);
      RunEvolves(lib, next, events[1..]);
      EvolvesTransitive(psbt, next, Run(lib, next, events[1..]));
    }
  }

  lemma EvolvesKeepsInput(lib: Library, kind: Kind, a: Psbt, b: Psbt, k: nat)
    requires Evolves(a, b) && k < |a.inputs| && InputInv(lib, kind, a.inputs[k])
    ensures InputInv(lib, kind, b.inputs[k])
  {
  }

  lemma EvolvesKeepsShape(kind: Kind, a: Psbt, b: Psbt)
    requires Evolves(a, b) && InputsShape(kind, a.inputs)
    ensures InputsShape(kind, b.inputs)
  {
    EvolvesKeepsScripts(a, b);
    if kind.Revocation() {
      var k :| OnlyP2wsh(a.inputs, k);
      assert OnlyP2wsh(b.inputs, k);
    }
  }

  lemma EvolvesKeepsInv(lib: Library, kind: Kind, a: Psbt, b: Psbt)
    requires Inv(lib, kind, a) && Evolves(a, b)
    ensures Inv(lib, kind, b)
  {
    forall i | i in b.inputs ensures InputInv(lib, kind, i) {
      var k :| 0 <= k < |b.inputs| && b.inputs[k] == i;
      assert a.inputs[k] in a.inputs;
      EvolvesKeepsInput(lib, kind, a, b, k);
    }
    EvolvesKeepsFinality(a, b);
    EvolvesKeepsShape(kind, a, b);
  }

  lemma EvolvesKeepsFinality(a: Psbt, b: Psbt)
    requires AllOrNoneFinal(a.inputs) && Evolves(a, b)
    ensures AllOrNoneFinal(b.inputs)
  {
    forall i, j | i in b.inputs && j in b.inputs ensures Final(i) == Final(j) {
      var k :| 0 <= k < |b.inputs| && b.inputs[k] == i;
      var l :| 0 <= l < |b.inputs| && b.inputs[l] == j;
      assert a.inputs[k] in a.inputs && a.inputs[l] in a.inputs;
    }
  }

  lemma EvolvesKeepsScripts(a: Psbt, b: Psbt)
    requires Evolves(a, b)
    ensures forall k | 0 <= k < |a.inputs| ::
              && b.inputs[k].witnessUtxo == a.inputs[k].witnessUtxo
              && SpendsP2wsh(b.inputs[k]) == SpendsP2wsh(a.inputs[k])
              && SpendsP2wpkh(b.inputs[k]) == SpendsP2wpkh(a.inputs[k])
    ensures (forall i | i in a.inputs :: SpendsP2wsh(i)) ==> forall i | i in b.inputs :: SpendsP2wsh(i)
  {
    forall k | 0 <= k < |a.inputs| ensures b.inputs[k].witnessUtxo == a.inputs[k].witnessUtxo {}
    if forall i | i in a.inputs :: SpendsP2wsh(i) {
      forall i | i in b.inputs ensures SpendsP2wsh(i) {
        var k :| 0 <= k < |b.inputs| && b.inputs[k] == i;
        assert a.inputs[k] in a.inputs;
      }
    }
  }

  /** Safety over whole runs: from any PSBT with the invariant, every sequence of signatures and successful
      finalisations keeps it, and nothing the next call asserts can fail. */
  lemma RunIsSafe(lib: Library, kind: Kind, psbt: Psbt, events: seq<Event>, index: nat, pubkey: PublicKey,
                  signature: Signature)
    requires Inv(lib, kind, psbt)
    ensures Inv(lib, kind, Run(lib, psbt, events))
    ensures !TryAddSignature(lib, Run(lib, psbt, events), index, pubkey, signature).Panics?
    ensures forall ty :: !SignatureHash(lib, Run(lib, psbt, events), index, ty).Panics?
    ensures kind.Revocation() ==> P2wshInputIndex(Run(lib, psbt, events)).Some?
    ensures Run(lib, psbt, events).tx == psbt.tx && Run(lib, psbt, events).outputs == psbt.outputs
    ensures Fees(Run(lib, psbt, events)) == Fees(psbt)
  {
    var now := Run(lib, psbt, events);
    RunEvolves(lib, psbt, events);
    EvolvesKeepsInv(lib, kind, psbt, now);
    SigningIsSafe(lib, kind, now, index, pubkey, signature);
    if kind.Revocation() {
      var k :| OnlyP2wsh(now.inputs, k);
      RevocationIndex(now, k);
    }
    EvolvesKeepsFees(psbt, now);
  }

  lemma EvolvesKeepsUtxos(a: Psbt, b: Psbt)
    requires Evolves(a, b) && forall i | i in a.inputs :: i.witnessUtxo.Some?
    ensures forall i | i in b.inputs :: i.witnessUtxo.Some?
  {
    forall i | i in b.inputs ensures i.witnessUtxo.Some? {
      var k :| 0 <= k < |b.inputs| && b.inputs[k] == i;
      assert a.inputs[k] in a.inputs;
    }
  }

  lemma EvolvesLosesNoUtxo(a: Psbt, b: Psbt)
    requires Evolves(a, b) && forall i | i in b.inputs :: i.witnessUtxo.Some?
    ensures forall i | i in a.inputs :: i.witnessUtxo.Some?
  {
    forall i | i in a.inputs ensures i.witnessUtxo.Some? {
      var k :| 0 <= k < |a.inputs| && a.inputs[k] == i;
      assert b.inputs[k] in b.inputs;
    }
  }

  lemma EvolvesKeepsSpent(a: Psbt, b: Psbt)
    requires Evolves(a, b)
    ensures SumBy(SpentValue, a.inputs) == SumBy(SpentValue, b.inputs)
  {
    EvolvesKeepsScripts(a, b);
    SumByCongruent(SpentValue, a.inputs, SpentValue, b.inputs);
  }

  lemma EvolvesKeepsFees(a: Psbt, b: Psbt)
    requires Evolves(a, b)
    ensures Fees(a) == Fees(b)
    ensures SumBy(SpentValue, a.inputs) == SumBy(SpentValue, b.inputs)
  {
    EvolvesKeepsSpent(a, b);
    if forall i | i in a.inputs :: i.witnessUtxo.Some? {
      EvolvesKeepsUtxos(a, b);
    }
    if forall i | i in b.inputs :: i.witnessUtxo.Some? {
      EvolvesLosesNoUtxo(a, b);
    }
  }

  /** The index the signing helpers use is the place of the only P2WSH input, the one the parser checked. */
  lemma RevocationIndex(psbt: Psbt, k: nat)
    requires OnlyP2wsh(psbt.inputs, k)
    ensures P2wshInputIndex(psbt) == Some(k)
    ensures FindRevocationtxInput(psbt.inputs) == Some(psbt.inputs[k])
  {
    PositionIsFirst(SpendsP2wsh, psbt.inputs);
    assert psbt.inputs[k] in psbt.inputs;
  }

  /** A signature already present changes neither the verdict on another one nor the bytes it adds. */
  lemma VerdictIgnoresSignatures(lib: Library, psbt: Psbt, i: nat, k: PublicKey, s: Signature, j: nat, l: PublicKey,
                                 raw: Bytes)
    requires TryAddSignature(lib, psbt, i, k, s).Done? && j < |psbt.inputs|
    ensures var p := WithSignature(psbt, j, l, raw);
            var r := TryAddSignature(lib, p, i, k, s);
            r.Done? && r.value.0 == WithSignature(p, i, k, RawSignature(s, psbt.inputs[i].sighashType.value))
  {
    var p := WithSignature(psbt, j, l, raw);
    assert SignatureHash(lib, p, i, psbt.inputs[i].sighashType.value) ==
           SignatureHash(lib, psbt, i, psbt.inputs[i].sighashType.value);
  }

  lemma WritesCommute(psbt: Psbt, i: nat, k: PublicKey, a: Bytes, j: nat, l: PublicKey, b: Bytes)
    requires (i, k) != (j, l) && i < |psbt.inputs| && j < |psbt.inputs|
    ensures WithSignature(WithSignature(psbt, i, k, a), j, l, b) == WithSignature(WithSignature(psbt, j, l, b), i, k, a)
  {
    if i == j {
      assert psbt.inputs[i].partialSigs[k := a][l := b] == psbt.inputs[i].partialSigs[l := b][k := a];
    }
    assert WithSignature(WithSignature(psbt, i, k, a), j, l, b).inputs ==
           WithSignature(WithSignature(psbt, j, l, b), i, k, a).inputs;
  }

  /** Two accepted signatures give the same PSBT whichever is added first. */
  lemma SignaturesCommute(lib: Library, psbt: Psbt, i: nat, k: PublicKey, s: Signature, j: nat, l: PublicKey,
                          t: Signature)
    requires (i, k) != (j, l)
    requires TryAddSignature(lib, psbt, i, k, s).Done? && TryAddSignature(lib, psbt, j, l, t).Done?
    ensures Run(lib, psbt, [Sign(i, k, s), Sign(j, l, t)]) == Run(lib, psbt, [Sign(j, l, t), Sign(i, k, s)])
  {
    var a := RawSignature(s, psbt.inputs[i].sighashType.value);
    var b := RawSignature(t, psbt.inputs[j].sighashType.value);
    TwoSteps(lib, psbt, Sign(i, k, s), Sign(j, l, t));
    TwoSteps(lib, psbt, Sign(j, l, t), Sign(i, k, s));
    VerdictIgnoresSignatures(lib, psbt, j, l, t, i, k, a);
    VerdictIgnoresSignatures(lib, psbt, i, k, s, j, l, b);
    WritesCommute(psbt, i, k, a, j, l, b);
  }

  lemma TwoSteps(lib: Library, psbt: Psbt, d: Event, e: Event)
    ensures Run(lib, psbt, [d, e]) == Step(lib, Step(lib, psbt, d), e)
  {
    var next := Step(lib, psbt, d);
    assert [d, e][1..] == [e];
    assert Run(lib, psbt, [d, e]) == Run(lib, next, [e]);
    assert [e][1..] == [];
    assert Run(lib, next, [e]) == Run(lib, Step(lib, next, e), []);
  }

  // ----- the object the signers hold

  /** What the library's finalizer reports; on failure it leaves the inputs in an unknown state. */
  datatype FinalizeEffect = Satisfied(witnesses: seq<Witness>) | Unsatisfied(leftover: seq<PsbtIn>)

  datatype FinalizeError = TransactionFinalisation | ConsensusFailure(index: nat)

  class RevaultTransaction {
    const lib: Library
    const kind: Kind
    var psbt: Psbt

    ghost predicate Valid()
      reads this
    {
      Inv(lib, kind, psbt)
    }

    constructor (lib: Library, kind: Kind, psbt: Psbt)
      requires Inv(lib, kind, psbt)
      ensures Valid()
      ensures this.lib == lib && this.kind == kind && this.psbt == psbt
    {
      this.lib, this.kind, this.psbt := lib, kind, psbt;
    }

    /** The code's assertions are assertions here, proved from the invariant. */
    method AddSignature(index: nat, pubkey: PublicKey, signature: Signature)
      returns (r: Result<Option<Bytes>, SatisfactionError>)
      requires Valid()
      modifies this`psbt
      ensures Valid()
      ensures r.Ok? <==> Accepts(lib, kind, old(psbt), index, pubkey, signature)
      ensures r.Ok? ==> Stored(kind, old(psbt), psbt, index, pubkey, signature, r.value)
      ensures r.Ok? ==> TryAddSignature(lib, old(psbt), index, pubkey, signature) == Done((psbt, r.value))
      ensures r.Err? ==> psbt == old(psbt) && TryAddSignature(lib, psbt, index, pubkey, signature) == Fails(r.error)
    {
      SigningIsSafe(lib, kind, psbt, index, pubkey, signature);
      if index >= |psbt.inputs| {
        return Err(OutOfBounds);
      }
      var psbtin := psbt.inputs[index];
      assert InputInv(lib, kind, psbtin);
      if Final(psbtin) {
        return Err(AlreadyFinalized);
      }
      assert psbtin.witnessUtxo.Some?;
      assert psbtin.nonWitnessUtxo.None?;
      if psbtin.witnessScript.Some? {
        assert P2wshScript(lib, psbtin.witnessScript.value) == psbtin.witnessUtxo.value.scriptPubkey;
      } else {
        assert SpendsP2wpkh(psbtin);
      }
      assert psbtin.redeemScript.None?;
      assert psbtin.sighashType.Some?;
      var expectedSighashType := psbtin.sighashType.value;
      var hashed := SignatureHash(lib, psbt, index, expectedSighashType);
      assert hashed.Done?;
      if !(lib.verify)(hashed.value, signature, pubkey) {
        return Err(InvalidSignature(signature, pubkey, hashed.value));
      }
      var rawsig := RawSignature(signature, expectedSighashType);
      var replaced := if pubkey in psbtin.partialSigs then Some(psbtin.partialSigs[pubkey]) else None;
      ghost var before := psbt;
      psbt := psbt.(inputs := psbt.inputs[index := psbtin.(partialSigs := psbtin.partialSigs[pubkey := rawsig])]);
      SignatureIsStored(lib, kind, before, index, pubkey, signature);
      StepEvolves(lib, before, Sign(index, pubkey, signature));
      EvolvesKeepsInv(lib, kind, before, psbt);
      return Ok(replaced);
    }

    /** `add_cancel_sig` and `add_emer_sig`: sign the vault input, wherever the fee-bump input stands. */
    method AddRevocationSig(pubkey: PublicKey, signature: Signature)
      returns (r: Result<Option<Bytes>, SatisfactionError>)
      requires Valid() && kind.Revocation()
      modifies this`psbt
      ensures Valid()
      ensures psbt.tx == old(psbt).tx && |psbt.inputs| == |old(psbt).inputs|
      ensures exists k ::
                && OnlyP2wsh(old(psbt).inputs, k)
                && (r.Ok? <==> Accepts(lib, kind, old(psbt), k, pubkey, signature))
                && (r.Ok? ==> Stored(kind, old(psbt), psbt, k, pubkey, signature, r.value))
                && (r.Ok? ==> TryAddSignature(lib, old(psbt), k, pubkey, signature) == Done((psbt, r.value)))
                && forall j | 0 <= j < |psbt.inputs| && j != k :: psbt.inputs[j] == old(psbt).inputs[j]
      ensures r.Err? ==> psbt == old(psbt)
    {
      ghost var k :| OnlyP2wsh(psbt.inputs, k);
      RevocationIndex(psbt, k);
      var inputIndex := P2wshInputIndex(psbt).value;
      r := AddSignature(inputIndex, pubkey, signature);
    }

    /** `add_sig` of the Unvault. */
    method AddSig(pubkey: PublicKey, signature: Signature) returns (r: Result<Option<Bytes>, SatisfactionError>)
      requires Valid() && kind == Unvault
      modifies this`psbt
      ensures Valid()
      ensures r.Ok? <==> Accepts(lib, kind, old(psbt), 0, pubkey, signature)
      ensures r.Ok? ==> Stored(kind, old(psbt), psbt, 0, pubkey, signature, r.value)
      ensures r.Ok? ==> TryAddSignature(lib, old(psbt), 0, pubkey, signature) == Done((psbt, r.value))
      ensures r != Err(OutOfBounds)
      ensures r.Err? ==> psbt == old(psbt)
    {
      r := AddSignature(0, pubkey, signature);
    }

    /** Consensus accepts input `k` of the transaction as it would be broadcast, spending the known output. */
    ghost predicate ConsensusAccepts(k: nat)
      requires Valid() && k < |psbt.inputs|
      reads this
    {
      assert InputInv(lib, kind, psbt.inputs[k]) by { assert psbt.inputs[k] in psbt.inputs; }
      lib.consensus(psbt.inputs[k].witnessUtxo.value, Extracted(psbt), k)
    }

    /** Finalise, then check every input against consensus. After `TransactionFinalisation` nothing is known. */
    method Finalize(effect: FinalizeEffect) returns (r: Result<(), FinalizeError>)
      requires Valid()
      requires effect.Satisfied? ==> |effect.witnesses| == |psbt.inputs|
      modifies this`psbt
      ensures effect.Satisfied? ==> Valid() && FinalisedWith(old(psbt), psbt, effect.witnesses)
      ensures effect.Satisfied? ==> psbt == Finalized(old(psbt), effect.witnesses)
      ensures r.Ok? <==> effect.Satisfied? && forall k | 0 <= k < |psbt.inputs| :: ConsensusAccepts(k)
      ensures r.Ok? ==> (forall i | i in psbt.inputs :: Final(i)) && (IsFinalized(psbt) <==> psbt.inputs != [])
      ensures effect.Unsatisfied? <==> r == Err(TransactionFinalisation)
      ensures effect.Satisfied? && r.Err? ==> r.error.ConsensusFailure? && FirstFailure(r.error.index)
    {
      match effect
      case Unsatisfied(leftover) =>
        psbt := psbt.(inputs := leftover);
        return Err(TransactionFinalisation);
      case Satisfied(witnesses) =>
        ghost var before := psbt;
        psbt := Finalized(psbt, witnesses);
        FinalizedIs(before, witnesses);
        StepEvolves(lib, before, Event.Finalize(witnesses));
        EvolvesKeepsInv(lib, kind, before, psbt);
        r := VerifyInputs();
        if psbt.inputs != [] {
          assert psbt.inputs[0] in psbt.inputs;
        }
    }

    /** The first input consensus rejects. */
    ghost predicate FirstFailure(k: nat)
      requires Valid()
      reads this
    {
      k < |psbt.inputs| && !ConsensusAccepts(k) && forall j | 0 <= j < k :: ConsensusAccepts(j)
    }

    /** Every input is given to libbitcoinconsensus with the output it spends, which is always known. */
    method VerifyInputs() returns (r: Result<(), FinalizeError>)
      requires Valid()
      ensures r.Ok? <==> forall k | 0 <= k < |psbt.inputs| :: ConsensusAccepts(k)
      ensures r.Err? ==> r.error.ConsensusFailure? && FirstFailure(r.error.index)
    {
      var signedTx := Extracted(psbt);
      for k := 0 to |psbt.inputs|
        invariant forall j | 0 <= j < k :: ConsensusAccepts(j)
      {
        assert InputInv(lib, kind, psbt.inputs[k]);
        assert psbt.inputs[k].witnessUtxo.Some?;
        if !lib.consensus(psbt.inputs[k].witnessUtxo.value, signedTx, k) {
          assert !ConsensusAccepts(k);
          return Err(ConsensusFailure(k));
        }
      }
      return Ok(());
    }
  }
}
