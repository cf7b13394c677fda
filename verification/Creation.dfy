/** What the transaction constructors share. */
module Creation {
  import opened Wrappers
  import opened Sums
  import opened Bitcoin
  import opened TxOuts
  import opened Validation
  import opened Parsing

  const UNVAULT_CPFP_VALUE := 30_000
  const UNVAULT_TX_FEERATE := 6
  const CANCEL_TX_FEERATE := 22
  const EMER_TX_FEERATE := 75
  const DUST_LIMIT := 200_000
  const INSANE_FEES := 20_000_000
  const CPFP_MIN_CHANGE := 10_000

  datatype CreationError =
    | InsaneAmounts
    | InsaneFees
    | Dust
    | NegativeFees
    | TooLarge
    | DuplicatedInput
    | InsufficientFunds

  /** The PSBT input of a vault output about to be spent. */
  function VaultInput(t: InternalTxOut, ty: SigHashType): PsbtIn {
    EmptyPsbtIn.(witnessScript := Some(t.witnessScript), bip32Derivation := t.bip32Derivation,
                 sighashType := Some(ty), witnessUtxo := Some(t.txout))
  }

  function FeeBumpPsbtIn(f: FeeBumpTxIn): PsbtIn {
    EmptyPsbtIn.(sighashType := Some(All), witnessUtxo := Some(f.txout))
  }

  function DerivedOutput(d: Derivations): PsbtOut { EmptyPsbtOut.(bip32Derivation := d) }

  lemma VaultInputIsGood(lib: Library, t: InternalTxOut, ty: SigHashType)
    requires ValidTxOut(lib, t)
    ensures var i := VaultInput(t, ty);
            && DescribedInput(lib, i, ty) && SpendsP2wsh(i) && !SpendsP2wpkh(i) && !Final(i)
            && SatWeightOf(lib, i) == MaxSatWeight(lib, t) && MaxSatWeight(lib, t).Some?
            && (SaneInput(lib, i) <==> t.txout.value <= MAX_MONEY)
  {
    P2wshShape(lib, t.witnessScript);
  }

  /** The weight of a transaction once its single vault input is satisfied; `None` is an `expect` that fires. */
  function SignedWeight(lib: Library, tx: Transaction, t: InternalTxOut): Option<nat> {
    match MaxSatWeight(lib, t)
    case None => None
    case Some(sat) => if Weight(tx) + sat > U64_MAX then None else Some(Weight(tx) + sat)
  }

  // ----- what a constructed transaction says, field by field

  /** An input that nobody has signed yet. */
  predicate Unsigned(p: PsbtIn) {
    && p.partialSigs == map[] && p.nonWitnessUtxo == None && p.redeemScript == None
    && p.finalScriptSig == None && p.finalScriptWitness == None
  }

  /** The input spends this very coin, with its sequence, and tells signers all about it. */
  predicate SpendsCoin(i: TxIn, p: PsbtIn, c: InternalTxIn, ty: SigHashType) {
    && i.previousOutput == c.outpoint && i.sequence == c.sequence
    && p.witnessUtxo == Some(c.txout.txout) && p.witnessScript == Some(c.txout.witnessScript)
    && p.bip32Derivation == c.txout.bip32Derivation && p.sighashType == Some(ty) && Unsigned(p)
  }

  /** The input spends this fee-bump coin, signalling replacement, to be signed with `ALL`. */
  predicate SpendsFeeBump(i: TxIn, p: PsbtIn, f: FeeBumpTxIn) {
    && i.previousOutput == f.outpoint && i.sequence == 0xffff_fffd
    && p.witnessUtxo == Some(f.txout) && p.witnessScript == None && p.bip32Derivation == map[]
    && p.sighashType == Some(All) && Unsigned(p)
  }

  /** The output pays to this descriptor's script and lists its keys. */
  ghost predicate PaysTo(lib: Library, o: TxOut, p: PsbtOut, d: DerivedDescriptor) {
    && o.scriptPubkey == [0x00, 0x20] + lib.sha256(d.script) && SourcesOf(p.bip32Derivation, d.keys)
    && p.redeemScript == None && p.witnessScript == None
  }

  /** An output of somebody else: nothing is said about it. */
  predicate Undescribed(p: PsbtOut) { p.bip32Derivation == map[] && p.redeemScript == None && p.witnessScript == None }

  // ----- sums over typed inputs

  /** The weight of the satisfaction of an input. */
  function TxinSat(lib: Library): InternalTxIn -> nat {
    (t: InternalTxIn) => if MaxSatWeight(lib, t.txout).Some? then MaxSatWeight(lib, t.txout).value else 0
  }

  function TxinValue(t: InternalTxIn): nat { t.txout.txout.value }

  function TxinPoint(t: InternalTxIn): OutPoint { t.outpoint }

  function UnsignedInput(t: InternalTxIn): TxIn { t.Unsigned() }

  // ----- max_weight

  /** The weight a satisfied input adds, as `max_weight` counts it: for a final input the bytes of its witness
      elements. */
  function InputWeight(lib: Library, final: bool, i: PsbtIn): Option<nat> {
    if final then
      if i.finalScriptWitness.None? then None else Some(SumBy(ElementSize, i.finalScriptWitness.value))
    else SatWeightOf(lib, i)
  }

  function ElementSize(e: Bytes): nat { |e| }

  /** `max_weight` of the Unvault; `None` when one of its `expect`s fires. */
  function UnvaultMaxWeight(lib: Library, psbt: Psbt): Option<nat> {
    if psbt.inputs == [] then None else
    match InputWeight(lib, IsFinalized(psbt), psbt.inputs[0])
    case None => None
    case Some(w) => if Weight(psbt.tx) + w > U64_MAX then None else Some(Weight(psbt.tx) + w)
  }
}
