/** The Bitcoin values the library works on: scripts, transactions, PSBTs, weights and BIP143 preimages. */
module Bitcoin {
  import opened Wrappers
  import opened Sums

  const U64_MAX := 0xffff_ffff_ffff_ffff
  const MAX_MONEY := 2_100_000_000_000_000

  type byte = b: int | 0 <= b < 256
  type Bytes = seq<byte>
  type Script = Bytes
  type u64 = n: int | 0 <= n <= U64_MAX
  type Hash32 = h: Bytes | |h| == 32 witness seq(32, _ => 0)

  /** A public key, named by its place in the order of a `BTreeMap`. */
  type PublicKey = nat
  datatype Signature = Signature(der: Bytes)

  datatype OutPoint = OutPoint(txid: Hash32, vout: nat)

  /** An input of an unsigned transaction: its scriptSig and witness are always empty. */
  datatype TxIn = TxIn(previousOutput: OutPoint, sequence: nat)
  datatype TxOut = TxOut(value: u64, scriptPubkey: Script)
  datatype Transaction = Transaction(version: int, lockTime: nat, input: seq<TxIn>, output: seq<TxOut>)

  datatype SigHashType = All | NoOutputs | Single
                       | AllPlusAnyoneCanPay | NonePlusAnyoneCanPay | SinglePlusAnyoneCanPay
  {
    predicate AnyoneCanPay() { AllPlusAnyoneCanPay? || NonePlusAnyoneCanPay? || SinglePlusAnyoneCanPay? }

    function Base(): SigHashType {
      match this
      case AllPlusAnyoneCanPay => All
      case NonePlusAnyoneCanPay => NoOutputs
      case SinglePlusAnyoneCanPay => Single
      case t => t
    }

    /** The byte appended to a signature. */
    function Flag(): byte {
      match this
      case All => 0x01
      case NoOutputs => 0x02
      case Single => 0x03
      case AllPlusAnyoneCanPay => 0x81
      case NonePlusAnyoneCanPay => 0x82
      case SinglePlusAnyoneCanPay => 0x83
    }
  }

  datatype KeySource = KeySource(fingerprint: Bytes, path: seq<nat>)
  type Derivations = map<PublicKey, KeySource>
  type Witness = seq<Bytes>

  datatype PsbtIn = PsbtIn(
    nonWitnessUtxo: Option<Transaction>,
    witnessUtxo: Option<TxOut>,
    partialSigs: map<PublicKey, Bytes>,
    sighashType: Option<SigHashType>,
    redeemScript: Option<Script>,
    witnessScript: Option<Script>,
    bip32Derivation: Derivations,
    finalScriptSig: Option<Script>,
    finalScriptWitness: Option<Witness>)

  datatype PsbtOut = PsbtOut(redeemScript: Option<Script>, witnessScript: Option<Script>, bip32Derivation: Derivations)

  datatype Psbt = Psbt(tx: Transaction, inputs: seq<PsbtIn>, outputs: seq<PsbtOut>)

  /** A transaction with the scriptSigs and witnesses of its inputs. */
  datatype SignedTransaction = SignedTransaction(tx: Transaction, satisfactions: seq<(Script, Witness)>)

  const EmptyPsbtIn := PsbtIn(None, None, map[], None, None, None, map[], None, None)
  const EmptyPsbtOut := PsbtOut(None, None, map[])

  /** What the repository gets from other crates, as arbitrary functions: every lemma holds for all of them. */
  datatype Library = Library(
    sha256: Script -> Hash32,
    parses: Script -> bool,                // Miniscript::parse, Segwit v0
    satWeight: Script -> Option<nat>,      // Wsh::new(..) then max_satisfaction_weight()
    txid: Transaction -> Hash32,
    sighash: SigPreimage -> Hash32,
    verify: (Hash32, Signature, PublicKey) -> bool,
    consensus: (TxOut, SignedTransaction, nat) -> bool,  // libbitcoinconsensus, on the output an input spends
    deriveKey: (nat, nat) -> PublicKey)    // BIP32 child of an xpub

  // ----- extraction

  function Extracted(psbt: Psbt): SignedTransaction { SignedTransaction(psbt.tx, Image(Satisfaction, psbt.inputs)) }

  function Satisfaction(i: PsbtIn): (Script, Witness) { (FinalScriptSig(i), FinalWitness(i)) }

  function FinalScriptSig(i: PsbtIn): Script { if i.finalScriptSig.Some? then i.finalScriptSig.value else [] }

  function FinalWitness(i: PsbtIn): Witness { if i.finalScriptWitness.Some? then i.finalScriptWitness.value else [] }

  /** What is broadcast: the transaction, with the final scripts and witnesses of its inputs in their order. */
  lemma ExtractedIs(psbt: Psbt, k: nat)
    requires k < |psbt.inputs|
    ensures Extracted(psbt).tx == psbt.tx && |Extracted(psbt).satisfactions| == |psbt.inputs|
    ensures var i, s := psbt.inputs[k], Extracted(psbt).satisfactions[k];
            && (i.finalScriptSig.Some? ==> s.0 == i.finalScriptSig.value)
            && (i.finalScriptSig.None? ==> s.0 == [])
            && (i.finalScriptWitness.Some? ==> s.1 == i.finalScriptWitness.value)
            && (i.finalScriptWitness.None? ==> s.1 == [])
  {
  }

  // ----- scripts

  function P2wshScript(lib: Library, witnessScript: Script): Script {
    [0x00, 0x20] + lib.sha256(witnessScript)
  }

  predicate IsP2wsh(spk: Script) { |spk| == 34 && spk[0] == 0x00 && spk[1] == 0x20 }

  predicate IsP2wpkh(spk: Script) { |spk| == 22 && spk[0] == 0x00 && spk[1] == 0x14 }

  predicate IsOpReturn(spk: Script) { |spk| > 0 && spk[0] == 0x6a }

  /** A version opcode followed by a single push of 2 to 40 bytes. */
  predicate IsWitnessProgram(spk: Script) {
    4 <= |spk| <= 42 && (spk[0] == 0 || 0x51 <= spk[0] <= 0x60) && spk[1] == |spk| - 2
  }

  /** The scriptCode of a P2WPKH input. */
  function P2pkhScript(pkh: Bytes): Script {
    [0x76, 0xa9, 0x14] + pkh + [0x88, 0xac]
  }

  /** The two kinds of outputs that may be spent are a version byte, a push, and a hash of 32 or 20 bytes. */
  lemma ScriptShapes(spk: Script)
    ensures IsP2wsh(spk) <==> exists h: Bytes :: |h| == 32 && spk == [0x00, 0x20] + h
    ensures IsP2wpkh(spk) <==> exists h: Bytes :: |h| == 20 && spk == [0x00, 0x14] + h
    ensures IsOpReturn(spk) <==> exists rest: Bytes :: spk == [0x6a] + rest
  {
    if |spk| >= 2 {
      assert spk == [spk[0], spk[1]] + spk[2..];
    }
    if |spk| >= 1 {
      assert spk == [spk[0]] + spk[1..];
    }
  }

  // ----- sizes

  function VarIntLen(n: nat): (len: nat)
    ensures 1 <= len <= 9
  {
    if n < 0xfd then 1 else if n <= 0xffff then 3 else if n <= 0xffff_ffff then 5 else 9
  }

  function TxOutSize(o: TxOut): nat { 8 + VarIntLen(|o.scriptPubkey|) + |o.scriptPubkey| }

  /** BIP141 weight of a transaction without witnesses: four units a byte. */
  function Weight(tx: Transaction): (w: nat)
    ensures w > 0
  {
    4 * (4 + VarIntLen(|tx.input|) + 41 * |tx.input| + VarIntLen(|tx.output|) + SumBy(TxOutSize, tx.output) + 4)
  }

  /** The threshold of Bitcoin Core's GetDustThreshold at 3 sat/vbyte. */
  function DustValue(spk: Script): nat {
    if IsOpReturn(spk) then 0
    else 3 * ((if IsWitnessProgram(spk) then 67 else 148) + 8 + VarIntLen(|spk|) + |spk|)
  }

  function TxOutValue(o: TxOut): nat { o.value }

  function SpentValue(i: PsbtIn): nat { if i.witnessUtxo.Some? then i.witnessUtxo.value.value else 0 }

  function SpentPoint(i: TxIn): OutPoint { i.previousOutput }

  /** Amounts do not weigh: the weight depends only on the number of inputs and the output scripts' lengths. */
  lemma WeightIgnoresValues(a: Transaction, b: Transaction)
    requires |a.input| == |b.input| && |a.output| == |b.output|
    requires forall i | 0 <= i < |a.output| :: |a.output[i].scriptPubkey| == |b.output[i].scriptPubkey|
    ensures Weight(a) == Weight(b)
  {
    SumByCongruent(TxOutSize, a.output, TxOutSize, b.output);
  }

  lemma OneOutputWeight(tx: Transaction)
    requires |tx.output| == 1
    ensures Weight(tx) == 4 * (9 + VarIntLen(|tx.input|) + 41 * |tx.input| + TxOutSize(tx.output[0]))
  {
    assert tx.output == [] + [tx.output[0]];
    SumBySnoc(TxOutSize, [], tx.output[0]);
  }

  /** An empty transaction weighs 40 units; an input adds 164 and an output 36 and four for each script byte, but for
      the counts that take more bytes as they grow. */
  lemma WeightGrows(tx: Transaction, i: TxIn, o: TxOut)
    ensures tx.input == [] && tx.output == [] ==> Weight(tx) == 40
    ensures Weight(tx.(input := tx.input + [i])) == Weight(tx) + 164 + CountGrows(|tx.input|)
    ensures |o.scriptPubkey| <= 252 ==>
              Weight(tx.(output := tx.output + [o])) == Weight(tx) + 36 + 4 * |o.scriptPubkey| + CountGrows(|tx.output|)
  {
    SumBySnoc(TxOutSize, tx.output, o);
  }

  /** The extra weight of counting one more than `n` things. */
  function CountGrows(n: nat): nat { if n == 252 || n == 65535 then 8 else if n == 4294967295 then 16 else 0 }

  /** The well-known dust thresholds: none for an OP_RETURN, 330 and 294 for the two witness forms, 546 for P2PKH. */
  lemma DustThresholds(h: Bytes)
    ensures DustValue([0x6a] + h) == 0
    ensures |h| == 32 ==> DustValue([0x00, 0x20] + h) == 330 && DustValue([0x51, 0x20] + h) == 330
    ensures |h| == 20 ==> DustValue([0x00, 0x14] + h) == 294
    ensures |h| == 20 ==> DustValue([0x76, 0xa9, 0x14] + h + [0x88, 0xac]) == 546
    ensures |h| == 20 ==> DustValue([0xa9, 0x14] + h + [0x87]) == 540
  {
  }

  // ----- BIP143

  /** The BIP143 preimage; `None` stands for the 32 zero bytes of an omitted hash. */
  datatype SigPreimage = SigPreimage(
    version: int,
    prevouts: Option<seq<OutPoint>>,
    sequences: Option<seq<nat>>,
    outpoint: OutPoint,
    scriptCode: Script,
    value: nat,
    sequence: nat,
    outputs: Option<seq<TxOut>>,
    lockTime: nat,
    sighashType: SigHashType)

  function Preimage(tx: Transaction, index: nat, scriptCode: Script, value: nat, ty: SigHashType): SigPreimage
    requires index < |tx.input|
  {
    SigPreimage(
      tx.version,
      if ty.AnyoneCanPay() then None
      else Some(seq(|tx.input|, i requires 0 <= i < |tx.input| => tx.input[i].previousOutput)),
      if ty.AnyoneCanPay() || ty.Base() != All then None
      else Some(seq(|tx.input|, i requires 0 <= i < |tx.input| => tx.input[i].sequence)),
      tx.input[index].previousOutput,
      scriptCode,
      value,
      tx.input[index].sequence,
      if ty.Base() == All then Some(tx.output)
      else if ty.Base() == Single && index < |tx.output| then Some([tx.output[index]])
      else None,
      tx.lockTime,
      ty)
  }

  /** What a preimage commits to, for any two inputs of any two transactions under any two sighash types: always the
      input with its sequence, script code and amount, and the version and locktime; without ANYONECANPAY every
      outpoint, and under plain `ALL` every sequence; under `ALL` all outputs, under `SINGLE` the matching one. */
  lemma PreimageCommits(a: Transaction, i: nat, c: Script, v: nat, s: SigHashType,
                        b: Transaction, j: nat, d: Script, w: nat, t: SigHashType)
    requires i < |a.input| && j < |b.input|
    ensures Preimage(a, i, c, v, s) == Preimage(b, j, d, w, t) <==>
            && s == t && c == d && v == w && a.input[i] == b.input[j]
            && a.version == b.version && a.lockTime == b.lockTime
            && (s == All || s == NoOutputs || s == Single ==> SamePoints(a.input, b.input))
            && (s == All ==> a.input == b.input)
            && (s == All || s == AllPlusAnyoneCanPay ==> a.output == b.output)
            && (s == Single || s == SinglePlusAnyoneCanPay ==>
                if i < |a.output| && j < |b.output| then a.output[i] == b.output[j]
                else i >= |a.output| && j >= |b.output|)
  {
    var p, q := Preimage(a, i, c, v, s), Preimage(b, j, d, w, t);
    if s == t && (s == All || s == NoOutputs || s == Single) {
      SamePointsIs(a.input, b.input, p.prevouts.value, q.prevouts.value);
    }
    if s == t == All {
      SameInputsIs(a.input, b.input, p.prevouts.value, q.prevouts.value, p.sequences.value, q.sequences.value);
    }
  }

  ghost predicate SamePoints(a: seq<TxIn>, b: seq<TxIn>) {
    |a| == |b| && forall k | 0 <= k < |a| :: a[k].previousOutput == b[k].previousOutput
  }

  lemma SamePointsIs(a: seq<TxIn>, b: seq<TxIn>, p: seq<OutPoint>, q: seq<OutPoint>)
    requires |p| == |a| && |q| == |b|
    requires forall k | 0 <= k < |a| :: p[k] == a[k].previousOutput
    requires forall k | 0 <= k < |b| :: q[k] == b[k].previousOutput
    ensures p == q <==> SamePoints(a, b)
  {
    if p == q {
      forall k | 0 <= k < |a| ensures a[k].previousOutput == b[k].previousOutput {
        assert p[k] == q[k];
      }
    }
  }

  lemma SameInputsIs(a: seq<TxIn>, b: seq<TxIn>, p: seq<OutPoint>, q: seq<OutPoint>, s: seq<nat>, t: seq<nat>)
    requires |p| == |s| == |a| && |q| == |t| == |b|
    requires forall k | 0 <= k < |a| :: p[k] == a[k].previousOutput && s[k] == a[k].sequence
    requires forall k | 0 <= k < |b| :: q[k] == b[k].previousOutput && t[k] == b[k].sequence
    ensures p == q && s == t <==> a == b
  {
    if p == q && s == t {
      forall k | 0 <= k < |a| ensures a[k] == b[k] {
        assert p[k] == q[k] && s[k] == t[k];
      }
    }
  }
}
