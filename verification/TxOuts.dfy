/** Descriptors, and the typed inputs and outputs the transaction constructors take. */
module TxOuts {
  import opened Wrappers
  import opened Bitcoin

  const RBF_SEQUENCE := 0xffff_fffd

  datatype DescriptorKey = XPub(xpub: nat, fingerprint: Bytes) | SinglePub(key: PublicKey)

  /** A compiled descriptor: its keys, and the script as a function of the derived keys. */
  datatype Descriptor = Descriptor(keys: seq<DescriptorKey>, template: seq<PublicKey> -> Script, csv: nat)

  datatype DerivedKey = DerivedKey(key: PublicKey, fingerprint: Bytes, index: nat)
  datatype DerivedDescriptor = DerivedDescriptor(script: Script, keys: seq<DerivedKey>, csv: nat)

  function DeriveKey(lib: Library, k: DescriptorKey, index: nat): DerivedKey {
    match k
    case XPub(x, fingerprint) => DerivedKey((lib.deriveKey)(x, index), fingerprint, index)
    case SinglePub(key) => DerivedKey(key, [0, 0, 0, 0], 0)
  }

  function Derive(lib: Library, d: Descriptor, index: nat): DerivedDescriptor {
    var keys := seq(|d.keys|, i requires 0 <= i < |d.keys| => DeriveKey(lib, d.keys[i], index));
    DerivedDescriptor((d.template)(seq(|keys|, i requires 0 <= i < |keys| => keys[i].key)), keys, d.csv)
  }

  /** The key sources of a derived descriptor, collected into a map. */
  function DerivationMap(keys: seq<DerivedKey>): (m: Derivations)
    ensures keys != [] ==> m != map[]
    ensures forall k | k in m :: exists d :: d in keys && d.key == k && m[k].path == [d.index]
  {
    if keys == [] then map[] else
    var init := DerivationMap(keys[..|keys| - 1]);
    var last := keys[|keys| - 1];
    var m := init[last.key := KeySource(last.fingerprint, [last.index])];
    assert last.key in m;
    assert last in keys;
    assert forall d | d in keys[..|keys| - 1] :: d in keys;
    m
  }

  /** Exactly the keys of a descriptor, each with its own fingerprint and index as a path of depth one; of a key that is
      listed twice the last source counts. */
  ghost predicate SourcesOf(m: Derivations, keys: seq<DerivedKey>) {
    && (forall d | d in keys :: d.key in m)
    && forall k | k in m :: exists i :: IsSource(m[k], keys, i, k)
  }

  ghost predicate IsSource(s: KeySource, keys: seq<DerivedKey>, i: int, k: PublicKey) {
    && 0 <= i < |keys| && keys[i].key == k
    && s.fingerprint == keys[i].fingerprint && s.path == [keys[i].index]
    && forall j | i < j < |keys| :: keys[j].key != k
  }

  lemma {:induction false} DerivationsAreSources(keys: seq<DerivedKey>)
    ensures SourcesOf(DerivationMap(keys), keys)
  {
    if keys != [] {
      var init, last := keys[..|keys| - 1], keys[|keys| - 1];
      assert keys == init + [last];
      DerivationsAreSources(init);
      OneMoreSource(DerivationMap(init), init, last, DerivationMap(keys), keys);
    }
  }

  lemma OneMoreSource(m: Derivations, init: seq<DerivedKey>, last: DerivedKey, n: Derivations, keys: seq<DerivedKey>)
    requires SourcesOf(m, init)
    requires keys == init + [last] && n == m[last.key := KeySource(last.fingerprint, [last.index])]
    ensures SourcesOf(n, keys)
  {
    forall k | k in n ensures exists i :: IsSource(n[k], keys, i, k) {
      if k == last.key {
        assert IsSource(n[k], keys, |init|, k);
      } else {
        var i :| IsSource(m[k], init, i, k);
        SourceStays(m[k], init, last, i, k);
      }
    }
  }

  lemma SourceStays(s: KeySource, init: seq<DerivedKey>, last: DerivedKey, i: int, k: PublicKey)
    requires IsSource(s, init, i, k) && last.key != k
    ensures IsSource(s, init + [last], i, k)
  {
  }

  /** An extended key is derived at the index and keeps its fingerprint; a single key is itself, with a zero origin. */
  lemma DeriveIs(lib: Library, d: Descriptor, index: nat, i: nat)
    requires i < |d.keys|
    ensures var derived := Derive(lib, d, index);
            && |derived.keys| == |d.keys| && derived.csv == d.csv
            && match d.keys[i] {
                 case XPub(x, fingerprint) =>
                   derived.keys[i].key == (lib.deriveKey)(x, index)
                   && derived.keys[i].fingerprint == fingerprint && derived.keys[i].index == index
                 case SinglePub(key) =>
                   derived.keys[i].key == key
                   && derived.keys[i].fingerprint == [0, 0, 0, 0] && derived.keys[i].index == 0
               }
    ensures exists ks: seq<PublicKey> ::
              && |ks| == |d.keys| && (forall j | 0 <= j < |ks| :: ks[j] == Derive(lib, d, index).keys[j].key)
              && Derive(lib, d, index).script == (d.template)(ks)
  {
    var keys := Derive(lib, d, index).keys;
    var ks := seq(|keys|, j requires 0 <= j < |keys| => keys[j].key);
    assert Derive(lib, d, index).script == (d.template)(ks);
  }

  /** A deposit, Unvault or CPFP output: the three wrappers have the same fields. */
  datatype InternalTxOut = InternalTxOut(txout: TxOut, witnessScript: Script, bip32Derivation: Derivations)

  function NewTxOut(lib: Library, value: u64, d: DerivedDescriptor): InternalTxOut {
    InternalTxOut(TxOut(value, P2wshScript(lib, d.script)), d.script, DerivationMap(d.keys))
  }

  /** A deposit, Unvault or CPFP input. */
  datatype InternalTxIn = InternalTxIn(outpoint: OutPoint, txout: InternalTxOut, sequence: nat)
  {
    function Unsigned(): TxIn { TxIn(outpoint, sequence) }
  }

  datatype FeeBumpTxIn = FeeBumpTxIn(outpoint: OutPoint, txout: TxOut)
  {
    function Unsigned(): TxIn { TxIn(outpoint, RBF_SEQUENCE) }
  }

  /** What the descriptor types guarantee: the script is a sane Miniscript and has keys. */
  ghost predicate ValidDescriptor(lib: Library, d: DerivedDescriptor) {
    lib.parses(d.script) && lib.satWeight(d.script).Some? && d.keys != []
  }

  /** What the private fields of an internal output guarantee. */
  ghost predicate ValidTxOut(lib: Library, t: InternalTxOut) {
    && lib.parses(t.witnessScript)
    && lib.satWeight(t.witnessScript).Some?
    && t.txout.scriptPubkey == P2wshScript(lib, t.witnessScript)
    && t.bip32Derivation != map[]
  }

  /** What `FeeBumpTxOut::new` guarantees. */
  ghost predicate ValidFeeBump(f: FeeBumpTxIn) { IsP2wpkh(f.txout.scriptPubkey) }

  ghost predicate ValidFeeBumpOption(f: Option<FeeBumpTxIn>) { f.Some? ==> ValidFeeBump(f.value) }

  lemma NewTxOutIsValid(lib: Library, value: u64, d: DerivedDescriptor)
    requires ValidDescriptor(lib, d)
    ensures ValidTxOut(lib, NewTxOut(lib, value, d))
    ensures IsP2wsh(NewTxOut(lib, value, d).txout.scriptPubkey)
  {
    P2wshShape(lib, d.script);
  }

  lemma P2wshShape(lib: Library, ws: Script)
    ensures |P2wshScript(lib, ws)| == 34 && IsP2wsh(P2wshScript(lib, ws))
    ensures !IsP2wpkh(P2wshScript(lib, ws)) && DustValue(P2wshScript(lib, ws)) == 330
  {
  }

  /** Every P2WSH output needs 330 sats not to be dust. */
  lemma P2wshDust(spk: Script)
    requires IsP2wsh(spk)
    ensures DustValue(spk) == 330
  {
  }

  /** An internal output locks its value to the hash of the descriptor's script and describes its keys. */
  lemma NewTxOutIs(lib: Library, value: u64, d: DerivedDescriptor)
    ensures var t := NewTxOut(lib, value, d);
            && t.txout.value == value && t.txout.scriptPubkey == [0x00, 0x20] + lib.sha256(d.script)
            && t.witnessScript == d.script && SourcesOf(t.bip32Derivation, d.keys)
  {
    DerivationsAreSources(d.keys);
  }

  /** The maximum weight of a satisfaction of a valid internal output. */
  function MaxSatWeight(lib: Library, t: InternalTxOut): Option<nat> {
    if lib.parses(t.witnessScript) then lib.satWeight(t.witnessScript) else None
  }
}
