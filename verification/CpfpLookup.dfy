/** Finding the CPFP output of an Unvault or a Spend, and building a Spend from deposits. */
module CpfpLookup {
  import opened Wrappers
  import opened Sums
  import opened Bitcoin
  import opened TxOuts
  import opened Creation
  import opened Chain
  import Unvaulting
  import Spending

  predicate IsLeast(k: nat, s: set<nat>) { k in s && forall j | j in s :: k <= j }

  lemma {:induction false} LeastExists(s: set<nat>) returns (k: nat)
    requires s != {}
    ensures IsLeast(k, s)
    decreases |s|
  {
    k :| k in s;
    if s != {k} {
      assert s - {k} != {};
      var l := LeastExists(s - {k});
      assert forall j | j in s :: j == k || j in s - {k};
      k := if k <= l then k else l;
    }
  }

  lemma FirstExists(m: Derivations)
    requires m != map[]
    ensures exists k :: k in m.Keys && IsLeast(k, m.Keys)
  {
    var k := LeastExists(m.Keys);
  }

  /** The first entry of a `BTreeMap`. */
  function FirstSource(m: Derivations): (s: KeySource)
    requires m != map[]
    ensures exists k :: k in m && m[k] == s && IsLeast(k, m.Keys)
  {
    FirstExists(m);
    var k :| k in m.Keys && IsLeast(k, m.Keys);
    m[k]
  }

  /** `cpfp_txin` from output `i` on: the first output whose script is the CPFP script at the index of its own first
      key source. */
  function CpfpTxinFrom(lib: Library, psbt: Psbt, cpfp: Descriptor, i: nat)
    : Outcome<Option<InternalTxIn>, CreationError>
    decreases |psbt.outputs| - i
  {
    if i >= |psbt.outputs| then Done(None)
    else
      var sources := psbt.outputs[i].bip32Derivation;
      if sources == map[] then CpfpTxinFrom(lib, psbt, cpfp, i + 1)
      else
        var path := FirstSource(sources).path;
        if |path| != 1 || i >= |psbt.tx.output| then Panics
        else
          var derived := Derive(lib, cpfp, path[0]);
          if psbt.tx.output[i].scriptPubkey == P2wshScript(lib, derived.script) then
            Done(Some(InternalTxIn(OutPoint((lib.txid)(psbt.tx), i),
                                   NewTxOut(lib, psbt.tx.output[i].value, derived), RBF_SEQUENCE)))
          else CpfpTxinFrom(lib, psbt, cpfp, i + 1)
  }

  function CpfpTxin(lib: Library, psbt: Psbt, cpfp: Descriptor): Outcome<Option<InternalTxIn>, CreationError> {
    CpfpTxinFrom(lib, psbt, cpfp, 0)
  }

  /** Output `i` says nothing of its keys, or pays to another script than the CPFP one at the index it names. */
  ghost predicate Skipped(lib: Library, psbt: Psbt, cpfp: Descriptor, i: nat)
    requires i < |psbt.outputs|
  {
    var sources := psbt.outputs[i].bip32Derivation;
    sources != map[] ==>
      && |FirstSource(sources).path| == 1 && i < |psbt.tx.output|
      && psbt.tx.output[i].scriptPubkey !=
         [0x00, 0x20] + lib.sha256(Derive(lib, cpfp, FirstSource(sources).path[0]).script)
  }

  /** Output `i` is a CPFP output: its script is the CPFP one at the index it names, and `t` refers to it. */
  ghost predicate IsCpfp(lib: Library, psbt: Psbt, cpfp: Descriptor, i: nat, t: InternalTxIn)
    requires i < |psbt.outputs|
  {
    var sources := psbt.outputs[i].bip32Derivation;
    && sources != map[] && |FirstSource(sources).path| == 1 && i < |psbt.tx.output|
    && psbt.tx.output[i].scriptPubkey ==
       [0x00, 0x20] + lib.sha256(Derive(lib, cpfp, FirstSource(sources).path[0]).script)
    && t.outpoint == OutPoint((lib.txid)(psbt.tx), i) && t.sequence == 0xffff_fffd
    && t.txout.txout == psbt.tx.output[i]
    && t.txout == NewTxOut(lib, psbt.tx.output[i].value, Derive(lib, cpfp, FirstSource(sources).path[0]))
  }

  /** The lookup on any PSBT at all: nothing exactly when every output is skipped, otherwise the first output that is
      not, which it panics on exactly when that output names its index in another way than by a path of depth one. */
  lemma LookupIs(lib: Library, psbt: Psbt, cpfp: Descriptor)
    ensures var r := CpfpTxin(lib, psbt, cpfp);
            && (r == Done(None) <==> forall i | 0 <= i < |psbt.outputs| :: Skipped(lib, psbt, cpfp, i))
            && (r.Done? && r.value.Some? <==> exists i, t :: FirstCpfp(lib, psbt, cpfp, i, t))
            && forall i, t | FirstCpfp(lib, psbt, cpfp, i, t) :: r == Done(Some(t))
    ensures !CpfpTxin(lib, psbt, cpfp).Fails?
  {
    LookupFromIs(lib, psbt, cpfp, 0);
  }

  ghost predicate FirstCpfp(lib: Library, psbt: Psbt, cpfp: Descriptor, i: int, t: InternalTxIn) {
    && 0 <= i < |psbt.outputs| && IsCpfp(lib, psbt, cpfp, i, t)
    && forall j | 0 <= j < i :: Skipped(lib, psbt, cpfp, j)
  }

  lemma {:induction false} LookupFromIs(lib: Library, psbt: Psbt, cpfp: Descriptor, n: nat)
    requires n <= |psbt.outputs| && forall j | 0 <= j < n :: Skipped(lib, psbt, cpfp, j)
    ensures var r := CpfpTxinFrom(lib, psbt, cpfp, n);
            && !r.Fails?
            && (r == Done(None) <==> forall i | 0 <= i < |psbt.outputs| :: Skipped(lib, psbt, cpfp, i))
            && (r.Done? && r.value.Some? ==> exists i :: FirstCpfp(lib, psbt, cpfp, i, r.value.value))
            && forall i, t | FirstCpfp(lib, psbt, cpfp, i, t) :: r == Done(Some(t))
    decreases |psbt.outputs| - n
  {
    if n < |psbt.outputs| {
      var sources := psbt.outputs[n].bip32Derivation;
      if sources == map[] || Skipped(lib, psbt, cpfp, n) {
        LookupFromIs(lib, psbt, cpfp, n + 1);
      } else {
        StopsAt(lib, psbt, cpfp, n);
      }
    } else {
      NoneIsFirst(lib, psbt, cpfp);
    }
  }

  lemma NoneIsFirst(lib: Library, psbt: Psbt, cpfp: Descriptor)
    requires forall j | 0 <= j < |psbt.outputs| :: Skipped(lib, psbt, cpfp, j)
    ensures forall i, t :: !FirstCpfp(lib, psbt, cpfp, i, t)
  {
    forall i, t ensures !FirstCpfp(lib, psbt, cpfp, i, t) {
      if 0 <= i < |psbt.outputs| {
        assert Skipped(lib, psbt, cpfp, i);
      }
    }
  }

  lemma FirstIsUnique(lib: Library, psbt: Psbt, cpfp: Descriptor, n: nat, i: int, t: InternalTxIn)
    requires n < |psbt.outputs| && !Skipped(lib, psbt, cpfp, n)
    requires forall j | 0 <= j < n :: Skipped(lib, psbt, cpfp, j)
    ensures FirstCpfp(lib, psbt, cpfp, i, t) ==> i == n
  {
    if 0 <= i < n {
      assert Skipped(lib, psbt, cpfp, i);
    }
  }

  lemma StopsAt(lib: Library, psbt: Psbt, cpfp: Descriptor, n: nat)
    requires n < |psbt.outputs| && !Skipped(lib, psbt, cpfp, n)
    requires forall j | 0 <= j < n :: Skipped(lib, psbt, cpfp, j)
    ensures var r := CpfpTxinFrom(lib, psbt, cpfp, n);
            && (r.Panics? || (r.Done? && r.value.Some? && FirstCpfp(lib, psbt, cpfp, n, r.value.value)))
            && forall i, t | FirstCpfp(lib, psbt, cpfp, i, t) :: r == Done(Some(t))
  {
    forall i, t | FirstCpfp(lib, psbt, cpfp, i, t) ensures CpfpTxinFrom(lib, psbt, cpfp, n) == Done(Some(t)) {
      FirstIsUnique(lib, psbt, cpfp, n, i, t);
    }
  }

  /** What the check for deriveable keys guarantees of a CPFP descriptor. */
  ghost predicate Deriveable(d: Descriptor) { forall k | k in d.keys :: k.XPub? }

  lemma SourcesOfXPubs(lib: Library, d: Descriptor, index: nat)
    requires Deriveable(d) && d.keys != []
    ensures DerivationMap(Derive(lib, d, index).keys) != map[]
    ensures FirstSource(DerivationMap(Derive(lib, d, index).keys)).path == [index]
  {
    var keys := Derive(lib, d, index).keys;
    forall k | k in keys ensures k.index == index {
      var i :| 0 <= i < |keys| && keys[i] == k;
      assert d.keys[i] in d.keys;
    }
  }

  /** Cosigner keys are not derived: the sources of other descriptors may also say index 0. */
  lemma SourcesOfAny(lib: Library, d: Descriptor, index: nat)
    requires d.keys != []
    ensures DerivationMap(Derive(lib, d, index).keys) != map[]
    ensures var path := FirstSource(DerivationMap(Derive(lib, d, index).keys)).path; path == [index] || path == [0]
  {
    var keys := Derive(lib, d, index).keys;
    forall k | k in keys ensures k.index == index || k.index == 0 {
      var i :| 0 <= i < |keys| && keys[i] == k;
    }
  }

  /** The lookup on an Unvault gives output 1, worth 30000 sats, under the CPFP descriptor at the index it was built
      at, exactly when the Unvault script is not itself the CPFP script at the index of its first key source. */
  lemma UnvaultLookup(lib: Library, v: Vault, outpoint: OutPoint, amount: u64, index: nat, lockTime: nat)
    requires ValidVault(lib, v, index) && Deriveable(v.cpfp)
    requires NewUnvault(lib, v, outpoint, amount, index, lockTime).Done?
    ensures var psbt := NewUnvault(lib, v, outpoint, amount, index, lockTime).value;
            var sources := DerivationMap(Derive(lib, v.unvault, index).keys);
            && sources != map[] && |FirstSource(sources).path| == 1
            && (CpfpTxin(lib, psbt, v.cpfp) ==
                Done(Some(InternalTxIn(OutPoint((lib.txid)(psbt.tx), 1),
                                       NewTxOut(lib, UNVAULT_CPFP_VALUE, Derive(lib, v.cpfp, index)), RBF_SEQUENCE)))
                <==>
                P2wshScript(lib, Derive(lib, v.unvault, index).script)
                != P2wshScript(lib, Derive(lib, v.cpfp, FirstSource(sources).path[0]).script))
  {
    SourcesOfAny(lib, v.unvault, index);
    SourcesOfXPubs(lib, v.cpfp, index);
    UnvaultOutputs(lib, v, outpoint, amount, index, lockTime);
    var psbt := NewUnvault(lib, v, outpoint, amount, index, lockTime).value;
    assert CpfpTxinFrom(lib, psbt, v.cpfp, 1) ==
           Done(Some(InternalTxIn(OutPoint((lib.txid)(psbt.tx), 1),
                                  NewTxOut(lib, UNVAULT_CPFP_VALUE, Derive(lib, v.cpfp, index)), RBF_SEQUENCE)));
  }

  /** In particular when the hash has no collision between the Unvault script and the CPFP scripts at its index and
      at index 0, whichever of its keys, cosigners' included, comes first. */
  lemma UnvaultLookupFindsCpfp(lib: Library, v: Vault, outpoint: OutPoint, amount: u64, index: nat, lockTime: nat)
    requires ValidVault(lib, v, index) && Deriveable(v.cpfp)
    requires NewUnvault(lib, v, outpoint, amount, index, lockTime).Done?
    requires forall j | j == index || j == 0 ::
               P2wshScript(lib, Derive(lib, v.unvault, index).script) != P2wshScript(lib, Derive(lib, v.cpfp, j).script)
    ensures var psbt := NewUnvault(lib, v, outpoint, amount, index, lockTime).value;
            var found := CpfpTxin(lib, psbt, v.cpfp);
            && found.Done? && found.value.Some? && |psbt.tx.output| == 2
            && found.value.value.outpoint.vout == 1 && found.value.value.txout.txout.value == 30_000
            && found.value.value.txout.txout == psbt.tx.output[1]
  {
    UnvaultLookup(lib, v, outpoint, amount, index, lockTime);
    UnvaultOutputs(lib, v, outpoint, amount, index, lockTime);
    SourcesOfAny(lib, v.unvault, index);
  }

  lemma UnvaultOutputs(lib: Library, v: Vault, outpoint: OutPoint, amount: u64, index: nat, lockTime: nat)
    requires NewUnvault(lib, v, outpoint, amount, index, lockTime).Done?
    ensures var psbt := NewUnvault(lib, v, outpoint, amount, index, lockTime).value;
            && |psbt.tx.output| == |psbt.outputs| == 2
            && psbt.tx.output[0].scriptPubkey == P2wshScript(lib, Derive(lib, v.unvault, index).script)
            && psbt.tx.output[1] == NewTxOut(lib, UNVAULT_CPFP_VALUE, Derive(lib, v.cpfp, index)).txout
            && psbt.outputs[0].bip32Derivation == DerivationMap(Derive(lib, v.unvault, index).keys)
            && psbt.outputs[1].bip32Derivation == DerivationMap(Derive(lib, v.cpfp, index).keys)
  {
  }

  // ----- a Spend from deposits

  datatype Deposit = Deposit(outpoint: OutPoint, amount: u64, index: nat)

  function MaxIndexTo(deposits: seq<Deposit>, k: nat): (m: nat)
    requires k <= |deposits|
    ensures forall j | 0 <= j < k :: deposits[j].index <= m
    ensures m == 0 || exists j :: 0 <= j < k && deposits[j].index == m
  {
    if k == 0 then 0 else
    var init := MaxIndexTo(deposits, k - 1);
    if deposits[k - 1].index > init then deposits[k - 1].index else init
  }

  /** The highest index of all deposits. */
  function MaxIndex(deposits: seq<Deposit>): nat { MaxIndexTo(deposits, |deposits|) }

  function UnvaultOf(lib: Library, v: Vault, d: Deposit, lockTime: nat): Outcome<Psbt, CreationError> {
    NewUnvault(lib, v, d.outpoint, d.amount, d.index, lockTime)
  }

  /** The Spend input for one deposit: output 0 of its Unvault, with the CSV as sequence. */
  ghost predicate SpendsUnvaultOf(lib: Library, v: Vault, d: Deposit, lockTime: nat, txin: InternalTxIn) {
    && UnvaultOf(lib, v, d, lockTime).Done?
    && var unvaultTx := UnvaultOf(lib, v, d, lockTime).value;
       && unvaultTx.tx.output != []
       && txin == InternalTxIn(OutPoint((lib.txid)(unvaultTx.tx), 0),
                               NewTxOut(lib, unvaultTx.tx.output[0].value, Derive(lib, v.unvault, d.index)),
                               v.unvault.csv)
  }

  ghost predicate ValidEverywhere(lib: Library, v: Vault) { forall index: nat :: ValidVault(lib, v, index) }

  /** The closure mapped over the deposits: the Unvault output of one deposit. */
  method UnvaultTxin(lib: Library, v: Vault, d: Deposit, lockTime: nat)
    returns (r: Outcome<InternalTxIn, CreationError>)
    requires ValidEverywhere(lib, v)
    ensures r.Done? <==> UnvaultOf(lib, v, d, lockTime).Done?
    ensures r.Done? ==> SpendsUnvaultOf(lib, v, d, lockTime, r.value)
  {
    assert ValidVault(lib, v, d.index);
    var unvault := Derive(lib, v.unvault, d.index);
    var unvaultTx :- UnvaultOf(lib, v, d, lockTime);
    Unvaulting.TxinIsUnvaultOutput(lib, DepositTxin(lib, v, d.outpoint, d.amount, d.index), unvault,
                                   Derive(lib, v.cpfp, d.index), lockTime, unvault.csv);
    r := Unvaulting.SpendUnvaultTxin(lib, unvaultTx, unvault);
  }

  ghost predicate SpendsUnvaultsTo(lib: Library, v: Vault, deposits: seq<Deposit>, lockTime: nat,
                                   txins: seq<InternalTxIn>, n: nat) {
    && |txins| == n <= |deposits|
    && forall k | 0 <= k < n :: SpendsUnvaultOf(lib, v, deposits[k], lockTime, txins[k])
  }

  ghost predicate SpendsUnvaults(lib: Library, v: Vault, deposits: seq<Deposit>, lockTime: nat,
                                 txins: seq<InternalTxIn>) {
    SpendsUnvaultsTo(lib, v, deposits, lockTime, txins, |deposits|)
  }

  lemma OneMoreUnvault(lib: Library, v: Vault, deposits: seq<Deposit>, lockTime: nat, txins: seq<InternalTxIn>,
                       txin: InternalTxIn)
    requires |txins| < |deposits| && SpendsUnvaultsTo(lib, v, deposits, lockTime, txins, |txins|)
    requires SpendsUnvaultOf(lib, v, deposits[|txins|], lockTime, txin)
    ensures SpendsUnvaultsTo(lib, v, deposits, lockTime, txins + [txin], |txins| + 1)
  {
  }

  /** All of them, and on the way the highest index. */
  method UnvaultTxins(lib: Library, deposits: seq<Deposit>, v: Vault, lockTime: nat)
    returns (r: Outcome<seq<InternalTxIn>, CreationError>, maxDerivIndex: nat, ghost failed: nat)
    requires ValidEverywhere(lib, v)
    ensures r.Done? ==> maxDerivIndex == MaxIndex(deposits) && SpendsUnvaults(lib, v, deposits, lockTime, r.value)
    ensures !r.Done? ==> failed < |deposits| && !UnvaultOf(lib, v, deposits[failed], lockTime).Done?
  {
    maxDerivIndex, failed := 0, 0;
    var unvaultTxins: seq<InternalTxIn> := [];
    for k := 0 to |deposits|
      invariant |unvaultTxins| == k && SpendsUnvaultsTo(lib, v, deposits, lockTime, unvaultTxins, k)
      invariant maxDerivIndex == MaxIndexTo(deposits, k)
    {
      var d := deposits[k];
      if d.index > maxDerivIndex {
        maxDerivIndex := d.index;
      }
      var txin := UnvaultTxin(lib, v, d, lockTime);
      if !txin.Done? {
        r, failed := txin.PropagateFailure(), k;
        return;
      }
      OneMoreUnvault(lib, v, deposits, lockTime, unvaultTxins, txin.value);
      unvaultTxins := unvaultTxins + [txin.value];
    }
    r := Done(unvaultTxins);
  }

  lemma SpentUnvaultsAreValid(lib: Library, v: Vault, deposits: seq<Deposit>, lockTime: nat, txins: seq<InternalTxIn>)
    requires ValidEverywhere(lib, v) && SpendsUnvaults(lib, v, deposits, lockTime, txins)
    ensures forall t | t in txins :: ValidTxOut(lib, t.txout)
  {
    forall t | t in txins ensures ValidTxOut(lib, t.txout) {
      var k :| 0 <= k < |txins| && txins[k] == t;
      assert ValidVault(lib, v, deposits[k].index) && SpendsUnvaultOf(lib, v, deposits[k], lockTime, t);
      NewTxOutIsValid(lib, t.txout.txout.value, Derive(lib, v.unvault, deposits[k].index));
    }
  }

  /** The lookup on any Spend stops at its output 0, whatever the change output carries. */
  lemma SpendLookup(lib: Library, cpfp: Descriptor, index: nat, value: u64, unvaults: seq<InternalTxIn>,
                    spends: seq<TxOut>, change: Option<InternalTxOut>, lockTime: nat)
    requires Deriveable(cpfp) && cpfp.keys != []
    ensures var derived := Derive(lib, cpfp, index);
            var psbt := Spending.SpendPsbt(unvaults, NewTxOut(lib, value, derived), spends, change, lockTime);
            CpfpTxin(lib, psbt, cpfp) ==
            Done(Some(InternalTxIn(OutPoint((lib.txid)(psbt.tx), 0), NewTxOut(lib, value, derived), RBF_SEQUENCE)))
  {
    SourcesOfXPubs(lib, cpfp, index);
    var derived := Derive(lib, cpfp, index);
    var psbt := Spending.SpendPsbt(unvaults, NewTxOut(lib, value, derived), spends, change, lockTime);
    assert psbt.outputs[0].bip32Derivation == DerivationMap(derived.keys);
    assert psbt.tx.output[0] == NewTxOut(lib, value, derived).txout;
  }

  /** The input spends output 0 of the Unvault of that deposit, after the timelock. */
  ghost predicate SpendsUnvaultZero(lib: Library, v: Vault, d: Deposit, lockTime: nat, i: TxIn, p: PsbtIn) {
    && UnvaultOf(lib, v, d, lockTime).Done?
    && var unvaultTx := UnvaultOf(lib, v, d, lockTime).value.tx;
       && unvaultTx.output != [] && i == TxIn(OutPoint((lib.txid)(unvaultTx), 0), v.unvault.csv)
       && p.witnessUtxo == Some(unvaultTx.output[0]) && p.sighashType == Some(All)
  }

  lemma SpendsTheUnvaults(lib: Library, v: Vault, deposits: seq<Deposit>, lockTime: nat, txins: seq<InternalTxIn>,
                          psbt: Psbt)
    requires SpendsUnvaults(lib, v, deposits, lockTime, txins)
    requires |psbt.tx.input| == |psbt.inputs| == |txins|
    requires forall k | 0 <= k < |txins| :: SpendsCoin(psbt.tx.input[k], psbt.inputs[k], txins[k], All)
    ensures forall k | 0 <= k < |deposits| ::
              SpendsUnvaultZero(lib, v, deposits[k], lockTime, psbt.tx.input[k], psbt.inputs[k])
  {
    forall k | 0 <= k < |deposits|
      ensures SpendsUnvaultZero(lib, v, deposits[k], lockTime, psbt.tx.input[k], psbt.inputs[k])
    {
      assert SpendsCoin(psbt.tx.input[k], psbt.inputs[k], txins[k], All);
      SpendsTheUnvault(lib, v, deposits[k], lockTime, txins[k], psbt.tx.input[k], psbt.inputs[k]);
    }
  }

  lemma SpendsTheUnvault(lib: Library, v: Vault, d: Deposit, lockTime: nat, txin: InternalTxIn, i: TxIn, p: PsbtIn)
    requires SpendsUnvaultOf(lib, v, d, lockTime, txin) && SpendsCoin(i, p, txin, All)
    ensures SpendsUnvaultZero(lib, v, d, lockTime, i, p)
  {
    UnvaultOutputs(lib, v, d.outpoint, d.amount, d.index, lockTime);
  }

  /** A Spend is built only if every deposit gives an Unvault; it spends exactly those Unvaults, and the CPFP lookup
      finds its output 0 under the descriptor at the highest deposit index. */
  method SpendTxFromDeposits(lib: Library, deposits: seq<Deposit>, spends: seq<TxOut>,
                             change: Option<InternalTxOut>, v: Vault, lockTime: nat, checkInsaneFees: bool)
    returns (r: Outcome<Psbt, CreationError>, ghost txins: seq<InternalTxIn>)
    requires Deriveable(v.cpfp) && ValidEverywhere(lib, v)
    ensures r.Done? ==> r.value.tx.output != []
    ensures r.Done? ==>
              CpfpTxin(lib, r.value, v.cpfp) ==
              Done(Some(InternalTxIn(OutPoint((lib.txid)(r.value.tx), 0),
                                     NewTxOut(lib, r.value.tx.output[0].value,
                                              Derive(lib, v.cpfp, MaxIndex(deposits))), RBF_SEQUENCE)))
    ensures r.Done? ==>
              && SpendsUnvaults(lib, v, deposits, lockTime, txins)
              && r.value.tx.input == Image(UnsignedInput, txins)
              && r.value.inputs == Image(Spending.SpendInput, txins)
              && Spending.Buildable(lib, txins, Spending.Payments(spends, change),
                                    Derive(lib, v.cpfp, MaxIndex(deposits)),
                                    lockTime, checkInsaneFees)
    ensures r.Done? ==>
              && Spending.SpendsAndPays(lib, r.value, txins, spends, change,
                                        Derive(lib, v.cpfp, MaxIndex(deposits)), lockTime)
              && |r.value.tx.input| == |r.value.inputs| == |deposits|
              && forall k | 0 <= k < |deposits| ::
                   SpendsUnvaultZero(lib, v, deposits[k], lockTime, r.value.tx.input[k], r.value.inputs[k])
    ensures !r.Done? ==>
              || (exists k :: 0 <= k < |deposits| && !UnvaultOf(lib, v, deposits[k], lockTime).Done?)
              || (&& SpendsUnvaults(lib, v, deposits, lockTime, txins)
                  && !Spending.Buildable(lib, txins, Spending.Payments(spends, change),
                                         Derive(lib, v.cpfp, MaxIndex(deposits)),
                                         lockTime, checkInsaneFees))
  {
    txins := [];
    var unvaultTxins, maxDerivIndex, failed := UnvaultTxins(lib, deposits, v, lockTime);
    if !unvaultTxins.Done? {
      r := unvaultTxins.PropagateFailure();
      return;
    }
    txins := unvaultTxins.value;
    SpentUnvaultsAreValid(lib, v, deposits, lockTime, txins);
    assert Derive(lib, v.cpfp, maxDerivIndex).keys != [] by { assert ValidVault(lib, v, maxDerivIndex); }
    var cpfp := Derive(lib, v.cpfp, maxDerivIndex);
    r := Spending.New(lib, unvaultTxins.value, spends, change, cpfp, lockTime, checkInsaneFees);
    if r.Done? {
      ghost var value := Spending.CpfpTxout(lib, txins, Spending.Payments(spends, change), cpfp,
                                            lockTime).value.txout.value;
      SpendLookup(lib, v.cpfp, maxDerivIndex, value, txins, spends, change, lockTime);
      SpendsTheUnvaults(lib, v, deposits, lockTime, txins, r.value);
    }
  }
}
