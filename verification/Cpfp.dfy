/** The CPFP transaction: largest-first coin selection until the package reaches its target feerate. */
module Cpfp {
  import opened Wrappers
  import opened Sums
  import opened Bitcoin
  import opened TxOuts
  import opened Validation
  import opened Parsing
  import opened Creation

  /** What is to be bumped: the CPFP coins of some transactions, with their total weight and fees. */
  datatype Request = Request(coins: seq<InternalTxIn>, tbcWeight: u64, tbcFees: u64, addedFeerate: u64)

  /** Padding that brings a 1-in 1-out transaction above the minimum standard size. */
  const OP_RETURN_DUMMY_DATA: Bytes := [
    0, 0, 0, 0, 0, 0, 0, 0, 0, 0, 0, 0, 0, 0, 0, 0, 0, 0, 0, 0, 0, 0]

  function OpReturnScript(inputCount: nat): Script {
    if inputCount > 1 then [0x6a, 0x00] else [0x6a, 22] + OP_RETURN_DUMMY_DATA
  }

  function CpfpInput(t: InternalTxIn): TxIn { TxIn(t.outpoint, RBF_SEQUENCE) }

  function CpfpPsbtIn(t: InternalTxIn): PsbtIn { VaultInput(t.txout, All) }

  function CpfpPsbt(selection: seq<InternalTxIn>, output: TxOut): Psbt {
    Psbt(Transaction(2, 0, Image(CpfpInput, selection), [output]), Image(CpfpPsbtIn, selection), [EmptyPsbtOut])
  }

  // ----- feerates and needs

  /** Sats per 1000 weight units: rounded down, after adding one whole weight so as not to aim too low. */
  function TargetFeerate(req: Request): nat
    requires req.tbcWeight > 0
  {
    1000 * (req.tbcFees + req.tbcWeight) / req.tbcWeight + req.addedFeerate
  }

  /** `max_feerate`: the fees of a transaction over its weight, rounded up. */
  function MaxFeerate(fees: nat, weight: nat): Option<nat> {
    if weight == 0 || fees + weight - 1 > U64_MAX then None else Some((fees + weight - 1) / weight)
  }

  function Selection(req: Request, added: seq<InternalTxIn>): seq<InternalTxIn> { req.coins + added }

  /** The weight of the package once the CPFP transaction, paying to `spk`, is signed. */
  function PackageWeight(lib: Library, req: Request, added: seq<InternalTxIn>, spk: Script): nat {
    var selection := Selection(req, added);
    Weight(CpfpPsbt(selection, TxOut(0, spk)).tx) + SumBy(TxinSat(lib), selection) + req.tbcWeight
  }

  /** What the CPFP transaction has to pay for the package to reach the target. */
  function Need(lib: Library, req: Request, added: seq<InternalTxIn>, spk: Script): int
    requires req.tbcWeight > 0
  {
    TargetFeerate(req) * PackageWeight(lib, req, added, spk) / 1000 - req.tbcFees
  }

  /** The change goes back to the script of the last coin to be bumped. */
  function ChangeScript(req: Request): Script
    requires req.coins != []
  {
    req.coins[|req.coins| - 1].txout.txout.scriptPubkey
  }

  function ChangeNeed(lib: Library, req: Request, added: seq<InternalTxIn>): int
    requires req.coins != [] && req.tbcWeight > 0
  {
    Need(lib, req, added, ChangeScript(req))
  }

  function OpReturnNeed(lib: Library, req: Request, added: seq<InternalTxIn>): int
    requires req.tbcWeight > 0
  {
    Need(lib, req, added, OpReturnScript(|Selection(req, added)|))
  }

  function Value(req: Request, added: seq<InternalTxIn>): nat { SumBy(TxinValue, Selection(req, added)) }

  /** The funding test: the selection pays for one of the two forms. */
  predicate Funded(lib: Library, req: Request, added: seq<InternalTxIn>)
    requires req.coins != [] && req.tbcWeight > 0
  {
    Value(req, added) > ChangeNeed(lib, req, added) || Value(req, added) > OpReturnNeed(lib, req, added)
  }

  /** The single output: a change if it is worth it, an OP_RETURN otherwise. */
  function FinalOutput(lib: Library, req: Request, added: seq<InternalTxIn>): TxOut
    requires req.coins != [] && req.tbcWeight > 0
    requires 0 <= ChangeNeed(lib, req, added) && Value(req, added) <= U64_MAX
  {
    var change := Value(req, added) - ChangeNeed(lib, req, added);
    if change > CPFP_MIN_CHANGE then TxOut(change, ChangeScript(req))
    else TxOut(0, OpReturnScript(|Selection(req, added)|))
  }

  ghost predicate ValidCoins(lib: Library, coins: seq<InternalTxIn>) {
    forall c | c in coins :: ValidTxOut(lib, c.txout)
  }

  // ----- arithmetic

  lemma MulMonotone(a: nat, b: nat, c: nat)
    requires b <= c
    ensures a * b <= a * c
  {
  }

  /** The target is at least the rounded-up feerate of the bumped transactions plus the bump, despite both floors. */
  lemma TargetAboveMaxFeerate(req: Request)
    requires req.tbcWeight > 0 && MaxFeerate(req.tbcFees, req.tbcWeight).Some?
    ensures TargetFeerate(req) >= 1000 * MaxFeerate(req.tbcFees, req.tbcWeight).value + req.addedFeerate
  {
    FloorScales(req.tbcFees + req.tbcWeight - 1, req.tbcWeight, 1000);
    FloorMonotone(1000 * (req.tbcFees + req.tbcWeight - 1), 1000 * (req.tbcFees + req.tbcWeight), req.tbcWeight);
  }

  /** `max_feerate` is the least whole feerate that is not below the real one. */
  lemma MaxFeerateRoundsUp(fees: nat, weight: nat, rate: nat)
    requires MaxFeerate(fees, weight).Some?
    ensures MaxFeerate(fees, weight).value <= rate <==> fees <= rate * weight
  {
    var r := (fees + weight - 1) / weight;
    assert r * weight <= fees + weight - 1 < r * weight + weight by {
      assert fees + weight - 1 == r * weight + (fees + weight - 1) % weight;
    }
    if r <= rate {
      MulMonotone(weight, r, rate);
    } else {
      MulMonotone(weight, rate + 1, r);
    }
  }

  /** Nor is the target more than one sat per weight unit above what was asked. */
  lemma TargetNearMaxFeerate(req: Request)
    requires req.tbcWeight > 0 && MaxFeerate(req.tbcFees, req.tbcWeight).Some?
    ensures TargetFeerate(req) <= 1000 * MaxFeerate(req.tbcFees, req.tbcWeight).value + req.addedFeerate + 1000
  {
    var f: nat, w: nat, r := req.tbcFees, req.tbcWeight, MaxFeerate(req.tbcFees, req.tbcWeight).value;
    MaxFeerateRoundsUp(f, w, r);
    assert 1000 * (f + w) <= (1000 * r + 1000) * w;
    QuotientAtMost(1000 * (f + w), 1000 * r + 1000, w);
  }

  lemma QuotientAtMost(x: nat, q: nat, d: nat)
    requires d > 0 && x <= q * d
    ensures x / d <= q
  {
    FloorMonotone(x, q * d, d);
    assert q * d / d == q;
  }

  lemma FloorScales(x: nat, d: nat, k: nat)
    requires d > 0
    ensures k * (x / d) <= (k * x) / d
  {
    var q := x / d;
    assert q * d <= x;
    MulMonotone(k, q * d, x);
    assert k * (q * d) == (k * q) * d;
    FloorAtLeast(k * q, k * x, d);
  }

  lemma FloorAtLeast(q: nat, x: nat, d: nat)
    requires d > 0 && q * d <= x
    ensures q <= x / d
  {
    if x / d < q {
      MulMonotone(d, x / d + 1, q);
    }
  }

  lemma FloorMonotone(x: nat, y: nat, d: nat)
    requires d > 0 && x <= y
    ensures x / d <= y / d
  {
    assert x / d * d <= x;
    FloorAtLeast(x / d, y, d);
  }

  /** The subtraction of the fees already paid never underflows, whatever is selected. */
  lemma NoFeeUnderflow(req: Request, weight: nat)
    requires 0 < req.tbcWeight <= weight
    ensures TargetFeerate(req) * weight / 1000 >= req.tbcFees
  {
    var w: nat, f: nat := req.tbcWeight, req.tbcFees;
    var tbcFeerate: nat := 1000 * (f + w) / w;
    assert tbcFeerate * w > 1000 * (f + w) - w by {
      assert 1000 * (f + w) == tbcFeerate * w + 1000 * (f + w) % w;
    }
    var target := TargetFeerate(req);
    MulMonotone(w, tbcFeerate, target);
    MulMonotone(target, w, weight);
    FloorAtLeast(f, target * weight, 1000);
  }

  lemma SelectionWeight(lib: Library, req: Request, added: seq<InternalTxIn>, spk: Script)
    ensures var n := |Selection(req, added)|;
            PackageWeight(lib, req, added, spk) ==
            4 * (17 + VarIntLen(n) + 41 * n + VarIntLen(|spk|) + |spk|)
            + SumBy(TxinSat(lib), Selection(req, added)) + req.tbcWeight
  {
    OneOutputWeight(CpfpPsbt(Selection(req, added), TxOut(0, spk)).tx);
  }

  lemma OpReturnIsLighter(lib: Library, req: Request, added: seq<InternalTxIn>)
    requires req.coins != [] && req.tbcWeight > 0 && ValidCoins(lib, req.coins)
    ensures PackageWeight(lib, req, added, OpReturnScript(|Selection(req, added)|)) <=
            PackageWeight(lib, req, added, ChangeScript(req))
  {
    ChangeIsP2wsh(lib, req);
    SelectionWeight(lib, req, added, ChangeScript(req));
    SelectionWeight(lib, req, added, OpReturnScript(|Selection(req, added)|));
  }

  lemma NeedIsMonotone(req: Request, lighter: nat, heavier: nat)
    requires 0 < req.tbcWeight <= lighter <= heavier
    ensures 0 <= TargetFeerate(req) * lighter / 1000 - req.tbcFees <= TargetFeerate(req) * heavier / 1000 - req.tbcFees
  {
    var target := TargetFeerate(req);
    MulMonotone(target, lighter, heavier);
    FloorMonotone(target * lighter, target * heavier, 1000);
    NoFeeUnderflow(req, lighter);
  }

  /** An OP_RETURN is always lighter than the P2WSH change, so it never needs more. */
  lemma OpReturnIsCheaper(lib: Library, req: Request, added: seq<InternalTxIn>)
    requires req.coins != [] && req.tbcWeight > 0 && ValidCoins(lib, req.coins)
    ensures 0 <= OpReturnNeed(lib, req, added) <= ChangeNeed(lib, req, added)
  {
    OpReturnIsLighter(lib, req, added);
    NeedIsMonotone(req, PackageWeight(lib, req, added, OpReturnScript(|Selection(req, added)|)),
                   PackageWeight(lib, req, added, ChangeScript(req)));
  }

  lemma ChangeIsP2wsh(lib: Library, req: Request)
    requires req.coins != [] && ValidCoins(lib, req.coins)
    ensures |ChangeScript(req)| == 34 && IsP2wsh(ChangeScript(req)) && !IsOpReturn(ChangeScript(req))
  {
    var last := req.coins[|req.coins| - 1];
    assert last in req.coins;
    P2wshShape(lib, last.txout.witnessScript);
  }

  // ----- the promised feerate

  /** The fees of the transaction returned, together with the fees already paid, put the package above its target:
      with no rounding loss for an OP_RETURN, and less than one sat short of it with a change. */
  lemma PackageFeerate(lib: Library, req: Request, added: seq<InternalTxIn>)
    requires req.coins != [] && req.tbcWeight > 0 && ValidCoins(lib, req.coins)
    requires Funded(lib, req, added) && Value(req, added) <= U64_MAX
    ensures 0 <= ChangeNeed(lib, req, added)
    ensures var output := FinalOutput(lib, req, added);
            var psbt := CpfpPsbt(Selection(req, added), output);
            var weight := Weight(psbt.tx) + SumBy(TxinSat(lib), Selection(req, added)) + req.tbcWeight;
            && Fees(psbt).Some?
            && (if IsOpReturn(output.scriptPubkey)
                then 1000 * (Fees(psbt).value + req.tbcFees) > TargetFeerate(req) * weight
                else 1000 * (Fees(psbt).value + req.tbcFees) > TargetFeerate(req) * weight - 1000)
  {
    OpReturnIsCheaper(lib, req, added);
    ChangeIsP2wsh(lib, req);
    var output := FinalOutput(lib, req, added);
    CpfpFees(req, added, output);
    OneOutputWeight(CpfpPsbt(Selection(req, added), output).tx);
    SelectionWeight(lib, req, added, output.scriptPubkey);
    var total := TargetFeerate(req) * PackageWeight(lib, req, added, output.scriptPubkey);
    assert total == total / 1000 * 1000 + total % 1000;
  }

  lemma CpfpFullWeight(lib: Library, selection: seq<InternalTxIn>, output: TxOut)
    ensures var psbt := CpfpPsbt(selection, output);
            FullWeight(lib, psbt) == Weight(psbt.tx) + SumBy(TxinSat(lib), selection)
  {
    var psbt := CpfpPsbt(selection, output);
    SumByCongruent(PendingWeight(lib), psbt.inputs, TxinSat(lib), selection);
  }

  /** What the caller asked for: the rounded-up feerate of what is bumped, and the bump. */
  function AskedFeerate(req: Request): nat
    requires MaxFeerate(req.tbcFees, req.tbcWeight).Some?
  {
    1000 * MaxFeerate(req.tbcFees, req.tbcWeight).value + req.addedFeerate
  }

  /** The transaction pays for it: its fees and those already paid, over the weight of the signed package, are above the
      target with an OP_RETURN and less than one sat short of it with a change; and the target is what was asked, up to
      one sat per weight unit. */
  ghost predicate Promised(lib: Library, req: Request, psbt: Psbt) {
    && Fees(psbt).Some? && |psbt.tx.output| == 1 && req.tbcWeight > 0
    && MaxFeerate(req.tbcFees, req.tbcWeight).Some?
    && AskedFeerate(req) <= TargetFeerate(req) <= AskedFeerate(req) + 1000
    && var package := FullWeight(lib, psbt) + req.tbcWeight;
       var paid := 1000 * (Fees(psbt).value + req.tbcFees);
       var short := if IsOpReturn(psbt.tx.output[0].scriptPubkey) then 0 else 1000;
       paid > TargetFeerate(req) * package - short && paid > AskedFeerate(req) * package - short
  }

  /** And it pays no more than that. Either the single output is a change of more than 10000 sats to the script of the
      last coin to be bumped, and the package pays at most its target; or it is a worthless OP_RETURN, and the package
      pays at most 10000 sats above the target it would have with such a change. */
  ghost predicate Thrifty(lib: Library, req: Request, psbt: Psbt) {
    && Fees(psbt).Some? && |psbt.tx.output| == 1 && req.coins != [] && req.tbcWeight > 0
    && var output, change := psbt.tx.output[0], req.coins[|req.coins| - 1].txout.txout.scriptPubkey;
       var paid := 1000 * (Fees(psbt).value + req.tbcFees);
       var withChange := FullWeight(lib, psbt.(tx := psbt.tx.(output := [TxOut(0, change)]))) + req.tbcWeight;
       || (output.value > 10_000 && output.scriptPubkey == change && paid <= TargetFeerate(req) * withChange)
       || (&& output.value == 0 && paid <= TargetFeerate(req) * withChange + 10_000_000
           && output.scriptPubkey == if |psbt.tx.input| > 1 then [0x6a, 0x00] else [0x6a, 22] + seq(22, _ => 0))
  }

  lemma KeepsPromise(lib: Library, req: Request, added: seq<InternalTxIn>)
    requires req.coins != [] && req.tbcWeight > 0 && ValidCoins(lib, req.coins)
    requires req.tbcFees + req.tbcWeight <= U64_MAX
    requires Funded(lib, req, added) && Value(req, added) <= U64_MAX
    ensures 0 <= ChangeNeed(lib, req, added)
    ensures Promised(lib, req, CpfpPsbt(Selection(req, added), FinalOutput(lib, req, added)))
  {
    PackageFeerate(lib, req, added);
    TargetAboveMaxFeerate(req);
    TargetNearMaxFeerate(req);
    var psbt := CpfpPsbt(Selection(req, added), FinalOutput(lib, req, added));
    CpfpFullWeight(lib, Selection(req, added), FinalOutput(lib, req, added));
    AskedIsPaid(1000 * (Fees(psbt).value + req.tbcFees), TargetFeerate(req), AskedFeerate(req),
                FullWeight(lib, psbt) + req.tbcWeight, if IsOpReturn(psbt.tx.output[0].scriptPubkey) then 0 else 1000);
  }

  lemma IsThrifty(lib: Library, req: Request, added: seq<InternalTxIn>)
    requires req.coins != [] && req.tbcWeight > 0 && ValidCoins(lib, req.coins)
    requires Funded(lib, req, added) && Value(req, added) <= U64_MAX
    ensures 0 <= ChangeNeed(lib, req, added)
    ensures Thrifty(lib, req, CpfpPsbt(Selection(req, added), FinalOutput(lib, req, added)))
  {
    OpReturnIsCheaper(lib, req, added);
    var selection, output := Selection(req, added), FinalOutput(lib, req, added);
    var psbt, change := CpfpPsbt(selection, output), TxOut(0, ChangeScript(req));
    CpfpFees(req, added, output);
    CpfpFullWeight(lib, selection, change);
    assert psbt.(tx := psbt.tx.(output := [change])) == CpfpPsbt(selection, change);
    AtMostTarget(TargetFeerate(req) * PackageWeight(lib, req, added, ChangeScript(req)), Fees(psbt).value, req.tbcFees,
                 if output.value > 0 then 0 else CPFP_MIN_CHANGE);
  }

  lemma AtMostTarget(total: nat, fees: nat, tbcFees: nat, excess: nat)
    requires fees <= total / 1000 - tbcFees + excess
    ensures 1000 * (fees + tbcFees) <= total + 1000 * excess
  {
  }

  /** The inputs of the CPFP transaction are the coins to be bumped and then those added, all replaceable. */
  ghost predicate SpendsSelection(psbt: Psbt, coins: seq<InternalTxIn>, added: seq<InternalTxIn>) {
    && psbt.tx.version == 2 && psbt.tx.lockTime == 0
    && |psbt.tx.input| == |psbt.inputs| == |coins| + |added|
    && (forall k | 0 <= k < |coins| ::
          SpendsCoin(psbt.tx.input[k], psbt.inputs[k], coins[k].(sequence := 0xffff_fffd), All))
    && (forall k | 0 <= k < |added| ::
          var n := |coins| + k;
          SpendsCoin(psbt.tx.input[n], psbt.inputs[n], added[k].(sequence := 0xffff_fffd), All))
    && |psbt.tx.output| == |psbt.outputs| == 1 && Undescribed(psbt.outputs[0])
  }

  lemma CpfpPsbtIs(coins: seq<InternalTxIn>, added: seq<InternalTxIn>, output: TxOut)
    ensures SpendsSelection(CpfpPsbt(coins + added, output), coins, added)
  {
    var selection, psbt := coins + added, CpfpPsbt(coins + added, output);
    forall k | 0 <= k < |selection|
      ensures SpendsCoin(psbt.tx.input[k], psbt.inputs[k], selection[k].(sequence := 0xffff_fffd), All)
    {
      assert psbt.tx.input[k] == CpfpInput(selection[k]) && psbt.inputs[k] == CpfpPsbtIn(selection[k]);
    }
    forall k | 0 <= k < |added|
      ensures var n := |coins| + k;
              SpendsCoin(psbt.tx.input[n], psbt.inputs[n], added[k].(sequence := 0xffff_fffd), All)
    {
      assert selection[|coins| + k] == added[k];
    }
  }

  lemma AskedIsPaid(paid: nat, target: nat, asked: nat, package: nat, short: nat)
    requires paid > target * package - short && asked <= target
    ensures paid > asked * package - short
  {
    MulMonotone(package, asked, target);
  }

  lemma CpfpFees(req: Request, added: seq<InternalTxIn>, output: TxOut)
    requires output.value <= Value(req, added) <= U64_MAX
    ensures Fees(CpfpPsbt(Selection(req, added), output)) == Some(Value(req, added) - output.value)
  {
    var selection := Selection(req, added);
    var psbt := CpfpPsbt(selection, output);
    SumByCongruent(SpentValue, psbt.inputs, TxinValue, selection);
    SingleSum(TxOutValue, output);
  }

  /** The returned output is either a change above dust or an empty OP_RETURN, and the transaction is at least 82
      bytes without witness, the minimum relayed. The padding is what ensures it: it is used exactly when the
      unpadded form would be too small. */
  lemma OutputIsStandard(lib: Library, req: Request, added: seq<InternalTxIn>)
    requires req.coins != [] && req.tbcWeight > 0 && ValidCoins(lib, req.coins)
    requires 0 <= ChangeNeed(lib, req, added) && Value(req, added) <= U64_MAX
    ensures var output := FinalOutput(lib, req, added);
            && DustValue(output.scriptPubkey) <= output.value
            && Weight(CpfpPsbt(Selection(req, added), output).tx) >= 4 * 82
    ensures Weight(CpfpPsbt(Selection(req, added), TxOut(0, [0x6a, 0x00])).tx) < 4 * 82 <==>
            OpReturnScript(|Selection(req, added)|) != [0x6a, 0x00]
  {
    ChangeIsP2wsh(lib, req);
    P2wshDust(ChangeScript(req));
    OneOutputWeight(CpfpPsbt(Selection(req, added), FinalOutput(lib, req, added)).tx);
    OneOutputWeight(CpfpPsbt(Selection(req, added), TxOut(0, [0x6a, 0x00])).tx);
    assert |OpReturnScript(1)| == 24;
  }
}
