/** `CpfpTransaction::from_txins`: the selection loop, and why largest-first is the best it can do. */
module CpfpSelection {
  import opened Wrappers
  import opened Sums
  import opened Bitcoin
  import opened TxOuts
  import opened Creation
  import opened Cpfp

  // ----- sorting

  ghost predicate Ascending(coins: seq<InternalTxIn>) {
    forall i, j | 0 <= i < j < |coins| :: TxinValue(coins[i]) <= TxinValue(coins[j])
  }

  ghost predicate IsSorting(coins: seq<InternalTxIn>, sorted: seq<InternalTxIn>) {
    Ascending(sorted) && multiset(sorted) == multiset(coins)
  }

  /** Some sorting by value; nothing is promised on coins of equal value, as the sort is unstable. */
  method SortByValue(coins: seq<InternalTxIn>) returns (sorted: seq<InternalTxIn>)
    ensures IsSorting(coins, sorted)
    decreases |coins|
  {
    if coins == [] {
      return [];
    }
    var n := |coins| - 1;
    var rest := SortByValue(Without(coins, n));
    WithoutMultiset(coins, n);
    var k := Place(rest, coins[n]);
    sorted := InsertAt(rest, k, coins[n]);
    InsertKeepsOrder(rest, k, coins[n]);
  }

  method Place(s: seq<InternalTxIn>, c: InternalTxIn) returns (k: nat)
    ensures k <= |s| && forall i | 0 <= i < k :: TxinValue(s[i]) < TxinValue(c)
    ensures k < |s| ==> TxinValue(c) <= TxinValue(s[k])
  {
    k := 0;
    while k < |s| && TxinValue(s[k]) < TxinValue(c)
      invariant k <= |s| && forall i | 0 <= i < k :: TxinValue(s[i]) < TxinValue(c)
    {
      k := k + 1;
    }
  }

  lemma InsertKeepsOrder(s: seq<InternalTxIn>, k: nat, c: InternalTxIn)
    requires Ascending(s) && k <= |s|
    requires forall i | 0 <= i < k :: TxinValue(s[i]) < TxinValue(c)
    requires k < |s| ==> TxinValue(c) <= TxinValue(s[k])
    ensures Ascending(InsertAt(s, k, c))
  {
  }

  function InsertAt<T>(s: seq<T>, k: nat, c: T): (r: seq<T>)
    requires k <= |s|
    ensures multiset(r) == multiset(s) + multiset{c}
    ensures |r| == |s| + 1 && forall i | 0 <= i < |r| :: r[i] == if i < k then s[i] else if i == k then c else s[i - 1]
  {
    assert s == s[..k] + s[k..];
    s[..k] + [c] + s[k..]
  }

  /** The `k` coins the loop pops: the largest, largest first. */
  function Largest(sorted: seq<InternalTxIn>, k: nat): (r: seq<InternalTxIn>)
    requires k <= |sorted|
    ensures |r| == k && forall i | 0 <= i < k :: r[i] == sorted[|sorted| - 1 - i]
  {
    seq(k, i requires 0 <= i < k => sorted[|sorted| - 1 - i])
  }

  lemma LargestNext(sorted: seq<InternalTxIn>, k: nat)
    requires k < |sorted|
    ensures Largest(sorted, k + 1) == Largest(sorted, k) + [sorted[|sorted| - 1 - k]]
  {
  }

  lemma {:induction false} LargestIsSelection(sorted: seq<InternalTxIn>, k: nat)
    requires k <= |sorted|
    ensures multiset(Largest(sorted, k)) <= multiset(sorted)
  {
    LargestMultiset(sorted, k);
  }

  lemma {:induction false} LargestMultiset(sorted: seq<InternalTxIn>, k: nat)
    requires k <= |sorted|
    ensures multiset(sorted) == multiset(Largest(sorted, k)) + multiset(sorted[..|sorted| - k])
  {
    if k == 0 {
      assert sorted[..|sorted|] == sorted;
      assert Largest(sorted, 0) == [];
    } else {
      LargestMultiset(sorted, k - 1);
      LargestNext(sorted, k - 1);
      var m := |sorted| - k;
      SnocMultiset(sorted[..m + 1], sorted[..m], sorted[m]);
      SnocMultiset(Largest(sorted, k), Largest(sorted, k - 1), sorted[m]);
    }
  }

  lemma SnocMultiset(all: seq<InternalTxIn>, init: seq<InternalTxIn>, last: InternalTxIn)
    requires all == init + [last]
    ensures multiset(all) == multiset(init) + multiset{last}
  {
  }

  // ----- the exchange argument

  /** No selection of `k` coins is worth more than the `k` largest. */
  lemma {:induction false} LargestDominates(sorted: seq<InternalTxIn>, other: seq<InternalTxIn>)
    requires Ascending(sorted) && multiset(other) <= multiset(sorted)
    ensures |other| <= |sorted|
    ensures SumBy(TxinValue, other) <= SumBy(TxinValue, Largest(sorted, |other|))
    decreases |other|
  {
    SelectionIsNoLonger(other, sorted);
    if other != [] {
      var last := |sorted| - 1;
      // Drop the top coin from both sides, or any coin of `other` if it does not use the top one.
      var k := 0;
      if sorted[last] in multiset(other) {
        k := FindInMultiset(sorted[last], other);
      }
      DropBoth(sorted, other, k);
      LargestDominates(Without(sorted, last), Without(other, k));
      WithoutSum(TxinValue, other, k);
      LargestTop(sorted, |other|);
    }
  }

  lemma DropBoth(sorted: seq<InternalTxIn>, other: seq<InternalTxIn>, k: nat)
    requires Ascending(sorted) && multiset(other) <= multiset(sorted) && sorted != [] && k < |other|
    requires sorted[|sorted| - 1] in multiset(other) ==> other[k] == sorted[|sorted| - 1]
    ensures multiset(Without(other, k)) <= multiset(Without(sorted, |sorted| - 1))
    ensures TxinValue(other[k]) <= TxinValue(sorted[|sorted| - 1])
  {
    DropFromBoth(other, k, sorted, |sorted| - 1);
    assert other[k] in multiset(other);
    TopIsLargest(sorted, other[k]);
  }

  lemma DropFromBoth<T>(a: seq<T>, k: nat, b: seq<T>, l: nat)
    requires multiset(a) <= multiset(b) && k < |a| && l < |b|
    requires b[l] in multiset(a) ==> a[k] == b[l]
    ensures multiset(Without(a, k)) <= multiset(Without(b, l))
  {
    WithoutMultiset(a, k);
    WithoutMultiset(b, l);
    DropTop(multiset(a), multiset(b), a[k], b[l]);
  }

  lemma DropTop<T>(a: multiset<T>, b: multiset<T>, x: T, top: T)
    requires a <= b && x in a && top in b && (top in a ==> x == top)
    ensures a - multiset{x} <= b - multiset{top}
  {
  }

  lemma TopIsLargest(sorted: seq<InternalTxIn>, c: InternalTxIn)
    requires Ascending(sorted) && c in multiset(sorted)
    ensures sorted != [] && TxinValue(c) <= TxinValue(sorted[|sorted| - 1])
  {
    var l := FindInMultiset(c, sorted);
    assert l == |sorted| - 1 || TxinValue(sorted[l]) <= TxinValue(sorted[|sorted| - 1]);
  }

  lemma LargestTop(sorted: seq<InternalTxIn>, k: nat)
    requires 0 < k <= |sorted|
    ensures SumBy(TxinValue, Largest(sorted, k)) ==
            TxinValue(sorted[|sorted| - 1]) + SumBy(TxinValue, Largest(Without(sorted, |sorted| - 1), k - 1))
  {
    var rest := Largest(Without(sorted, |sorted| - 1), k - 1);
    ConsIs(Largest(sorted, k), sorted[|sorted| - 1], rest);
    SumByAppend(TxinValue, [sorted[|sorted| - 1]], rest);
    SingleSum(TxinValue, sorted[|sorted| - 1]);
  }

  lemma SelectionIsNoLonger<T>(a: seq<T>, b: seq<T>)
    requires multiset(a) <= multiset(b)
    ensures |a| <= |b|
  {
    assert |multiset(b)| == |multiset(a)| + |multiset(b) - multiset(a)|;
  }

  ghost predicate Uniform(lib: Library, coins: seq<InternalTxIn>, w: nat) {
    forall c | c in coins :: TxinSat(lib)(c) == w
  }

  lemma UniformSelection(lib: Library, coins: seq<InternalTxIn>, w: nat, other: seq<InternalTxIn>)
    requires Uniform(lib, coins, w) && multiset(other) <= multiset(coins)
    ensures SumBy(TxinSat(lib), other) == w * |other|
  {
    forall c | c in other ensures TxinSat(lib)(c) == w {
      assert c in multiset(other);
      assert c in multiset(coins);
    }
    SumByConstant(TxinSat(lib), other, w);
  }

  /** With equal satisfaction weights the needs depend only on how many coins are added. */
  lemma NeedsDependOnCount(lib: Library, req: Request, coins: seq<InternalTxIn>, w: nat, a: seq<InternalTxIn>,
                           b: seq<InternalTxIn>, spk: Script)
    requires req.tbcWeight > 0 && Uniform(lib, coins, w) && |a| == |b|
    requires multiset(a) <= multiset(coins) && multiset(b) <= multiset(coins)
    ensures Need(lib, req, a, spk) == Need(lib, req, b, spk)
  {
    UniformSelection(lib, coins, w, a);
    UniformSelection(lib, coins, w, b);
    SumByAppend(TxinSat(lib), req.coins, a);
    SumByAppend(TxinSat(lib), req.coins, b);
    SelectionWeight(lib, req, a, spk);
    SelectionWeight(lib, req, b, spk);
  }

  /** If any selection passes the funding test, the largest coins in the same number do. */
  lemma LargestIsFunded(lib: Library, req: Request, coins: seq<InternalTxIn>, w: nat, sorted: seq<InternalTxIn>,
                        other: seq<InternalTxIn>)
    requires req.coins != [] && req.tbcWeight > 0 && Uniform(lib, coins, w)
    requires IsSorting(coins, sorted) && multiset(other) <= multiset(coins)
    requires Funded(lib, req, other)
    ensures |other| <= |sorted| && Funded(lib, req, Largest(sorted, |other|))
  {
    LargestDominates(sorted, other);
    var best := Largest(sorted, |other|);
    LargestIsSelection(sorted, |other|);
    NeedsDependOnCount(lib, req, coins, w, other, best, ChangeScript(req));
    NeedsDependOnCount(lib, req, coins, w, other, best, OpReturnScript(|Selection(req, other)|));
    SumByAppend(TxinValue, req.coins, other);
    SumByAppend(TxinValue, req.coins, best);
  }

  /** The selection is the smallest there is. */
  ghost predicate Least(lib: Library, req: Request, coins: seq<InternalTxIn>, k: nat)
    requires req.coins != [] && req.tbcWeight > 0
  {
    forall other: seq<InternalTxIn> | multiset(other) <= multiset(coins) && Funded(lib, req, other) :: k <= |other|
  }

  lemma GreedyIsOptimal(lib: Library, req: Request, coins: seq<InternalTxIn>, w: nat, sorted: seq<InternalTxIn>, k: nat)
    requires req.coins != [] && req.tbcWeight > 0 && Uniform(lib, coins, w)
    requires IsSorting(coins, sorted) && k <= |sorted|
    requires forall j | 0 <= j < k :: !Funded(lib, req, Largest(sorted, j))
    ensures Least(lib, req, coins, k)
  {
    forall other: seq<InternalTxIn> | multiset(other) <= multiset(coins) && Funded(lib, req, other)
      ensures k <= |other|
    {
      LargestIsFunded(lib, req, coins, w, sorted, other);
    }
  }

  ghost predicate NothingFunded(lib: Library, req: Request, coins: seq<InternalTxIn>)
    requires req.coins != [] && req.tbcWeight > 0
  {
    forall other: seq<InternalTxIn> | multiset(other) <= multiset(coins) :: !Funded(lib, req, other)
  }

  /** When no prefix of the largest coins passes, nothing does. */
  lemma LargestIsUnfunded(lib: Library, req: Request, coins: seq<InternalTxIn>, w: nat, sorted: seq<InternalTxIn>,
                          other: seq<InternalTxIn>)
    requires req.coins != [] && req.tbcWeight > 0 && Uniform(lib, coins, w)
    requires IsSorting(coins, sorted) && multiset(other) <= multiset(coins)
    requires forall j | 0 <= j <= |sorted| :: !Funded(lib, req, Largest(sorted, j))
    ensures !Funded(lib, req, other)
  {
    if Funded(lib, req, other) {
      LargestIsFunded(lib, req, coins, w, sorted, other);
    }
  }

  // ----- machine words

  /** Amounts and weights small enough for 64-bit arithmetic, whatever the loop selects. */
  ghost predicate Fits(lib: Library, req: Request, coins: seq<InternalTxIn>) {
    && req.coins != [] && req.tbcWeight > 0
    && 1000 * (req.tbcFees + req.tbcWeight) <= U64_MAX
    && Value(req, coins) <= U64_MAX
    && TargetFeerate(req) * PackageWeight(lib, req, coins, ChangeScript(req)) <= U64_MAX
  }

  /** The need as the code computes it: a product, a division, and a subtraction that must not underflow. */
  function CheckedNeed(target: nat, packageWeight: nat, tbcFees: nat): Option<nat> {
    if target * packageWeight > U64_MAX || target * packageWeight / 1000 < tbcFees then None
    else Some(target * packageWeight / 1000 - tbcFees)
  }

  lemma VarIntMonotone(a: nat, b: nat)
    requires a <= b
    ensures VarIntLen(a) <= VarIntLen(b)
  {
  }

  /** A selection weighs, costs and is worth no more than everything available. */
  lemma SelectionIsSmaller(lib: Library, req: Request, coins: seq<InternalTxIn>, added: seq<InternalTxIn>, spk: Script)
    requires req.coins != [] && multiset(added) <= multiset(coins) && |spk| <= |ChangeScript(req)|
    ensures PackageWeight(lib, req, added, spk) <= PackageWeight(lib, req, coins, ChangeScript(req))
    ensures Value(req, added) <= Value(req, coins)
    ensures SumBy(TxinSat(lib), Selection(req, added)) <= SumBy(TxinSat(lib), Selection(req, coins))
  {
    SelectionIsNoLonger(added, coins);
    VarIntMonotone(|Selection(req, added)|, |Selection(req, coins)|);
    VarIntMonotone(|spk|, |ChangeScript(req)|);
    SelectionWeight(lib, req, added, spk);
    SelectionWeight(lib, req, coins, ChangeScript(req));
    SumBySelection(TxinSat(lib), added, coins);
    SumBySelection(TxinValue, added, coins);
    SumByAppend(TxinSat(lib), req.coins, added);
    SumByAppend(TxinSat(lib), req.coins, coins);
    SumByAppend(TxinValue, req.coins, added);
    SumByAppend(TxinValue, req.coins, coins);
  }

  /** No overflow and no underflow in any iteration, for both output forms. */
  lemma NeedIsComputed(lib: Library, req: Request, coins: seq<InternalTxIn>, added: seq<InternalTxIn>, spk: Script)
    requires Fits(lib, req, coins) && multiset(added) <= multiset(coins) && |spk| <= |ChangeScript(req)|
    ensures CheckedNeed(TargetFeerate(req), PackageWeight(lib, req, added, spk), req.tbcFees) ==
            Some(Need(lib, req, added, spk))
  {
    SelectionIsSmaller(lib, req, coins, added, spk);
    MulMonotone(TargetFeerate(req), PackageWeight(lib, req, added, spk),
                PackageWeight(lib, req, coins, ChangeScript(req)));
    NoFeeUnderflow(req, PackageWeight(lib, req, added, spk));
  }

  /** The iteration on this selection does not fit 64 bits: the sum of its amounts, or the product for the change form,
      the largest number it computes. */
  predicate TooBig(lib: Library, req: Request, added: seq<InternalTxIn>)
    requires req.coins != [] && req.tbcWeight > 0
  {
    Value(req, added) > U64_MAX || TargetFeerate(req) * PackageWeight(lib, req, added, ChangeScript(req)) > U64_MAX
  }

  /** As the subtraction never underflows, only the product can fail. */
  lemma CheckedNeedIs(req: Request, weight: nat)
    requires 0 < req.tbcWeight <= weight
    ensures var product := TargetFeerate(req) * weight;
            CheckedNeed(TargetFeerate(req), weight, req.tbcFees) ==
            if product > U64_MAX then None else Some(product / 1000 - req.tbcFees)
  {
    NoFeeUnderflow(req, weight);
  }

  lemma OpReturnProduct(lib: Library, req: Request, added: seq<InternalTxIn>)
    requires req.coins != [] && req.tbcWeight > 0 && ValidCoins(lib, req.coins)
    ensures TargetFeerate(req) * PackageWeight(lib, req, added, OpReturnScript(|Selection(req, added)|)) <=
            TargetFeerate(req) * PackageWeight(lib, req, added, ChangeScript(req))
  {
    OpReturnIsLighter(lib, req, added);
    MulMonotone(TargetFeerate(req), PackageWeight(lib, req, added, OpReturnScript(|Selection(req, added)|)),
                PackageWeight(lib, req, added, ChangeScript(req)));
  }

  /** The satisfaction weights are part of that product. */
  lemma HeavyIsTooBig(lib: Library, req: Request, added: seq<InternalTxIn>)
    requires req.coins != [] && req.tbcWeight > 0
    requires SumBy(TxinSat(lib), Selection(req, added)) > U64_MAX
    ensures TooBig(lib, req, added)
  {
    var target, weight := TargetFeerate(req), PackageWeight(lib, req, added, ChangeScript(req));
    FloorAtLeast(1, 1000 * (req.tbcFees + req.tbcWeight), req.tbcWeight);
    MulMonotone(weight, 1, target);
  }

  /** No selection from a pool that fits is too big. */
  lemma FitsIsNotTooBig(lib: Library, req: Request, coins: seq<InternalTxIn>, added: seq<InternalTxIn>)
    requires Fits(lib, req, coins) && multiset(added) <= multiset(coins)
    ensures !TooBig(lib, req, added)
  {
    SelectionIsSmaller(lib, req, coins, added, ChangeScript(req));
    MulMonotone(TargetFeerate(req), PackageWeight(lib, req, added, ChangeScript(req)),
                PackageWeight(lib, req, coins, ChangeScript(req)));
  }

  // ----- the constructor

  /** The transaction template with the coins to be bumped, and the sums over them. */
  method Template(lib: Library, coins: seq<InternalTxIn>) returns (r: Outcome<(Psbt, u64, u64), CreationError>)
    requires coins != [] && ValidCoins(lib, coins)
    ensures !r.Fails?
    ensures r.Panics? <==> SumBy(TxinValue, coins) > U64_MAX || SumBy(TxinSat(lib), coins) > U64_MAX
    ensures r.Done? ==>
              r.value == (CpfpPsbt(coins, coins[|coins| - 1].txout.txout),
                          SumBy(TxinValue, coins), SumBy(TxinSat(lib), coins))
  {
    var txins: seq<TxIn>, psbtins: seq<PsbtIn> := [], [];
    var dummyChange: Option<TxOut> := None;
    var inputsSum: u64, totalSatisfactionWeight: u64 := 0, 0;
    for k := 0 to |coins|
      invariant Pushed(lib, coins, k, txins, psbtins, dummyChange, inputsSum, totalSatisfactionWeight)
    {
      var c := coins[k];
      PushedNext(lib, coins, k, txins, psbtins, dummyChange, inputsSum, totalSatisfactionWeight);
      dummyChange := Some(c.txout.txout);
      var sum, weight := inputsSum + c.txout.txout.value, totalSatisfactionWeight + TxinSat(lib)(c);
      if sum > U64_MAX || weight > U64_MAX {
        return Panics;
      }
      inputsSum, totalSatisfactionWeight := sum, weight;
      txins := txins + [CpfpInput(c)];
      psbtins := psbtins + [CpfpPsbtIn(c)];
    }
    PushedAll(lib, coins, txins, psbtins, dummyChange, inputsSum, totalSatisfactionWeight);
    var psbt := Psbt(Transaction(2, 0, txins, [dummyChange.value]), psbtins, [EmptyPsbtOut]);
    return Done((psbt, inputsSum, totalSatisfactionWeight));
  }

  /** The loop variables of the template after `k` coins. */
  ghost predicate Pushed(lib: Library, coins: seq<InternalTxIn>, k: nat, txins: seq<TxIn>, psbtins: seq<PsbtIn>,
                         dummyChange: Option<TxOut>, sum: nat, weight: nat) {
    && k <= |coins|
    && dummyChange == (if k == 0 then None else Some(coins[k - 1].txout.txout))
    && sum == SumTo(TxinValue, coins, k) && weight == SumTo(TxinSat(lib), coins, k)
    && ImageTo(CpfpInput, coins, k, txins) && ImageTo(CpfpPsbtIn, coins, k, psbtins)
  }

  lemma PushedNext(lib: Library, coins: seq<InternalTxIn>, k: nat, txins: seq<TxIn>, psbtins: seq<PsbtIn>,
                   dummyChange: Option<TxOut>, sum: nat, weight: nat)
    requires k < |coins| && Pushed(lib, coins, k, txins, psbtins, dummyChange, sum, weight)
    ensures var c := coins[k];
            && Pushed(lib, coins, k + 1, txins + [CpfpInput(c)], psbtins + [CpfpPsbtIn(c)], Some(c.txout.txout),
                      sum + c.txout.txout.value, weight + TxinSat(lib)(c))
            && sum + c.txout.txout.value <= SumBy(TxinValue, coins)
            && weight + TxinSat(lib)(c) <= SumBy(TxinSat(lib), coins)
  {
    PartialSum(TxinValue, coins, k + 1);
    PartialSum(TxinSat(lib), coins, k + 1);
    ImageGrows(CpfpInput, coins, txins);
    ImageGrows(CpfpPsbtIn, coins, psbtins);
  }

  lemma PushedAll(lib: Library, coins: seq<InternalTxIn>, txins: seq<TxIn>, psbtins: seq<PsbtIn>,
                  dummyChange: Option<TxOut>, sum: nat, weight: nat)
    requires coins != [] && Pushed(lib, coins, |coins|, txins, psbtins, dummyChange, sum, weight)
    ensures dummyChange == Some(coins[|coins| - 1].txout.txout)
    ensures Psbt(Transaction(2, 0, txins, [dummyChange.value]), psbtins, [EmptyPsbtOut]) ==
            CpfpPsbt(coins, coins[|coins| - 1].txout.txout)
    ensures sum == SumBy(TxinValue, coins) && weight == SumBy(TxinSat(lib), coins)
  {
    ImageDone(CpfpInput, coins, txins);
    ImageDone(CpfpPsbtIn, coins, psbtins);
  }

  /** Pushing one more coin into the PSBT. */
  function PushCoin(psbt: Psbt, c: InternalTxIn): Psbt {
    psbt.(tx := psbt.tx.(input := psbt.tx.input + [CpfpInput(c)]), inputs := psbt.inputs + [CpfpPsbtIn(c)])
  }

  lemma PushedCoin(selection: seq<InternalTxIn>, c: InternalTxIn, output: TxOut)
    ensures PushCoin(CpfpPsbt(selection, output), c) == CpfpPsbt(selection + [c], output)
  {
    var a, b := PushCoin(CpfpPsbt(selection, output), c), CpfpPsbt(selection + [c], output);
    assert a.tx.input == b.tx.input;
    assert a.inputs == b.inputs;
  }

  /** The output overwritten in place once the selection is funded. */
  function Settle(psbt: Psbt, inputsSum: u64, feesNeeded: nat): Psbt
    requires psbt.tx.output != []
  {
    var output :=
      if inputsSum > feesNeeded && inputsSum - feesNeeded > CPFP_MIN_CHANGE
      then psbt.tx.output[0].(value := inputsSum - feesNeeded)
      else TxOut(0, OpReturnScript(|psbt.tx.input|));
    psbt.(tx := psbt.tx.(output := [output]))
  }

  /** The loop variables after adding the `k` largest coins. */
  ghost predicate State(lib: Library, req: Request, sorted: seq<InternalTxIn>, k: nat, psbt: Psbt, inputsSum: u64,
                        satWeight: u64) {
    && req.coins != [] && k <= |sorted|
    && psbt == CpfpPsbt(Selection(req, Largest(sorted, k)), req.coins[|req.coins| - 1].txout.txout)
    && inputsSum == Value(req, Largest(sorted, k))
    && satWeight == SumBy(TxinSat(lib), Selection(req, Largest(sorted, k)))
  }

  lemma Settled(lib: Library, req: Request, sorted: seq<InternalTxIn>, k: nat, psbt: Psbt, inputsSum: u64,
                satWeight: u64, feesNeeded: nat)
    requires State(lib, req, sorted, k, psbt, inputsSum, satWeight)
    requires req.tbcWeight > 0 && feesNeeded == ChangeNeed(lib, req, Largest(sorted, k))
    ensures Value(req, Largest(sorted, k)) <= U64_MAX
    ensures Settle(psbt, inputsSum, feesNeeded) ==
            CpfpPsbt(Selection(req, Largest(sorted, k)), FinalOutput(lib, req, Largest(sorted, k)))
  {
  }

  /** What the loop has established after adding the `k` largest coins. */
  ghost predicate Tried(lib: Library, req: Request, available: seq<InternalTxIn>, sorted: seq<InternalTxIn>, k: nat)
    requires req.coins != [] && req.tbcWeight > 0
  {
    && IsSorting(available, sorted) && k <= |sorted|
    && forall j | 0 <= j < k :: !Funded(lib, req, Largest(sorted, j))
  }

  lemma TriedNext(lib: Library, req: Request, available: seq<InternalTxIn>, sorted: seq<InternalTxIn>, k: nat)
    requires req.coins != [] && req.tbcWeight > 0 && k < |sorted|
    requires Tried(lib, req, available, sorted, k) && !Funded(lib, req, Largest(sorted, k))
    ensures Tried(lib, req, available, sorted, k + 1)
  {
  }

  /** The pool after `pop`. */
  function Popped(pool: seq<InternalTxIn>): (r: seq<InternalTxIn>)
    requires pool != []
    ensures |r| == |pool| - 1 && forall i | 0 <= i < |r| :: r[i] == pool[i]
  {
    pool[..|pool| - 1]
  }

  /** One more coin in the PSBT and in the sums; `None` is an overflow. */
  method AddCoin(lib: Library, req: Request, ghost sorted: seq<InternalTxIn>, ghost k: nat, newInput: InternalTxIn,
                 psbt: Psbt, inputsSum: u64, satWeight: u64) returns (r: Option<(Psbt, u64, u64)>)
    requires req.tbcWeight > 0 && State(lib, req, sorted, k, psbt, inputsSum, satWeight)
    requires k < |sorted| && newInput == sorted[|sorted| - 1 - k]
    ensures r.None? ==> TooBig(lib, req, Largest(sorted, k + 1))
    ensures r.Some? ==> State(lib, req, sorted, k + 1, r.value.0, r.value.1, r.value.2)
  {
    var sum, weight := inputsSum + newInput.txout.txout.value, satWeight + TxinSat(lib)(newInput);
    NextState(lib, req, sorted, k, psbt, inputsSum, satWeight);
    if sum > U64_MAX {
      return None;
    }
    if weight > U64_MAX {
      HeavyIsTooBig(lib, req, Largest(sorted, k + 1));
      return None;
    }
    return Some((PushCoin(psbt, newInput), sum, weight));
  }

  /** What every earlier iteration was, besides unfunded. */
  ghost predicate Computed(lib: Library, req: Request, sorted: seq<InternalTxIn>, k: nat)
    requires req.coins != [] && req.tbcWeight > 0 && k <= |sorted|
  {
    forall j | 0 <= j < k :: !TooBig(lib, req, Largest(sorted, j))
  }

  lemma ComputedNext(lib: Library, req: Request, sorted: seq<InternalTxIn>, k: nat)
    requires req.coins != [] && req.tbcWeight > 0 && k < |sorted|
    requires Computed(lib, req, sorted, k) && !TooBig(lib, req, Largest(sorted, k))
    ensures Computed(lib, req, sorted, k + 1)
  {
  }

  /** The loop, from the template on: add the largest coin left until the funding test passes. It panics exactly in the
      first iteration that does not fit 64 bits. */
  method Select(lib: Library, req: Request, ghost available: seq<InternalTxIn>, sorted: seq<InternalTxIn>,
                template: Psbt,
                templateSum: u64, templateWeight: u64) returns (r: Outcome<Psbt, CreationError>, ghost k: nat)
    requires req.coins != [] && req.tbcWeight > 0 && ValidCoins(lib, req.coins) && IsSorting(available, sorted)
    requires template == CpfpPsbt(req.coins, req.coins[|req.coins| - 1].txout.txout)
    requires templateSum == SumBy(TxinValue, req.coins) && templateWeight == SumBy(TxinSat(lib), req.coins)
    ensures Tried(lib, req, available, sorted, k) && Computed(lib, req, sorted, k)
    ensures r.Panics? <==> TooBig(lib, req, Largest(sorted, k))
    ensures r.Done? ==>
              var added := Largest(sorted, k);
              && Funded(lib, req, added) && 0 <= ChangeNeed(lib, req, added) && Value(req, added) <= U64_MAX
              && r.value == CpfpPsbt(Selection(req, added), FinalOutput(lib, req, added))
    ensures r.Fails? ==> r.error == InsufficientFunds && k == |sorted| && !Funded(lib, req, Largest(sorted, k))
  {
    var psbt, pool := template, sorted;
    var inputsSum: u64, totalSatisfactionWeight: u64 := templateSum, templateWeight;
    k := 0;
    assert Selection(req, Largest(sorted, 0)) == req.coins;
    while true
      invariant Tried(lib, req, available, sorted, k) && Computed(lib, req, sorted, k)
      invariant |pool| == |sorted| - k && forall i | 0 <= i < |pool| :: pool[i] == sorted[i]
      invariant State(lib, req, sorted, k, psbt, inputsSum, totalSatisfactionWeight)
      decreases |pool|
    {
      var needs := Needs(lib, req, sorted, k, psbt, inputsSum, totalSatisfactionWeight);
      if needs.None? {
        return Panics, k;
      }
      var (feesNeeded, opReturnFeesNeeded) := needs.value;
      if inputsSum > feesNeeded || inputsSum > opReturnFeesNeeded {
        Settled(lib, req, sorted, k, psbt, inputsSum, totalSatisfactionWeight, feesNeeded);
        return Done(Settle(psbt, inputsSum, feesNeeded)), k;
      }
      if pool == [] {
        return Fails(InsufficientFunds), k;
      }
      var newInput := pool[|pool| - 1];
      var more := AddCoin(lib, req, sorted, k, newInput, psbt, inputsSum, totalSatisfactionWeight);
      TriedNext(lib, req, available, sorted, k);
      ComputedNext(lib, req, sorted, k);
      k := k + 1;
      if more.None? {
        return Panics, k;
      }
      pool := Popped(pool);
      psbt, inputsSum, totalSatisfactionWeight := more.value.0, more.value.1, more.value.2;
    }
  }

  /** What ends the call before its loop: no coin, or a target that cannot be computed. */
  predicate NoTarget(req: Request) {
    req.coins == [] || req.tbcWeight == 0 || 1000 * (req.tbcFees + req.tbcWeight) > U64_MAX
  }

  /** Select coins until the package is funded, then settle the output.

      Whatever the ties in the sort, on success the result holds the coins to be bumped followed by the `k` largest
      available ones, passes the funding test that every shorter prefix fails, has the output that goes with it, and
      pays the feerate asked for. Running out of coins is reported exactly when all prefixes fail. With equal
      satisfaction weights no selection at all does better: `k` is the least number of coins that can pass the test,
      and if any selection passes it the call succeeds. It panics exactly without a target, or when it reaches a prefix
      whose numbers do not fit 64 bits; never when the whole pool fits, and never by an underflow of the fees. */
  method FromTxins(lib: Library, req: Request, available: seq<InternalTxIn>)
    returns (r: Outcome<Psbt, CreationError>, ghost sorted: seq<InternalTxIn>, ghost k: nat)
    requires ValidCoins(lib, req.coins) && ValidCoins(lib, available)
    ensures IsSorting(available, sorted) && (NoTarget(req) ==> r.Panics?)
    ensures !NoTarget(req) ==>
              && Tried(lib, req, available, sorted, k)
              && (r.Panics? <==> TooBig(lib, req, Largest(sorted, k)))
              && (r.Panics? <==>
                  exists j :: Tried(lib, req, available, sorted, j) && TooBig(lib, req, Largest(sorted, j)))
    ensures r.Panics? ==> !Fits(lib, req, available)
    ensures r.Done? ==>
              var added := Largest(sorted, k);
              && Funded(lib, req, added) && 0 <= ChangeNeed(lib, req, added) && Value(req, added) <= U64_MAX
              && r.value == CpfpPsbt(Selection(req, added), FinalOutput(lib, req, added))
    ensures r.Done? ==> SpendsSelection(r.value, req.coins, Largest(sorted, k))
    ensures r.Done? ==> Promised(lib, req, r.value) && Thrifty(lib, req, r.value)
    ensures r.Fails? ==> r.error == InsufficientFunds && k == |sorted| && !Funded(lib, req, Largest(sorted, k))
    ensures r.Done? ==> forall w | Uniform(lib, available, w) :: Least(lib, req, available, k)
    ensures !r.Panics? ==> forall w | Uniform(lib, available, w) :: r.Fails? <==> NothingFunded(lib, req, available)
  {
    sorted, k := available, 0;
    var pool := SortByValue(available);
    sorted := pool;
    // No coin to bump, or no weight to divide by.
    if req.coins == [] || req.tbcWeight == 0 {
      return Panics, sorted, k;
    }
    var template := Template(lib, req.coins);
    if !template.Done? {
      TemplateIsTooBig(lib, req, available, sorted);
      return Panics, sorted, k;
    }
    if 1000 * (req.tbcFees + req.tbcWeight) > U64_MAX {
      return Panics, sorted, k;
    }
    r, k := Select(lib, req, available, pool, template.value.0, template.value.1, template.value.2);
    LargestIsSelection(sorted, k);
    if r.Panics? {
      TooBigDoesNotFit(lib, req, available, Largest(sorted, k));
    } else {
      NeverTooBig(lib, req, available, sorted, k);
      if r.Done? {
        Optimality(lib, req, available, sorted, k);
        KeepsPromise(lib, req, Largest(sorted, k));
        IsThrifty(lib, req, Largest(sorted, k));
        CpfpPsbtIs(req.coins, Largest(sorted, k), FinalOutput(lib, req, Largest(sorted, k)));
      } else {
        Exhausted(lib, req, available, sorted);
      }
    }
  }

  /** Prefixes past the last one are not reached. */
  lemma NeverTooBig(lib: Library, req: Request, available: seq<InternalTxIn>, sorted: seq<InternalTxIn>, k: nat)
    requires !NoTarget(req) && Tried(lib, req, available, sorted, k) && Computed(lib, req, sorted, k)
    requires !TooBig(lib, req, Largest(sorted, k))
    requires k == |sorted| || Funded(lib, req, Largest(sorted, k))
    ensures !exists j :: Tried(lib, req, available, sorted, j) && TooBig(lib, req, Largest(sorted, j))
  {
  }

  lemma TooBigDoesNotFit(lib: Library, req: Request, available: seq<InternalTxIn>, added: seq<InternalTxIn>)
    requires !NoTarget(req) && multiset(added) <= multiset(available) && TooBig(lib, req, added)
    ensures !Fits(lib, req, available)
  {
    if Fits(lib, req, available) {
      FitsIsNotTooBig(lib, req, available, added);
    }
  }

  lemma TemplateIsTooBig(lib: Library, req: Request, available: seq<InternalTxIn>, sorted: seq<InternalTxIn>)
    requires req.coins != [] && req.tbcWeight > 0 && IsSorting(available, sorted)
    requires SumBy(TxinValue, req.coins) > U64_MAX || SumBy(TxinSat(lib), req.coins) > U64_MAX
    ensures Tried(lib, req, available, sorted, 0) && TooBig(lib, req, Largest(sorted, 0))
    ensures !Fits(lib, req, available)
  {
    assert Selection(req, Largest(sorted, 0)) == req.coins;
    if SumBy(TxinSat(lib), req.coins) > U64_MAX {
      HeavyIsTooBig(lib, req, Largest(sorted, 0));
    }
    LargestIsSelection(sorted, 0);
    if !NoTarget(req) {
      TooBigDoesNotFit(lib, req, available, Largest(sorted, 0));
    }
  }

  /** The two needs of an iteration, as the code computes them; `None` is an overflow. */
  method Needs(lib: Library, req: Request, ghost sorted: seq<InternalTxIn>, ghost k: nat, psbt: Psbt,
               ghost inputsSum: u64, totalSatisfactionWeight: u64) returns (r: Option<(nat, nat)>)
    requires State(lib, req, sorted, k, psbt, inputsSum, totalSatisfactionWeight)
    requires req.tbcWeight > 0 && ValidCoins(lib, req.coins)
    ensures r.None? <==> TooBig(lib, req, Largest(sorted, k))
    ensures r.Some? ==>
              && r.value.0 == ChangeNeed(lib, req, Largest(sorted, k))
              && r.value.1 == OpReturnNeed(lib, req, Largest(sorted, k))
              && (inputsSum > r.value.0 || inputsSum > r.value.1 <==> Funded(lib, req, Largest(sorted, k)))
  {
    ghost var added := Largest(sorted, k);
    var targetFeerate := TargetFeerate(req);
    var packageWeight := Weight(psbt.tx) + totalSatisfactionWeight + req.tbcWeight;
    var feesNeeded := CheckedNeed(targetFeerate, packageWeight, req.tbcFees);
    var opReturnTx := psbt.tx.(output := [TxOut(0, OpReturnScript(|psbt.tx.input|))]);
    var oprPackageWeight := Weight(opReturnTx) + totalSatisfactionWeight + req.tbcWeight;
    var opReturnFeesNeeded := CheckedNeed(targetFeerate, oprPackageWeight, req.tbcFees);
    WeightIgnoresValues(psbt.tx, CpfpPsbt(Selection(req, added), TxOut(0, ChangeScript(req))).tx);
    assert packageWeight == PackageWeight(lib, req, added, ChangeScript(req));
    assert oprPackageWeight == PackageWeight(lib, req, added, OpReturnScript(|Selection(req, added)|));
    CheckedNeedIs(req, packageWeight);
    CheckedNeedIs(req, oprPackageWeight);
    OpReturnProduct(lib, req, added);
    if feesNeeded.None? || opReturnFeesNeeded.None? {
      return None;
    }
    return Some((feesNeeded.value, opReturnFeesNeeded.value));
  }

  lemma Optimality(lib: Library, req: Request, available: seq<InternalTxIn>, sorted: seq<InternalTxIn>, k: nat)
    requires req.coins != [] && req.tbcWeight > 0 && Tried(lib, req, available, sorted, k)
    ensures forall w | Uniform(lib, available, w) :: Least(lib, req, available, k)
  {
    forall w | Uniform(lib, available, w) ensures Least(lib, req, available, k) {
      GreedyIsOptimal(lib, req, available, w, sorted, k);
    }
  }

  lemma Exhausted(lib: Library, req: Request, available: seq<InternalTxIn>, sorted: seq<InternalTxIn>)
    requires req.coins != [] && req.tbcWeight > 0
    requires Tried(lib, req, available, sorted, |sorted|) && !Funded(lib, req, Largest(sorted, |sorted|))
    ensures forall w | Uniform(lib, available, w) :: NothingFunded(lib, req, available)
  {
    forall w, other: seq<InternalTxIn> | Uniform(lib, available, w) && multiset(other) <= multiset(available)
      ensures !Funded(lib, req, other)
    {
      LargestIsUnfunded(lib, req, available, w, sorted, other);
    }
  }

  /** Popping the last coin of the pool gives the next prefix of the largest coins. */
  lemma NextState(lib: Library, req: Request, sorted: seq<InternalTxIn>, k: nat, psbt: Psbt, inputsSum: u64,
                  satWeight: u64)
    requires State(lib, req, sorted, k, psbt, inputsSum, satWeight) && k < |sorted|
    ensures var c := sorted[|sorted| - 1 - k];
            var sum, weight := inputsSum + c.txout.txout.value, satWeight + TxinSat(lib)(c);
            && Value(req, Largest(sorted, k + 1)) == sum
            && SumBy(TxinSat(lib), Selection(req, Largest(sorted, k + 1))) == weight
            && (sum <= U64_MAX && weight <= U64_MAX ==> State(lib, req, sorted, k + 1, PushCoin(psbt, c), sum, weight))
  {
    var c, added := sorted[|sorted| - 1 - k], Largest(sorted, k);
    LargestNext(sorted, k);
    assert Selection(req, added + [c]) == Selection(req, added) + [c];
    PushedCoin(Selection(req, added), c, req.coins[|req.coins| - 1].txout.txout);
    SumBySnoc(TxinValue, Selection(req, added), c);
    SumBySnoc(TxinSat(lib), Selection(req, added), c);
  }
}
