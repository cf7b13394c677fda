/** The weight of a finalised transaction as it is broadcast, against what `max_weight` says of it. */
module FinalWeight {
  import opened Sums
  import opened Bitcoin
  import opened Validation
  import opened Creation
  import opened Spending

  // ----- "Transaction size calculations" in BIP141

  function ElementBytes(e: Bytes): nat { VarIntLen(|e|) + |e| }

  function WitnessBytes(w: Witness): nat { VarIntLen(|w|) + SumBy(ElementBytes, w) }

  /** What a scriptSig adds to an unsigned input, which already counts the length of an empty one. */
  function ScriptSigBytes(s: Script): nat { VarIntLen(|s|) + |s| - 1 }

  function SatisfactionWeight(s: (Script, Witness)): nat { 4 * ScriptSigBytes(s.0) + WitnessBytes(s.1) }

  function ScriptSigWeight(s: (Script, Witness)): nat { 4 * ScriptSigBytes(s.0) }

  /** Without any witness element the transaction is written in the old format. */
  predicate HasWitness(t: SignedTransaction) { exists s | s in t.satisfactions :: s.1 != [] }

  /** Four units for every byte outside the witnesses, one for each of the two marker bytes and the witness bytes. */
  function BroadcastWeight(t: SignedTransaction): nat {
    if HasWitness(t) then Weight(t.tx) + 2 + SumBy(SatisfactionWeight, t.satisfactions)
    else Weight(t.tx) + SumBy(ScriptSigWeight, t.satisfactions)
  }

  // ----- what `max_weight` leaves out

  function PrefixBytes(e: Bytes): nat { VarIntLen(|e|) }

  /** The item count and the length prefixes of a witness, and the scriptSig, which is normally empty. */
  function Uncounted(i: PsbtIn): nat {
    4 * ScriptSigBytes(FinalScriptSig(i)) + VarIntLen(|FinalWitness(i)|) + SumBy(PrefixBytes, FinalWitness(i))
  }

  lemma {:induction false} ElementsSplit(w: Witness, k: nat)
    requires k <= |w|
    ensures SumTo(ElementBytes, w, k) == SumTo(PrefixBytes, w, k) + SumTo(ElementSize, w, k)
    ensures SumTo(PrefixBytes, w, k) >= k
  {
    if k > 0 {
      ElementsSplit(w, k - 1);
    }
  }

  lemma InputSplit(i: PsbtIn)
    ensures SatisfactionWeight(Satisfaction(i)) == SumBy(ElementSize, FinalWitness(i)) + Uncounted(i)
    ensures Uncounted(i) >= 1 + |FinalWitness(i)|
  {
    ElementsSplit(FinalWitness(i), |FinalWitness(i)|);
  }

  lemma {:induction false} InputsSplit(lib: Library, inputs: seq<PsbtIn>, k: nat)
    requires k <= |inputs| && forall i | i in inputs :: InputWeight(lib, true, i).Some?
    ensures SumTo(SatisfactionWeight, Image(Satisfaction, inputs), k) ==
            SumTo(InputWeightOrZero(lib, true), inputs, k) + SumTo(Uncounted, inputs, k)
    ensures SumTo(Uncounted, inputs, k) >= k
  {
    if k > 0 {
      InputsSplit(lib, inputs, k - 1);
      InputSplit(inputs[k - 1]);
      CountedWitness(lib, inputs[k - 1]);
    }
  }

  lemma CountedWitness(lib: Library, i: PsbtIn)
    ensures InputWeight(lib, true, i).Some? ==> InputWeightOrZero(lib, true)(i) == SumBy(ElementSize, FinalWitness(i))
  {
  }

  lemma {:induction false} NothingCounted(lib: Library, inputs: seq<PsbtIn>, k: nat)
    requires k <= |inputs| && forall i | i in inputs :: InputWeight(lib, true, i).Some? && FinalWitness(i) == []
    ensures SumTo(InputWeightOrZero(lib, true), inputs, k) == 0
  {
    if k > 0 {
      NothingCounted(lib, inputs, k - 1);
      CountedWitness(lib, inputs[k - 1]);
      assert inputs[k - 1] in inputs;
    }
  }

  lemma WithoutWitness(lib: Library, psbt: Psbt)
    requires MaxWeightOf(lib, psbt).Some? && IsFinalized(psbt) && !HasWitness(Extracted(psbt))
    ensures MaxWeightOf(lib, psbt).value == Weight(psbt.tx)
  {
    forall i | i in psbt.inputs ensures FinalWitness(i) == [] {
      var k :| 0 <= k < |psbt.inputs| && psbt.inputs[k] == i;
      assert Extracted(psbt).satisfactions[k] == Satisfaction(i);
    }
    NothingCounted(lib, psbt.inputs, |psbt.inputs|);
  }

  /** Of a finalised Spend `max_weight` does not give the exact weight: it is short of it by the two marker bytes and,
      for every input, the item count, the length prefixes and any scriptSig. Only with no witness at all does it count
      everything but the scriptSigs. */
  lemma FinalWeightIsShort(lib: Library, psbt: Psbt)
    requires IsFinalized(psbt) && MaxWeightOf(lib, psbt).Some?
    ensures var exact, m := BroadcastWeight(Extracted(psbt)), MaxWeightOf(lib, psbt).value;
            if HasWitness(Extracted(psbt))
            then exact == m + 2 + SumBy(Uncounted, psbt.inputs) && exact >= m + 2 + |psbt.inputs|
            else exact == m + SumBy(ScriptSigWeight, Extracted(psbt).satisfactions)
  {
    if HasWitness(Extracted(psbt)) {
      InputsSplit(lib, psbt.inputs, |psbt.inputs|);
    } else {
      WithoutWitness(lib, psbt);
    }
  }

  /** The `max_weight` of the Unvault is that of the Spend on one input. */
  lemma OneInputMaxWeight(lib: Library, psbt: Psbt)
    requires |psbt.inputs| == 1
    ensures UnvaultMaxWeight(lib, psbt) == MaxWeightOf(lib, psbt)
  {
    assert psbt.inputs == [psbt.inputs[0]];
    assert psbt.inputs[0] in psbt.inputs;
    SingleSum(InputWeightOrZero(lib, IsFinalized(psbt)), psbt.inputs[0]);
  }

  /** So neither is it exact for a finalised Unvault. */
  lemma FinalUnvaultIsShort(lib: Library, psbt: Psbt)
    requires |psbt.inputs| == 1 && IsFinalized(psbt) && UnvaultMaxWeight(lib, psbt).Some?
    requires FinalWitness(psbt.inputs[0]) != []
    ensures BroadcastWeight(Extracted(psbt)) == UnvaultMaxWeight(lib, psbt).value + 2 + Uncounted(psbt.inputs[0])
    ensures BroadcastWeight(Extracted(psbt)) >= UnvaultMaxWeight(lib, psbt).value + 3 + |FinalWitness(psbt.inputs[0])|
  {
    OneInputMaxWeight(lib, psbt);
    FinalWeightIsShort(lib, psbt);
    assert Extracted(psbt).satisfactions[0] == Satisfaction(psbt.inputs[0]);
    InputSplit(psbt.inputs[0]);
    assert psbt.inputs == [psbt.inputs[0]];
    SingleSum(Uncounted, psbt.inputs[0]);
  }
}
