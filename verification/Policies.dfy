/** Spending policies: what they allow, lifting to semantic policies, and normalising those. */
module Policies {
  import opened Sums

  type Key = nat

  /** A concrete policy; conjunctions and disjunctions are binary, a disjunction weighs its branches. */
  datatype Policy =
    | PKey(key: Key)
    | POlder(age: nat)
    | PAnd(left: Policy, right: Policy)
    | POr(leftOdds: nat, left: Policy, rightOdds: nat, right: Policy)
    | PThreshold(k: nat, subs: seq<Policy>)

  /** A semantic policy, as lifted from a Miniscript. */
  datatype Semantic =
    | Trivial
    | Unsatisfiable
    | KeyOf(key: Key)
    | OlderThan(age: nat)
    | Thresh(k: nat, subs: seq<Semantic>)

  // ----- meaning

  /** A policy holds of the keys that sign and of the age of the coin. */
  predicate Allows(p: Policy, keys: set<Key>, age: nat)
    decreases p, 0
  {
    match p
    case PKey(key) => key in keys
    case POlder(n) => age >= n
    case PAnd(l, r) => Allows(l, keys, age) && Allows(r, keys, age)
    case POr(_, l, _, r) => Allows(l, keys, age) || Allows(r, keys, age)
    case PThreshold(k, subs) => AllowedTo(subs, |subs|, keys, age) >= k
  }

  function AllowedTo(subs: seq<Policy>, n: nat, keys: set<Key>, age: nat): nat
    requires n <= |subs|
    decreases subs, n
  {
    if n == 0 then 0 else AllowedTo(subs, n - 1, keys, age) + (if Allows(subs[n - 1], keys, age) then 1 else 0)
  }

  predicate Holds(p: Semantic, keys: set<Key>, age: nat)
    decreases p, 0
  {
    match p
    case Trivial => true
    case Unsatisfiable => false
    case KeyOf(key) => key in keys
    case OlderThan(n) => age >= n
    case Thresh(k, subs) => HoldingTo(subs, |subs|, keys, age) >= k
  }

  function HoldingTo(subs: seq<Semantic>, n: nat, keys: set<Key>, age: nat): nat
    requires n <= |subs|
    decreases subs, n
  {
    if n == 0 then 0 else HoldingTo(subs, n - 1, keys, age) + (if Holds(subs[n - 1], keys, age) then 1 else 0)
  }

  function Holding(keys: set<Key>, age: nat): Semantic -> nat {
    p => if Holds(p, keys, age) then 1 else 0
  }

  lemma {:induction false} HoldingIsSum(subs: seq<Semantic>, n: nat, keys: set<Key>, age: nat)
    requires n <= |subs|
    ensures HoldingTo(subs, n, keys, age) == SumTo(Holding(keys, age), subs, n)
  {
    if n > 0 {
      HoldingIsSum(subs, n - 1, keys, age);
    }
  }

  /** A threshold holds when enough of its children do. */
  lemma ThreshHolds(k: nat, subs: seq<Semantic>, keys: set<Key>, age: nat)
    ensures Holds(Thresh(k, subs), keys, age) <==> SumBy(Holding(keys, age), subs) >= k
  {
    HoldingIsSum(subs, |subs|, keys, age);
  }

  // ----- lifting and normalising

  function Lift(p: Policy): Semantic
    decreases p, 0
  {
    match p
    case PKey(key) => KeyOf(key)
    case POlder(n) => OlderThan(n)
    case PAnd(l, r) => Thresh(2, [Lift(l), Lift(r)])
    case POr(_, l, _, r) => Thresh(1, [Lift(l), Lift(r)])
    case PThreshold(k, subs) => Thresh(k, LiftTo(subs, |subs|))
  }

  function LiftTo(subs: seq<Policy>, n: nat): (r: seq<Semantic>)
    requires n <= |subs|
    ensures |r| == n
    decreases subs, n
  {
    if n == 0 then [] else LiftTo(subs, n - 1) + [Lift(subs[n - 1])]
  }

  lemma {:induction false} LiftKeepsMeaning(p: Policy, keys: set<Key>, age: nat)
    ensures Holds(Lift(p), keys, age) <==> Allows(p, keys, age)
    decreases p, 0
  {
    match p
    case PKey(_) =>
    case POlder(_) =>
    case PAnd(l, r) =>
      LiftKeepsMeaning(l, keys, age);
      LiftKeepsMeaning(r, keys, age);
      PairSum(Holding(keys, age), Lift(l), Lift(r));
      ThreshHolds(2, [Lift(l), Lift(r)], keys, age);
    case POr(_, l, _, r) =>
      LiftKeepsMeaning(l, keys, age);
      LiftKeepsMeaning(r, keys, age);
      PairSum(Holding(keys, age), Lift(l), Lift(r));
      ThreshHolds(1, [Lift(l), Lift(r)], keys, age);
    case PThreshold(k, subs) =>
      LiftKeepsCount(subs, |subs|, keys, age);
      ThreshHolds(k, LiftTo(subs, |subs|), keys, age);
  }

  lemma {:induction false} LiftKeepsCount(subs: seq<Policy>, n: nat, keys: set<Key>, age: nat)
    requires n <= |subs|
    ensures SumBy(Holding(keys, age), LiftTo(subs, n)) == AllowedTo(subs, n, keys, age)
    decreases subs, n
  {
    if n > 0 {
      LiftKeepsCount(subs, n - 1, keys, age);
      LiftKeepsMeaning(subs[n - 1], keys, age);
      SumBySnoc(Holding(keys, age), LiftTo(subs, n - 1), Lift(subs[n - 1]));
    }
  }

  function IsTrivial(p: Semantic): nat { if p == Trivial then 1 else 0 }

  function IsUnsatisfiable(p: Semantic): nat { if p == Unsatisfiable then 1 else 0 }

  /** Trees of ands and ors are flattened, and children that are always or never satisfied eliminated. */
  function Normalize(p: Semantic): Semantic
    decreases p, 0
  {
    match p
    case Thresh(k, subs) => Simplify(k, NormalizeTo(subs, |subs|))
    case _ => p
  }

  function NormalizeTo(subs: seq<Semantic>, n: nat): (r: seq<Semantic>)
    requires n <= |subs|
    ensures |r| == n
    decreases subs, n
  {
    if n == 0 then [] else NormalizeTo(subs, n - 1) + [Normalize(subs[n - 1])]
  }

  /** A threshold over normalised children. */
  function Simplify(k: nat, subs: seq<Semantic>): Semantic {
    var trivial, unsatisfiable := SumBy(IsTrivial, subs), SumBy(IsUnsatisfiable, subs);
    var n := |subs| - unsatisfiable - trivial;
    var m := if k > trivial then k - trivial else 0;
    var kept := FlattenTo(subs, |subs|, m == n, m == 1);
    if m == 0 then Trivial
    else if m > |kept| then Unsatisfiable
    else if |kept| == 1 then kept[0]
    else if m == n then Thresh(|kept|, kept)
    else if m == 1 then Thresh(1, kept)
    else Thresh(m, kept)
  }

  /** What a child leaves in its parent: its own children when both are ands, or both ors. */
  function Kept(p: Semantic, isAnd: bool, isOr: bool): seq<Semantic> {
    match p
    case Trivial => []
    case Unsatisfiable => []
    case Thresh(k, subs) =>
      if isOr && isAnd then [p]
      else if isOr && k == 1 then subs
      else if isAnd && k == |subs| then subs
      else [p]
    case _ => [p]
  }

  function FlattenTo(subs: seq<Semantic>, n: nat, isAnd: bool, isOr: bool): seq<Semantic>
    requires n <= |subs|
  {
    if n == 0 then [] else FlattenTo(subs, n - 1, isAnd, isOr) + Kept(subs[n - 1], isAnd, isOr)
  }

  // ----- normalising keeps the meaning

  /** A normalised threshold has at least two children and a proper count. */
  predicate Proper(p: Semantic) { p.Thresh? ==> 1 <= p.k <= |p.subs| && 2 <= |p.subs| }

  function IsOther(p: Semantic): nat { if p == Trivial || p == Unsatisfiable then 0 else 1 }

  function HoldingOther(keys: set<Key>, age: nat): Semantic -> nat {
    p => if p != Trivial && Holds(p, keys, age) then 1 else 0
  }

  lemma {:induction false} Census(subs: seq<Semantic>, n: nat, keys: set<Key>, age: nat)
    requires n <= |subs|
    ensures SumTo(IsTrivial, subs, n) + SumTo(IsUnsatisfiable, subs, n) + SumTo(IsOther, subs, n) == n
    ensures SumTo(Holding(keys, age), subs, n) == SumTo(IsTrivial, subs, n) + SumTo(HoldingOther(keys, age), subs, n)
    ensures SumTo(HoldingOther(keys, age), subs, n) <= SumTo(IsOther, subs, n)
  {
    if n > 0 {
      Census(subs, n - 1, keys, age);
    }
  }

  lemma KeptCount(p: Semantic, isAnd: bool, isOr: bool, keys: set<Key>, age: nat)
    requires Proper(p)
    ensures var kept, h, o := Kept(p, isAnd, isOr), HoldingOther(keys, age)(p), IsOther(p);
            var count := SumBy(Holding(keys, age), kept);
            && o <= |kept| && count <= |kept|
            && (o == 0 ==> kept == [])
            && (isAnd == isOr ==> |kept| == o && count == h)
            && (isOr ==> (count >= 1 <==> h >= 1))
            && (isAnd ==> (count == |kept| <==> h == o))
  {
    var kept := Kept(p, isAnd, isOr);
    SumByMostly(kept, keys, age);
    if kept == [p] {
      SingleSum(Holding(keys, age), p);
    } else if p.Thresh? {
      ThreshHolds(p.k, p.subs, keys, age);
    }
  }

  lemma SumByMostly(s: seq<Semantic>, keys: set<Key>, age: nat)
    ensures SumBy(Holding(keys, age), s) <= |s|
  {
    SumToMostly(s, |s|, keys, age);
  }

  lemma {:induction false} SumToMostly(s: seq<Semantic>, n: nat, keys: set<Key>, age: nat)
    requires n <= |s|
    ensures SumTo(Holding(keys, age), s, n) <= n
  {
    if n > 0 { SumToMostly(s, n - 1, keys, age); }
  }

  lemma {:induction false} FlattenCount(subs: seq<Semantic>, n: nat, isAnd: bool, isOr: bool, keys: set<Key>, age: nat)
    requires n <= |subs| && forall i | 0 <= i < n :: Proper(subs[i])
    ensures var kept := FlattenTo(subs, n, isAnd, isOr);
            var h, o := SumTo(HoldingOther(keys, age), subs, n), SumTo(IsOther, subs, n);
            var count := SumBy(Holding(keys, age), kept);
            && o <= |kept| && count <= |kept|
            && h <= o
            && (o == 0 ==> kept == [])
            && (isAnd == isOr ==> |kept| == o && count == h)
            && (isOr ==> (count >= 1 <==> h >= 1))
            && (isAnd ==> (count == |kept| <==> h == o))
  {
    if n > 0 {
      FlattenCount(subs, n - 1, isAnd, isOr, keys, age);
      KeptCount(subs[n - 1], isAnd, isOr, keys, age);
      SumByAppend(Holding(keys, age), FlattenTo(subs, n - 1, isAnd, isOr), Kept(subs[n - 1], isAnd, isOr));
    }
  }

  lemma {:induction false} FlattenProper(subs: seq<Semantic>, n: nat, isAnd: bool, isOr: bool)
    requires n <= |subs|
    requires forall i | 0 <= i < n :: Proper(subs[i]) && (subs[i].Thresh? ==> forall s | s in subs[i].subs :: Proper(s))
    ensures forall s | s in FlattenTo(subs, n, isAnd, isOr) :: Proper(s)
  {
    if n > 0 {
      FlattenProper(subs, n - 1, isAnd, isOr);
    }
  }

  /** Children are proper too, one level down. */
  predicate Normal(p: Semantic) { Proper(p) && (p.Thresh? ==> forall s | s in p.subs :: Proper(s)) }

  lemma SimplifyKeepsMeaning(k: nat, subs: seq<Semantic>, keys: set<Key>, age: nat)
    requires forall i | 0 <= i < |subs| :: Normal(subs[i])
    ensures Holds(Simplify(k, subs), keys, age) <==> SumBy(Holding(keys, age), subs) >= k
    ensures Proper(Simplify(k, subs))
  {
    var trivial, unsatisfiable := SumBy(IsTrivial, subs), SumBy(IsUnsatisfiable, subs);
    var n := |subs| - unsatisfiable - trivial;
    var m := if k > trivial then k - trivial else 0;
    var kept := FlattenTo(subs, |subs|, m == n, m == 1);
    Census(subs, |subs|, keys, age);
    FlattenCount(subs, |subs|, m == n, m == 1, keys, age);
    FlattenProper(subs, |subs|, m == n, m == 1);
    if m > 0 && m <= |kept| {
      if |kept| == 1 {
        assert kept == [kept[0]];
        SingleSum(Holding(keys, age), kept[0]);
        assert kept[0] in kept;
      } else {
        ThreshHolds(if m == n then |kept| else m, kept, keys, age);
      }
    }
  }

  lemma SimplifyIsNormal(k: nat, subs: seq<Semantic>)
    requires forall i | 0 <= i < |subs| :: Normal(subs[i])
    ensures Normal(Simplify(k, subs))
  {
    SimplifyKeepsMeaning(k, subs, {}, 0);
    var trivial, unsatisfiable := SumBy(IsTrivial, subs), SumBy(IsUnsatisfiable, subs);
    var n := |subs| - unsatisfiable - trivial;
    var m := if k > trivial then k - trivial else 0;
    var kept := FlattenTo(subs, |subs|, m == n, m == 1);
    FlattenProper(subs, |subs|, m == n, m == 1);
    if |kept| == 1 && m > 0 {
      Census(subs, |subs|, {}, 0);
      FlattenCount(subs, |subs|, m == n, m == 1, {}, 0);
      SoleSurvivor(subs, |subs|, m == n, m == 1);
      assert kept[0] in kept;
    }
  }

  /** When nothing is flattened, what is kept are children. */
  lemma {:induction false} SoleSurvivor(subs: seq<Semantic>, n: nat, isAnd: bool, isOr: bool)
    requires n <= |subs|
    ensures isAnd == isOr ==> forall s | s in FlattenTo(subs, n, isAnd, isOr) :: s in subs
  {
    if n > 0 {
      SoleSurvivor(subs, n - 1, isAnd, isOr);
      assert subs[n - 1] in subs;
    }
  }

  /** Normalisation keeps the meaning of every policy, not only of those this library builds. */
  lemma {:induction false} NormalizeKeepsMeaning(p: Semantic, keys: set<Key>, age: nat)
    ensures Holds(Normalize(p), keys, age) <==> Holds(p, keys, age)
    ensures Normal(Normalize(p))
    decreases p, 0
  {
    if p.Thresh? {
      NormalizeKeepsCount(p.subs, |p.subs|, keys, age);
      SimplifyKeepsMeaning(p.k, NormalizeTo(p.subs, |p.subs|), keys, age);
      SimplifyIsNormal(p.k, NormalizeTo(p.subs, |p.subs|));
    }
  }

  lemma {:induction false} NormalizeKeepsCount(subs: seq<Semantic>, n: nat, keys: set<Key>, age: nat)
    requires n <= |subs|
    ensures SumBy(Holding(keys, age), NormalizeTo(subs, n)) == HoldingTo(subs, n, keys, age)
    ensures forall i | 0 <= i < n :: Normal(NormalizeTo(subs, n)[i])
    decreases subs, n
  {
    if n > 0 {
      NormalizeKeepsCount(subs, n - 1, keys, age);
      NormalizeKeepsMeaning(subs[n - 1], keys, age);
      SumBySnoc(Holding(keys, age), NormalizeTo(subs, n - 1), Normalize(subs[n - 1]));
    }
  }
}
