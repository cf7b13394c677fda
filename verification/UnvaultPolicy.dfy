/** The policy of the Unvault output: what it allows, its normal form, and reading the managers' threshold
    back from whatever script the policy was compiled to. */
module UnvaultPolicy {
  import opened Wrappers
  import opened Sums
  import opened Policies

  datatype ScriptCreationError = BadParameters

  const SEQUENCE_LOCKTIME_DISABLE_FLAG: bv32 := 0x8000_0000
  const SEQUENCE_LOCKTIME_TYPE_FLAG: bv32 := 0x0040_0000
  const SEQUENCE_LOCKTIME_MASK: bv32 := 0xffff

  /** What an Unvault descriptor is made of. */
  datatype Parameters = Parameters(
    stakeholders: seq<Key>, managers: seq<Key>, threshold: nat, cosigners: seq<Key>, csv: bv32)

  // ----- building the policy

  function UnvaultDescChecks(p: Parameters): (r: Result<(), ScriptCreationError>)
    ensures r.Ok? <==>
      && p.stakeholders != [] && p.managers != [] && p.threshold <= |p.managers|
      && (p.cosigners == [] || |p.cosigners| == |p.stakeholders|)
      && p.csv <= 0xffff
  {
    CleanLocktime(p.csv);
    if p.stakeholders == [] || p.managers == [] || (p.cosigners != [] && |p.cosigners| != |p.stakeholders|) then
      Err(BadParameters)
    else if p.threshold > |p.managers| then
      Err(BadParameters)
    else if !IsCleanLocktime(p.csv) then
      Err(BadParameters)
    else
      Ok(())
  }

  predicate IsCleanLocktime(csv: bv32) {
    && csv & SEQUENCE_LOCKTIME_DISABLE_FLAG == 0
    && csv & SEQUENCE_LOCKTIME_TYPE_FLAG == 0
    && csv & SEQUENCE_LOCKTIME_MASK == csv
  }

  /** The three tests on the locktime together accept exactly the 16-bit numbers of blocks. */
  lemma CleanLocktime(csv: bv32)
    ensures IsCleanLocktime(csv) <==> csv <= 0xffff
  {
    MaskTest(csv);
    if csv <= 0xffff {
      FlagTests(csv);
    }
  }

  lemma MaskTest(x: bv32)
    ensures x & 0xffff == x <==> x <= 0xffff
  {
  }

  lemma FlagTests(x: bv32)
    requires x <= 0xffff
    ensures x & 0x8000_0000 == 0 && x & 0x40_0000 == 0
  {
  }

  function KeyPolicies(keys: seq<Key>): (r: seq<Policy>)
    ensures |r| == |keys| && forall i | 0 <= i < |keys| :: r[i] == PKey(keys[i])
  {
    seq(|keys|, i requires 0 <= i < |keys| => PKey(keys[i]))
  }

  /** What the managers' path asks for beside the managers. */
  function CosignersAndCsv(p: Parameters): Policy {
    var older := POlder(p.csv as nat);
    if p.cosigners == [] then older else PAnd(PThreshold(|p.cosigners|, KeyPolicies(p.cosigners)), older)
  }

  /** Nine chances in ten for the managers to spend. */
  function UnvaultTree(p: Parameters): Policy {
    var spenders := PThreshold(p.threshold, KeyPolicies(p.managers));
    POr(1, PThreshold(|p.stakeholders|, KeyPolicies(p.stakeholders)), 9, PAnd(spenders, CosignersAndCsv(p)))
  }

  // ----- what the policy allows

  function Signs(signers: set<Key>): Key -> nat {
    key => if key in signers then 1 else 0
  }

  /** How many of the keys sign; a key listed twice counts twice, as it does in a script. */
  function Signing(keys: seq<Key>, signers: set<Key>): nat { SumBy(Signs(signers), keys) }

  /** All stakeholders sign, or enough managers and all cosigning servers once the coin is old enough. */
  ghost predicate MaySpend(p: Parameters, signers: set<Key>, age: nat) {
    || (forall key | key in p.stakeholders :: key in signers)
    || (&& Signing(p.managers, signers) >= p.threshold
        && (forall key | key in p.cosigners :: key in signers)
        && age >= p.csv as nat)
  }

  lemma {:induction false} KeyPoliciesCount(keys: seq<Key>, n: nat, signers: set<Key>, age: nat)
    requires n <= |keys|
    ensures AllowedTo(KeyPolicies(keys), n, signers, age) == SumTo(Signs(signers), keys, n)
  {
    if n > 0 {
      KeyPoliciesCount(keys, n - 1, signers, age);
    }
  }

  lemma {:induction false} AllSign(keys: seq<Key>, n: nat, signers: set<Key>)
    requires n <= |keys|
    ensures SumTo(Signs(signers), keys, n) <= n
    ensures SumTo(Signs(signers), keys, n) == n <==> forall i | 0 <= i < n :: keys[i] in signers
  {
    if n > 0 {
      AllSign(keys, n - 1, signers);
    }
  }

  /** An n-of-n threshold asks for every key. */
  lemma AllOf(keys: seq<Key>, signers: set<Key>, age: nat)
    ensures Allows(PThreshold(|keys|, KeyPolicies(keys)), signers, age) <==> forall key | key in keys :: key in signers
  {
    KeyPoliciesCount(keys, |keys|, signers, age);
    AllSign(keys, |keys|, signers);
    assert (forall key | key in keys :: key in signers) <==> forall i | 0 <= i < |keys| :: keys[i] in signers;
  }

  lemma SpendersMeaning(p: Parameters, signers: set<Key>, age: nat)
    ensures Allows(PThreshold(p.threshold, KeyPolicies(p.managers)), signers, age) <==>
            Signing(p.managers, signers) >= p.threshold
  {
    KeyPoliciesCount(p.managers, |p.managers|, signers, age);
  }

  lemma RestMeaning(p: Parameters, signers: set<Key>, age: nat)
    ensures Allows(CosignersAndCsv(p), signers, age) <==>
            (forall key | key in p.cosigners :: key in signers) && age >= p.csv as nat
  {
    if p.cosigners != [] {
      var cosigners := PThreshold(|p.cosigners|, KeyPolicies(p.cosigners));
      AllOf(p.cosigners, signers, age);
      AndMeaning(cosigners, POlder(p.csv as nat), signers, age);
    }
  }

  lemma AndMeaning(left: Policy, right: Policy, signers: set<Key>, age: nat)
    ensures Allows(PAnd(left, right), signers, age) <==> Allows(left, signers, age) && Allows(right, signers, age)
  {
  }

  lemma OrMeaning(left: Policy, right: Policy, m: nat, n: nat, signers: set<Key>, age: nat)
    ensures Allows(POr(m, left, n, right), signers, age) <==> Allows(left, signers, age) || Allows(right, signers, age)
  {
  }

  lemma TreeMeaning(p: Parameters, signers: set<Key>, age: nat)
    ensures Allows(UnvaultTree(p), signers, age) <==> MaySpend(p, signers, age)
    ensures UnvaultTree(p).POr? && UnvaultTree(p).leftOdds == 1 && UnvaultTree(p).rightOdds == 9
  {
    var stakeholders := PThreshold(|p.stakeholders|, KeyPolicies(p.stakeholders));
    var spenders := PThreshold(p.threshold, KeyPolicies(p.managers));
    AllOf(p.stakeholders, signers, age);
    SpendersMeaning(p, signers, age);
    RestMeaning(p, signers, age);
    AndMeaning(spenders, CosignersAndCsv(p), signers, age);
    OrMeaning(stakeholders, PAnd(spenders, CosignersAndCsv(p)), 1, 9, signers, age);
  }

  /** So does every script whose lifted policy normalises to that of the tree. */
  lemma NormalTreeMeaning(p: Parameters, signers: set<Key>, age: nat)
    ensures Holds(Normalize(Lift(UnvaultTree(p))), signers, age) <==> MaySpend(p, signers, age)
  {
    TreeMeaning(p, signers, age);
    LiftKeepsMeaning(UnvaultTree(p), signers, age);
    NormalizeKeepsMeaning(Lift(UnvaultTree(p)), signers, age);
  }

  /** Among distinct keys, the ones that sign are counted once each. */
  lemma {:induction false} SigningCountsKeys(keys: seq<Key>, signers: set<Key>)
    requires NoDuplicates(keys)
    ensures Signing(keys, signers) == |Elements(keys) * signers|
  {
    if keys == [] {
      assert Elements(keys) * signers == {};
    } else {
      var init, last := keys[..|keys| - 1], keys[|keys| - 1];
      SigningCountsKeys(init, signers);
      SumBySnoc(Signs(signers), init, last);
      assert keys == init + [last];
      assert Elements(keys) * signers == Elements(init) * signers + (if last in signers then {last} else {});
    }
  }

  // ----- the normal form

  function Leaves(keys: seq<Key>): (r: seq<Semantic>)
    ensures |r| == |keys| && forall i | 0 <= i < |keys| :: r[i] == KeyOf(keys[i])
  {
    seq(|keys|, i requires 0 <= i < |keys| => KeyOf(keys[i]))
  }

  /** A threshold of keys is a lone key when there is but one. */
  function KeysBranch(k: nat, keys: seq<Key>): Semantic {
    if |keys| == 1 then KeyOf(keys[0]) else Thresh(k, Leaves(keys))
  }

  /** The managers are flattened into the conjunction when all of them must sign. */
  function ManagerParts(p: Parameters): seq<Semantic> {
    if p.threshold == |p.managers| then Leaves(p.managers) else [Thresh(p.threshold, Leaves(p.managers))]
  }

  function ManagersBranch(p: Parameters): Semantic {
    var parts := ManagerParts(p) + (Leaves(p.cosigners) + [OlderThan(p.csv as nat)]);
    Thresh(|parts|, parts)
  }

  function NormalForm(p: Parameters): Semantic {
    Thresh(1, [KeysBranch(|p.stakeholders|, p.stakeholders), ManagersBranch(p)])
  }

  ghost predicate Plain(p: Semantic) { p != Trivial && p != Unsatisfiable }

  /** Without trivial or impossible children, a threshold only flattens. */
  lemma SimplifyPlain(k: nat, subs: seq<Semantic>)
    requires forall s | s in subs :: Plain(s)
    requires 1 <= k <= |subs|
    ensures var kept := FlattenTo(subs, |subs|, k == |subs|, k == 1);
            |kept| >= |subs| ==>
              Simplify(k, subs) == if |kept| == 1 then kept[0] else Thresh(if k == |subs| then |kept| else k, kept)
  {
    SumByConstant(IsTrivial, subs, 0);
    SumByConstant(IsUnsatisfiable, subs, 0);
  }

  lemma {:induction false} FlattenLeaves(keys: seq<Key>, n: nat, isAnd: bool, isOr: bool)
    requires n <= |keys|
    ensures FlattenTo(Leaves(keys), n, isAnd, isOr) == Leaves(keys)[..n]
  {
    if n > 0 {
      FlattenLeaves(keys, n - 1, isAnd, isOr);
    }
  }

  lemma {:induction false} LeavesOfPolicies(keys: seq<Key>, n: nat)
    requires n <= |keys|
    ensures LiftTo(KeyPolicies(keys), n) == Leaves(keys)[..n]
    ensures NormalizeTo(Leaves(keys), n) == Leaves(keys)[..n]
  {
    if n > 0 {
      LeavesOfPolicies(keys, n - 1);
    }
  }

  lemma NormalKeys(k: nat, keys: seq<Key>)
    requires 1 <= k <= |keys|
    ensures Normalize(Lift(PThreshold(k, KeyPolicies(keys)))) == KeysBranch(k, keys)
  {
    var leaves, n := Leaves(keys), |keys|;
    LeavesOfPolicies(keys, n);
    assert leaves[..n] == leaves;
    FlattenLeaves(keys, n, k == n, k == 1);
    SimplifyPlain(k, leaves);
  }

  /** The conjunction of two normalised, satisfiable policies. */
  lemma NormalAnd(a: Policy, b: Policy)
    requires Plain(Normalize(Lift(a))) && Plain(Normalize(Lift(b)))
    requires AndParts(Normalize(Lift(a))) != [] && AndParts(Normalize(Lift(b))) != []
    ensures var parts := AndParts(Normalize(Lift(a))) + AndParts(Normalize(Lift(b)));
            Normalize(Lift(PAnd(a, b))) == Thresh(|parts|, parts)
  {
    var x, y := Normalize(Lift(a)), Normalize(Lift(b));
    NormalPair(Lift(a), Lift(b));
    SimplifyPlain(2, [x, y]);
    FlattenPair(x, y, true, false);
  }

  function AndParts(p: Semantic): seq<Semantic> { Kept(p, true, false) }

  lemma NormalPair(a: Semantic, b: Semantic)
    ensures NormalizeTo([a, b], 2) == [Normalize(a), Normalize(b)]
  {
    assert NormalizeTo([a, b], 1) == NormalizeTo([a, b], 0) + [Normalize(a)];
    assert NormalizeTo([a, b], 2) == NormalizeTo([a, b], 1) + [Normalize(b)];
  }

  lemma FlattenPair(x: Semantic, y: Semantic, isAnd: bool, isOr: bool)
    ensures FlattenTo([x, y], 2, isAnd, isOr) == Kept(x, isAnd, isOr) + Kept(y, isAnd, isOr)
  {
    assert FlattenTo([x, y], 1, isAnd, isOr) == FlattenTo([x, y], 0, isAnd, isOr) + Kept(x, isAnd, isOr);
    assert FlattenTo([x, y], 2, isAnd, isOr) == FlattenTo([x, y], 1, isAnd, isOr) + Kept(y, isAnd, isOr);
  }

  lemma NormalRest(p: Parameters)
    ensures Plain(Normalize(Lift(CosignersAndCsv(p))))
    ensures AndParts(Normalize(Lift(CosignersAndCsv(p)))) == Leaves(p.cosigners) + [OlderThan(p.csv as nat)]
  {
    if p.cosigners != [] {
      NormalKeys(|p.cosigners|, p.cosigners);
      AndPartsOfKeys(|p.cosigners|, p.cosigners);
      NormalAnd(PThreshold(|p.cosigners|, KeyPolicies(p.cosigners)), POlder(p.csv as nat));
    }
  }

  lemma NormalManagers(p: Parameters)
    requires UnvaultDescChecks(p).Ok? && p.threshold >= 1
    ensures Normalize(Lift(PAnd(PThreshold(p.threshold, KeyPolicies(p.managers)), CosignersAndCsv(p)))) ==
            ManagersBranch(p)
  {
    NormalKeys(p.threshold, p.managers);
    AndPartsOfKeys(p.threshold, p.managers);
    NormalRest(p);
    NormalAnd(PThreshold(p.threshold, KeyPolicies(p.managers)), CosignersAndCsv(p));
  }

  lemma AndPartsOfKeys(k: nat, keys: seq<Key>)
    requires 1 <= k <= |keys|
    ensures AndParts(KeysBranch(k, keys)) == if k == |keys| then Leaves(keys) else [Thresh(k, Leaves(keys))]
  {
    if |keys| == 1 {
      assert Leaves(keys) == [KeyOf(keys[0])];
    }
  }

  /** The tree of every accepted parameter set has that normal form. */
  lemma NormalTree(p: Parameters)
    requires UnvaultDescChecks(p).Ok? && p.threshold >= 1
    ensures Normalize(Lift(UnvaultTree(p))) == NormalForm(p)
  {
    var stakeholders, managers := KeysBranch(|p.stakeholders|, p.stakeholders), ManagersBranch(p);
    NormalManagers(p);
    NormalKeys(|p.stakeholders|, p.stakeholders);
    NormalPair(Lift(UnvaultTree(p).left), Lift(UnvaultTree(p).right));
    SimplifyPlain(1, [stakeholders, managers]);
    FlattenPair(stakeholders, managers, false, true);
  }

  // ----- up to the order of children

  ghost predicate Inverse(there: seq<nat>, back: seq<nat>, n: nat) {
    && |there| == n && |back| == n
    && (forall i | 0 <= i < n :: there[i] < n && back[there[i]] == i)
    && (forall i | 0 <= i < n :: back[i] < n && there[back[i]] == i)
  }

  /** The same policy, children of any threshold in any order. */
  ghost predicate Same(p: Semantic, q: Semantic)
    decreases p
  {
    if p.Thresh? && q.Thresh? then
      && p.k == q.k && |p.subs| == |q.subs|
      && exists there, back | Inverse(there, back, |p.subs|) ::
           forall i | 0 <= i < |p.subs| :: Same(p.subs[i], q.subs[there[i]])
    else
      p == q
  }

  // ----- reading the threshold

  function FirstThreshold(subs: seq<Semantic>): Option<nat> {
    if subs == [] then None
    else if subs[0].Thresh? then Some(subs[0].k)
    else FirstThreshold(subs[1..])
  }

  predicate IsManagersBranch(p: Semantic) {
    p.Thresh? && p.k == |p.subs| && exists i | 0 <= i < |p.subs| :: p.subs[i].OlderThan?
  }

  /** The loop over the branches of the root; running off its end is a panic. */
  function FromBranches(subs: seq<Semantic>): Outcome<Option<nat>, ()> {
    if subs == [] then Panics
    else if IsManagersBranch(subs[0]) then Done(FirstThreshold(subs[0].subs))
    else FromBranches(subs[1..])
  }

  /** Reads the normalised lifted policy of a script. */
  function ManagersThreshold(policy: Semantic): Outcome<Option<nat>, ()> {
    if policy.Thresh? && policy.k == 1 then
      if |policy.subs| != 2 then Panics else FromBranches(policy.subs)
    else
      Panics
  }

  lemma {:induction false} FirstThresholdFinds(subs: seq<Semantic>, j: nat)
    requires j < |subs| && subs[j].Thresh? && forall i | 0 <= i < j :: !subs[i].Thresh?
    ensures FirstThreshold(subs) == Some(subs[j].k)
  {
    if j > 0 {
      FirstThresholdFinds(subs[1..], j - 1);
    }
  }

  lemma {:induction false} FirstThresholdMisses(subs: seq<Semantic>)
    requires forall i | 0 <= i < |subs| :: !subs[i].Thresh?
    ensures FirstThreshold(subs) == None
  {
    if subs != [] {
      FirstThresholdMisses(subs[1..]);
    }
  }

  /** What two reordered policies have in common at the top. */
  predicate Alike(p: Semantic, q: Semantic) {
    if p.Thresh? && q.Thresh? then p.k == q.k && |p.subs| == |q.subs| else p == q
  }

  lemma SameChildren(p: Semantic, q: Semantic) returns (there: seq<nat>, back: seq<nat>)
    requires p.Thresh? && Same(p, q)
    ensures Alike(p, q)
    ensures Inverse(there, back, |p.subs|)
    ensures forall i | 0 <= i < |p.subs| :: Same(p.subs[i], q.subs[there[i]]) && Alike(p.subs[i], q.subs[there[i]])
    ensures forall j | 0 <= j < |p.subs| :: Alike(p.subs[back[j]], q.subs[j])
  {
    there, back :| Inverse(there, back, |p.subs|) && forall i | 0 <= i < |p.subs| :: Same(p.subs[i], q.subs[there[i]]);
    forall j | 0 <= j < |p.subs| ensures Alike(p.subs[back[j]], q.subs[j]) {
      assert Same(p.subs[back[j]], q.subs[there[back[j]]]);
    }
  }

  lemma KeysBranchIsNotManagers(k: nat, keys: seq<Key>, q: Semantic)
    requires Same(KeysBranch(k, keys), q)
    ensures !IsManagersBranch(q)
  {
    if |keys| != 1 {
      var there, back := SameChildren(KeysBranch(k, keys), q);
      forall j | 0 <= j < |q.subs| ensures q.subs[j].KeyOf? {
        assert Alike(Leaves(keys)[back[j]], q.subs[j]);
      }
    }
  }

  /** The threshold, if any, is the first of the parts, and the timelock the last. */
  lemma PartsOfManagers(p: Parameters)
    requires UnvaultDescChecks(p).Ok?
    ensures var parts := ManagersBranch(p).subs;
            && parts != [] && parts[|parts| - 1].OlderThan?
            && (p.threshold < |p.managers| ==> parts[0].Thresh? && parts[0].k == p.threshold)
            && forall i | 0 <= i < |parts| :: parts[i].Thresh? ==> i == 0 && p.threshold < |p.managers|
  {
  }

  lemma ReadsManagers(p: Parameters, q: Semantic)
    requires UnvaultDescChecks(p).Ok?
    requires Same(ManagersBranch(p), q)
    ensures IsManagersBranch(q)
    ensures FirstThreshold(q.subs) == if p.threshold < |p.managers| then Some(p.threshold) else None
  {
    var parts := ManagersBranch(p).subs;
    var there, back := SameChildren(ManagersBranch(p), q);
    PartsOfManagers(p);
    assert Alike(parts[|parts| - 1], q.subs[there[|parts| - 1]]);
    if p.threshold < |p.managers| {
      ReadsThreshold(parts, q.subs, there, back);
    } else {
      ReadsNothing(parts, q.subs, back);
    }
  }

  lemma ReadsThreshold(parts: seq<Semantic>, subs: seq<Semantic>, there: seq<nat>, back: seq<nat>)
    requires parts != [] && |subs| == |parts| && Inverse(there, back, |parts|)
    requires parts[0].Thresh? && Alike(parts[0], subs[there[0]])
    requires forall i | 0 < i < |parts| :: !parts[i].Thresh?
    requires forall j | 0 <= j < |parts| :: Alike(parts[back[j]], subs[j])
    ensures FirstThreshold(subs) == Some(parts[0].k)
  {
    forall j | 0 <= j < |subs| && j != there[0] ensures !subs[j].Thresh? {
      assert there[back[j]] == j;
      assert Alike(parts[back[j]], subs[j]);
    }
    FirstThresholdFinds(subs, there[0]);
  }

  lemma ReadsNothing(parts: seq<Semantic>, subs: seq<Semantic>, back: seq<nat>)
    requires |subs| == |parts| == |back| && forall i | 0 <= i < |parts| :: !parts[i].Thresh?
    requires forall j | 0 <= j < |parts| :: back[j] < |parts| && Alike(parts[back[j]], subs[j])
    ensures FirstThreshold(subs) == None
  {
    FirstThresholdMisses(subs);
  }

  lemma PairReads(subs: seq<Semantic>, i: nat, j: nat)
    requires |subs| == 2 && i < 2 && j < 2 && i != j
    requires !IsManagersBranch(subs[i]) && IsManagersBranch(subs[j])
    ensures FromBranches(subs) == Done(FirstThreshold(subs[j].subs))
  {
    if j == 1 {
      assert FromBranches(subs) == FromBranches(subs[1..]);
      assert subs[1..][0] == subs[1];
    }
  }

  lemma ReadsBranches(root: Semantic, script: Semantic) returns (i: nat, j: nat)
    requires root.Thresh? && |root.subs| == 2 && Same(root, script)
    ensures script.Thresh? && script.k == root.k && |script.subs| == 2
    ensures i < 2 && j < 2 && i != j
    ensures Same(root.subs[0], script.subs[i]) && Same(root.subs[1], script.subs[j])
  {
    var there, back := SameChildren(root, script);
    i, j := there[0], there[1];
    InverseOfPair(there, back);
  }

  lemma InverseOfPair(there: seq<nat>, back: seq<nat>)
    requires Inverse(there, back, 2)
    ensures there[0] < 2 && there[1] < 2 && there[0] != there[1]
  {
    assert back[there[0]] == 0 && back[there[1]] == 1;
  }

  /** Whatever order the compiler leaves the children in, the reader finds the threshold, says nothing when
      all managers must sign, and reaches none of its assertions. */
  lemma ReaderFindsThreshold(p: Parameters, script: Semantic)
    requires UnvaultDescChecks(p).Ok? && p.threshold >= 1
    requires Same(Normalize(Lift(UnvaultTree(p))), script)
    ensures ManagersThreshold(script) == Done(if p.threshold < |p.managers| then Some(p.threshold) else None)
  {
    NormalTree(p);
    var i, j := ReadsBranches(NormalForm(p), script);
    KeysBranchIsNotManagers(|p.stakeholders|, p.stakeholders, script.subs[i]);
    ReadsManagers(p, script.subs[j]);
    PairReads(script.subs, i, j);
  }

  /** The first managers' branch decides. */
  lemma {:induction false} FromBranchesFinds(subs: seq<Semantic>, k: nat)
    requires k < |subs| && IsManagersBranch(subs[k]) && forall j | 0 <= j < k :: !IsManagersBranch(subs[j])
    ensures FromBranches(subs) == Done(FirstThreshold(subs[k].subs))
  {
    if k > 0 {
      FromBranchesFinds(subs[1..], k - 1);
    }
  }

  lemma {:induction false} FromBranchesMisses(subs: seq<Semantic>)
    requires forall k | 0 <= k < |subs| :: !IsManagersBranch(subs[k])
    ensures FromBranches(subs) == Panics
  {
    if subs != [] {
      FromBranchesMisses(subs[1..]);
    }
  }

  /** A conjunction with a timelock among its parts. */
  ghost predicate HasTimelock(p: Semantic) { p.Thresh? && p.k == |p.subs| && exists s | s in p.subs :: s.OlderThan? }

  /** On any policy at all the reader panics exactly when it is not a choice between two branches one of which is a
      conjunction with a timelock. */
  lemma ReaderPanics(policy: Semantic)
    ensures ManagersThreshold(policy).Done? <==>
            && policy.Thresh? && policy.k == 1 && |policy.subs| == 2
            && (HasTimelock(policy.subs[0]) || HasTimelock(policy.subs[1]))
    ensures !ManagersThreshold(policy).Fails?
  {
    if policy.Thresh? && |policy.subs| == 2 {
      TimelockIs(policy.subs[0]);
      TimelockIs(policy.subs[1]);
      if HasTimelock(policy.subs[0]) {
        FromBranchesFinds(policy.subs, 0);
      } else if HasTimelock(policy.subs[1]) {
        FromBranchesFinds(policy.subs, 1);
      } else {
        FromBranchesMisses(policy.subs);
      }
    }
  }

  lemma TimelockIs(p: Semantic)
    ensures HasTimelock(p) <==> IsManagersBranch(p)
  {
  }

  /** The order of the children does not change what a policy allows. */
  lemma {:induction false} SameMeaning(p: Semantic, q: Semantic, keys: set<Key>, age: nat)
    requires Same(p, q)
    ensures Holds(p, keys, age) <==> Holds(q, keys, age)
    decreases p
  {
    if p.Thresh? {
      var there, back := SameChildren(p, q);
      forall i | 0 <= i < |p.subs| ensures Holds(p.subs[i], keys, age) <==> Holds(q.subs[there[i]], keys, age) {
        SameMeaning(p.subs[i], q.subs[there[i]], keys, age);
      }
      ReorderedSum(Holding(keys, age), p.subs, q.subs, there, back);
      ThreshHolds(p.k, p.subs, keys, age);
      ThreshHolds(q.k, q.subs, keys, age);
    }
  }

  /** So every script the policy is compiled to allows exactly the intended spends. */
  lemma ScriptMeaning(p: Parameters, script: Semantic, signers: set<Key>, age: nat)
    requires Same(Normalize(Lift(UnvaultTree(p))), script)
    ensures Holds(script, signers, age) <==> MaySpend(p, signers, age)
  {
    NormalTreeMeaning(p, signers, age);
    SameMeaning(Normalize(Lift(UnvaultTree(p))), script, signers, age);
  }

  lemma {:induction false} ReorderedSum(f: Semantic -> nat, s: seq<Semantic>, t: seq<Semantic>, there: seq<nat>,
                                        back: seq<nat>)
    requires |s| == |t| && Inverse(there, back, |s|)
    requires forall i | 0 <= i < |s| :: f(s[i]) == f(t[there[i]])
    ensures SumBy(f, s) == SumBy(f, t)
  {
    var indices: seq<nat> := seq(|s|, i requires 0 <= i < |s| => i);
    var at := (j: nat) => if j < |t| then f(t[j]) else 0;
    SumToCongruent(f, s, at, there, |s|);
    SumToCongruent(f, t, at, indices, |t|);
    Reindexes(there, back, indices);
    SumByPermutation(at, there, indices);
  }

  lemma Reindexes(there: seq<nat>, back: seq<nat>, indices: seq<nat>)
    requires Inverse(there, back, |indices|) && forall i | 0 <= i < |indices| :: indices[i] == i
    ensures multiset(there) == multiset(indices)
  {
    forall i, j | 0 <= i < j < |there| ensures there[i] != there[j] {
      assert back[there[i]] == i && back[there[j]] == j;
    }
    CountDistinct(there);
    CountDistinct(indices);
    forall x: nat ensures multiset(there)[x] == multiset(indices)[x] {
      if x < |indices| {
        assert indices[x] == x && there[back[x]] == x;
      }
    }
  }

  lemma {:induction false} CountDistinct(s: seq<nat>)
    requires NoDuplicates(s)
    ensures forall x :: multiset(s)[x] == if x in s then 1 else 0
  {
    if s != [] {
      CountDistinct(s[..|s| - 1]);
      assert s == s[..|s| - 1] + [s[|s| - 1]];
    }
  }
}
