# A verified model of revault_tx

`revault_tx` builds, validates, signs and fee-bumps the pre-signed transactions of a Bitcoin vault: a Deposit is
spent by an Unvault, which is either cancelled (Cancel, UnvaultEmergency) or, once its timelock is over, spent (Spend);
an Emergency spends the Deposit directly and a CPFP transaction bumps a package. This project models that logic in
Dafny 4.11 and proves properties of it; `dafny verify dfyconfig.toml` checks all of it.

What the repository gets from other crates is a value of type `Bitcoin.Library`, a record of arbitrary functions:
SHA-256, the Miniscript parser, the maximal satisfaction weight, the txid, the hash of a BIP143 preimage, signature
verification, the consensus verdict on an input and BIP32 derivation. Every lemma holds for every such record. A call that may fire an `assert!`, an
`expect`, a division by zero or an integer overflow has the result type `Wrappers.Outcome`, whose third case `Panics`
is that event; theorems about panics are theorems about that case. Transaction weights have a concrete formula
("Transaction size calculations" in BIP141), and signature preimages are records with the fields that the
"Specification" section of BIP143 lists.

| file | what it holds |
|---|---|
| `Wrappers.dfy`, `Sums.dfy` | results, sums over sequences, permutations, duplicates |
| `Bitcoin.dfy`, `TxOuts.dfy` | scripts, transactions, PSBTs, weights, preimages; typed inputs and outputs |
| `Validation.dfy`, `Parsing.dfy` | the common sanity checks, fees, lookups; the parser of each kind of transaction |
| `Signing.dfy` | the PSBT state machine: signing, finalising, the invariant of each kind, whole runs |
| `Creation.dfy`, `Unvaulting.dfy`, `Revocation.dfy`, `Spending.dfy` | the constructors |
| `Lifecycle.dfy` | from every constructor and parser to the object that is signed |
| `FinalWeight.dfy` | the broadcast weight of a finalised transaction against `max_weight` |
| `Chain.dfy`, `Cycles.dfy`, `CpfpLookup.dfy` | the pre-signed chain, repeated unvaulting and revaulting, finding CPFP outputs |
| `Cpfp.dfy`, `CpfpSelection.dfy` | package feerates, and the coin selection loop |
| `Policies.dfy`, `UnvaultPolicy.dfy` | spending policies and their normal form; the Unvault policy and its threshold reader |
| `DerivedKey.dfy` | printing and parsing derived public keys |

## What the proofs found

- The `expect("We would never create a dust unvault txo")` of the UnvaultEmergency constructor can fire. The dust limit
  of the Unvault makes it unreachable exactly when 75 times the weight of the UnvaultEmergency is at most 200000, that
  is 2666 weight units (`Chain.DustLimitThreshold`, with an amount that fails in `Chain.HeavyChainPanics`).
- `SpendTransaction::new` leaves the CPFP output out of the balance it checks. What it returns has fees, and parses,
  exactly when the inputs cover that output too (`Spending.BuiltFees`, `Spending.BuiltParses`). A Spend that pays out all
  it spends is built, even with the insane fees check, and has no fees (`Spending.UncoveredCpfp`).
- Constructors and parsers do not agree on all inputs; the exact conditions are `Unvaulting.NewParses`,
  `Revocation.NewParses` and `Spending.BuiltParses`. A deposit of one sat more than 21 million bitcoins can be unvaulted
  but its Unvault does not parse (`Unvaulting.OversizedDeposit`). A Cancel or UnvaultEmergency of a coin worth its fee and
  one sat is built and is dust (`Chain.DustyCoin`); it can happen to a vault whose descriptor takes the fee past the dust
  limit (`Chain.DustyChain`).
- The documentation of `max_weight` (src/transactions/mod.rs:525-527) promises the exact size of a finalised transaction.
  The code counts the bytes of the witness elements only, so it is short of the BIP141 weight by the two marker bytes and
  the item counts and length prefixes, whenever there is a witness (`FinalWeight.FinalWeightIsShort`).
- The message of the same `expect` in the Cancel constructor says that no dust Unvault output is created; that it cannot
  fire depends on the descriptor's weight too (`Chain.RevaultThreshold`). The model follows the code.
- The documentation of `EmergencyTransaction::new` (src/transactions/emergency.rs:80) promises an error only for a dust
  deposit. The code, which the model follows, also rejects an insane fee-bump or remaining value, and panics beyond the
  weight or insane-fee bounds (`Chain.EmergencyThreshold`).
- An accepted printed key may carry ignored bytes after a second closing bracket
  (`DerivedKey.TrailingBytesAreIgnored`), so acceptance does not make a string canonical; printing does.
- The CPFP lookup on an Unvault returns output 1 exactly when the Unvault script is not the CPFP script at the index of
  its own first key source (`CpfpLookup.UnvaultLookup`); a cosigner key at index 0 that comes first does no harm.

## Model

| member | source | states |
|---|---|---|
| Validation.PsbtCommonSanityChecks | src/transactions/utils.rs:89-215 | accepts exactly the PSBTs of an order-free predicate over its inputs and outputs, unchanged; the error is that of the first failing check, for the first failing input |
| Validation.CheckInputs | src/transactions/utils.rs:122-193 | the stateful input loop with its early `continue` accepts exactly when each input is sane alone, all or none are final, and the values fit; it returns their exact sum, or an error about the first faulty input |
| Validation.CheckOutputs | src/transactions/utils.rs:195-205 | the output loop accepts exactly outputs above dust and within 21 million bitcoins, and returns their exact sum |
| Validation.SaneIgnoresOrder | src/transactions/utils.rs:116-214 | permuting inputs jointly with their PSBT fields, and outputs likewise, does not change acceptance |
| Validation.PsbtFees | src/transactions/utils.rs:309-321 | the checked sums are defined exactly when every witness UTXO is known and nothing over- or underflows, and then give the difference |
| Validation.SaneFees | src/transactions/mod.rs:359-368 | on a validated PSBT fees exist and are at most 21 million bitcoins, and one final input means that all are final |
| Validation.PositionIsFirst | src/transactions/utils.rs:294-302 | a position exists exactly when something matches, is the first match, and is where the lookup by value finds its result |
| Validation.RevocationtxInputIs | src/transactions/utils.rs:238-262 | for any input, when the check of a vault input passes, which error it gives, and that it panics exactly on other scripts |
| Validation.FeebumpInputIs | src/transactions/utils.rs:265-292 | for any input, when the check of a fee-bump input passes and which error it gives |
| Bitcoin.PreimageCommits | src/transactions/mod.rs:240-254 | two preimages are equal exactly when version, locktime, input, script code, amount and sighash type agree, and what that type covers of the other inputs and the outputs |
| Bitcoin.ScriptShapes | src/transactions/utils.rs:177-190 | a P2WSH or P2WPKH script is exactly a zero, a push and 32 or 20 bytes |
| Bitcoin.DustThresholds | src/transactions/utils.rs:197-200 | 0 for OP_RETURN, 330 and 294 for the witness forms, 546 for P2PKH, 540 for P2SH |
| Bitcoin.WeightGrows | src/transactions/cpfp.rs:128-133 | 40 units for nothing, 164 for an input, 36 and four for each script byte for an output, and where the counts grow |
| Bitcoin.ExtractedIs | src/transactions/mod.rs:387-401 | what consensus is given: the transaction with each input's own final script and witness |
| TxOuts.DeriveIs | src/scripts.rs:170-194 | extended keys are derived at the index with their fingerprint, single keys stay with a zero origin |
| TxOuts.DerivationsAreSources | src/txouts.rs:114-123 | a derivation map has exactly the descriptor's keys, each with its own fingerprint and index |
| TxOuts.NewTxOutIs | src/txouts.rs:107-125 | an internal output locks its value to the hash of the descriptor's script and describes its keys |
| Signing.SigningIsSafe | src/transactions/mod.rs:224-330 | under the invariant no `expect` or `assert!` of the signing code fires, and a signature is accepted exactly when the input is not final and it verifies over the BIP143 preimage under the sighash type of the kind |
| Signing.SignatureIsStored | src/transactions/mod.rs:321-329 | an accepted signature is stored as its DER bytes and 0x81 for the vault input of a revocation, 0x01 for any other; everything else is unchanged, and what it replaced is returned |
| Signing.ScriptCodeIs | src/transactions/mod.rs:240-254 | the script signed is the witness script, or the P2PKH script of the same hash |
| Signing.FinalizedIs | src/transactions/mod.rs:341-342 | each input gets its own witness, keeps its UTXO and loses everything that served signing |
| Signing.StepIs | src/transactions/mod.rs:258-349 | a call stores an accepted signature, does nothing with another, or finalises completely |
| Signing.RunIs | src/transactions/mod.rs:258-349 | a run takes its calls in order and may be cut anywhere |
| Signing.RunIsSafe | src/transactions/mod.rs:258-349 | after any sequence of signatures and successful finalisations the invariant of the kind holds, no assertion of the next call can fail, the vault input is found, and transaction, outputs and fees are unchanged |
| Signing.RunEvolves | src/transactions/mod.rs:324-342 | over any run either only signatures of non-final inputs changed, or every input was finalised with all signing data wiped |
| Signing.EvolvesKeepsInv | src/transactions/mod.rs:332-349 | such a change keeps the invariant of each of the five kinds |
| Signing.RevocationIndex | src/transactions/utils.rs:294-302 | the index used for signing is the place of the only P2WSH input, the one the lookup returns |
| Signing.VerdictIgnoresSignatures | src/transactions/mod.rs:309-329 | signatures already present change neither acceptance of another one nor the bytes added |
| Signing.SignaturesCommute | src/transactions/mod.rs:258-330 | two accepted signatures give the same PSBT in either order |
| Signing.RevaultTransaction.constructor | src/transactions/utils.rs:20-36 | wraps a PSBT that has the invariant of its kind |
| Signing.RevaultTransaction.AddSignature | src/transactions/mod.rs:258-330 | accepts exactly the right signatures, all assertions proved; the bytes stored, the replaced signature, everything else unchanged, nothing changed on error |
| Signing.RevaultTransaction.AddRevocationSig | src/transactions/cancel.rs:187-196 | takes exactly the right signatures for the only P2WSH input wherever it stands, stores them there, returns the one replaced, and leaves the fee-bump input alone |
| Signing.RevaultTransaction.AddSig | src/transactions/unvault.rs:237-246 | takes exactly the right signatures for input 0, which always exists, stores them there and returns the one replaced |
| Signing.RevaultTransaction.Finalize | src/transactions/mod.rs:332-349 | succeeds exactly when the library satisfied every input and consensus accepts each on the output it spends; then all inputs are final and the invariant holds; a consensus failure names the first input rejected |
| Signing.RevaultTransaction.VerifyInputs | src/transactions/mod.rs:387-401 | every input is given the output it spends, which is always known; success means that all verify, and a failure names the first that does not |
| Parsing.UnvaultFromRawPsbt | src/transactions/unvault.rs:185-234 | accepts exactly the Unvault specification, and explains each rejection |
| Parsing.CancelFromRawPsbt | src/transactions/cancel.rs:148-184 | accepts exactly the Cancel specification, and explains each rejection |
| Parsing.EmergencyFromRawPsbt | src/transactions/emergency.rs:141-165 | accepts exactly the specification that Emergency and UnvaultEmergency share, and explains each rejection |
| Parsing.SpendFromRawPsbt | src/transactions/spend.rs:239-323 | accepts exactly the Spend specification, signed weight included, and explains each rejection |
| Parsing.CheckRevocationInputs | src/transactions/cancel.rs:170-181 | two first-match lookups amount to checking every input for its kind, and the assertion inside never fires |
| Parsing.CheckSpendInputs | src/transactions/spend.rs:247-292 | the loop accepts exactly described P2WSH inputs and sums the weights of the satisfactions to come |
| Parsing.CheckSpendOutputs | src/transactions/spend.rs:294-310 | accepts exactly one or two outputs with key sources |
| Parsing.LookupsCover | src/transactions/utils.rs:218-235 | with at most two inputs the two successful lookups have seen each of them |
| Parsing.ParsesGivesInv | src/transactions/utils.rs:89-302 | everything a parser accepts has the invariant of its kind |
| Parsing.RunKeepsParses | src/transactions/mod.rs:174-184 | whatever is signed or finalised, an accepted PSBT is accepted again |
| Parsing.LookupsSeeEverything | src/transactions/utils.rs:218-302 | a parsed revocation has exactly one P2WSH and at most one P2WPKH input in either order, each of them checked, and the signing index is the checked input |
| Creation.VaultInputIsGood | src/transactions/cancel.rs:44-50 | the input made from any valid vault output is described, non-final and P2WSH, and sane exactly when its amount is |
| Unvaulting.NewConserves | src/transactions/unvault.rs:85-141 | deposit = unvault + 30000 + 6 × the weight of the transaction returned; the fees are that product |
| Unvaulting.StrippedWeight | src/transactions/tests_helpers.rs:464-466 | the weight without witness is 548 for any scripts and amounts |
| Unvaulting.NewIs | src/transactions/unvault.rs:40-78 | the Unvault spends the very deposit it was given, with its sequence and the locktime, and pays to the Unvault and CPFP descriptors whose keys it lists |
| Unvaulting.NewThreshold | src/transactions/unvault.rs:105-131 | exactly when it is built and with which output, when each error is reported, and when it panics |
| Unvaulting.NewHasInv | src/transactions/unvault.rs:40-78 | a constructed Unvault has the signing invariant |
| Unvaulting.NewIsSane | src/transactions/unvault.rs:85-141 | its outputs and balance are always sane, the whole exactly when the deposit is within 21 million bitcoins |
| Unvaulting.NewParses | src/transactions/unvault.rs:85-234 | it parses exactly when the deposit is within 21 million bitcoins, and then so does every PSBT it becomes |
| Unvaulting.OversizedDeposit | src/transactions/unvault.rs:124-131 | for any descriptors of standard weight, an amount whose Unvault is built and does not parse |
| Unvaulting.TxinIsUnvaultOutput | src/transactions/unvault.rs:143-182 | the reference to the Unvault output is always output 0 with its true amount, even if the scripts coincide |
| Unvaulting.TxinSequences | src/transactions/unvault.rs:171-182 | a Spend refers to it with the timelock as sequence, a revocation with 0xfffffffd |
| Unvaulting.OutputPositionFinds | src/transactions/unvault.rs:149-156 | on any outputs the position is the first that pays to the script |
| Revocation.NewConserves | src/transactions/cancel.rs:98-144 | vault input = output + feerate × weight of what is returned without fee-bump; the fees are that plus the whole fee-bump value |
| Revocation.StrippedWeight | src/transactions/tests_helpers.rs:366-370 | the weight without witness is 376 for any P2WSH output |
| Revocation.NewIs | src/transactions/cancel.rs:37-80 | each revocation spends the vault coin and then the fee-bump coin, with their sequences and the locktime, and pays to its target only; the Cancel lists exactly its deposit descriptor's keys, the emergencies nothing |
| Revocation.NewHasInv | src/transactions/unvaultemergency.rs:82-143 | a constructed Cancel, Emergency or UnvaultEmergency has the signing invariant |
| Revocation.NewParses | src/transactions/cancel.rs:86-184 | it parses exactly under four conditions on amounts, dust and outpoints, and then so does every PSBT it becomes |
| Revocation.DistinctOutPoints | src/transactions/utils.rs:116-120 | the outpoints differ exactly when the fee-bump coin is not the vault coin |
| Revocation.SignaturesAreReusable | src/transactions/emergency.rs:83-138 | with any two fee-bumps, or none, outputs and the ALL and ANYONECANPAY preimage of the vault input agree, so the same signatures are accepted; under ALL they agree only with the same fee-bump coin |
| Revocation.AllCommitsToInputs | src/transactions/mod.rs:240-254 | a preimage under ALL determines the inputs |
| Chain.ChainConserves | src/transactions/mod.rs:597-641 | not a sat is lost along the four transactions, each of which spends the output it should |
| Chain.ChainIs | src/transactions/mod.rs:597-641 | the Unvault and the Emergency spend the deposit asked for, the others output 0 of the Unvault, all replaceable and at the locktime; every script and key is derived at the one index |
| Chain.ChainParts | src/transactions/mod.rs:597-641 | the four transactions are those of the four constructors on the right coins |
| Chain.CoinThreshold | src/transactions/unvaultemergency.rs:82-143 | on any valid coin the Cancel and the UnvaultEmergency are built exactly within weight, insane-fee and value bounds; the only error is insane amounts, for the fee-bump; all the rest panics |
| Chain.EmergencyThreshold | src/transactions/emergency.rs:83-138 | exactly when the Emergency is built, reports Dust, reports insane amounts, or panics |
| Chain.ChainThreshold | src/transactions/mod.rs:597-641 | the whole chain is built exactly when the Unvault is, its output affords the UnvaultEmergency and the deposit the Emergency; the Cancel is never the obstacle |
| Chain.RevaultThreshold | src/transactions/cancel.rs:110-136 | the same along the chain after any successful Unvault |
| Chain.LightChainCompletes | src/transactions/unvault.rs:123-131 | 75 × weight at most the dust limit suffices for both |
| Chain.HeavyChainPanics | src/transactions/unvaultemergency.rs:126-128 | above that, an amount for which the Unvault is built and the UnvaultEmergency panics |
| Chain.DustLimitThreshold | src/transactions/unvault.rs:123-127 | so the bound is exact |
| Chain.DustyCoin | src/transactions/cancel.rs:128-144 | for any descriptor within the bounds, a coin whose Cancel or UnvaultEmergency is built with a one-sat output and does not parse |
| Chain.DustyChain | src/transactions/mod.rs:558-593 | with a fee past the dust limit, an amount for which this happens to an Unvault that was built |
| Chain.UnvaultCoin | src/transactions/unvault.rs:177-182 | what the Unvault offers is a valid coin between the dust limit and 21 million bitcoins |
| Cycles.CycleThreshold | src/transactions/mod.rs:558-593 | one unvault-and-cancel round succeeds exactly when the deposit covers its need, costs an exact amount, and gives a deposit again: output 0 of its Cancel, with that output's script and amount |
| Cycles.CyclesThreshold | src/transactions/mod.rs:558-593 | a deposit survives n rounds exactly when it is worth n - 1 costs and one need, and loses n costs |
| Spending.New | src/transactions/spend.rs:49-179 | built exactly under the stated conditions, which ignore the CPFP output; every input and output of the PSBT; the error of the first failing check; panics only on overflow |
| Spending.PushSpends | src/transactions/spend.rs:89-105 | the pushed outputs and their sum, or Dust exactly for a real dust output |
| Spending.SpendPsbtIs | src/transactions/spend.rs:125-156 | each coin is spent in order with its own sequence, the CPFP output comes first with its keys, then the destinations undescribed, then the change with its keys |
| Spending.CheckTotals | src/transactions/spend.rs:158-176 | the limits on weight, amounts and fees, and which error each gives |
| Spending.DummyWeight | src/transactions/spend.rs:194-234 | the CPFP value computed on the dummy is 16 × the weight with any CPFP amount |
| Spending.MaxWeight | src/transactions/spend.rs:327-365 | the loop computes weight plus satisfactions, or panics exactly when one cannot be estimated or the sum overflows |
| Spending.MaxWeightStaysStandard | src/transactions/spend.rs:312-320 | through any run, while not final, `max_weight` is defined and at most 400000 |
| Spending.CpfpFixpoint | src/transactions/spend.rs:181-235 | the CPFP output of the Spend returned is 16 × its own `max_weight` |
| Spending.BuiltInputs | src/transactions/spend.rs:141-154 | a constructed Spend has the signing invariant, and sums and outpoints are those of the coins |
| Spending.BuiltFees | src/transactions/utils.rs:309-321 | fees of a constructed Spend are defined exactly when the inputs cover payments and CPFP output |
| Spending.UncoveredCpfp | src/transactions/spend.rs:168-176 | for any valid coin of standard weight, a Spend that is built and has no fees |
| Spending.BuiltParses | src/transactions/spend.rs:239-323 | it parses exactly under the stated conditions on inputs and balance, and then so does every PSBT it becomes |
| Lifecycle.FromRawPsbt | src/transactions/mod.rs:177-178 | parsing gives a transaction object whose invariant holds, exactly when the PSBT is one its kind accepts |
| Lifecycle.CreateUnvault | src/transactions/unvault.rs:85-141 | so does building an Unvault, exactly when the constructor succeeds |
| Lifecycle.CreateRevocation | src/transactions/cancel.rs:86-145 | and a Cancel, an Emergency or an UnvaultEmergency |
| Lifecycle.CreateSpend | src/transactions/spend.rs:49-179 | and a Spend, even one without inputs |
| FinalWeight.FinalWeightIsShort | src/transactions/spend.rs:332-343 | the BIP141 weight of a finalised transaction with a witness is above `max_weight` by exactly the marker bytes, item counts, length prefixes and scriptSigs |
| FinalWeight.OneInputMaxWeight | src/transactions/unvault.rs:250-286 | the Unvault's `max_weight` is the Spend's on one input |
| FinalWeight.FinalUnvaultIsShort | src/transactions/unvault.rs:256-264 | so it is short by at least three units and one for each witness element |
| CpfpLookup.FirstSource | src/transactions/mod.rs:489-492 | the first entry of the ordered map of key sources |
| CpfpLookup.LookupIs | src/transactions/mod.rs:476-510 | on any PSBT: nothing exactly when every output is skipped, otherwise a reference to the first that is not |
| CpfpLookup.UnvaultLookup | src/transactions/mod.rs:476-510 | vout 1 worth 30000 at the queried index, exactly when the Unvault script is not the CPFP script at its first source's index |
| CpfpLookup.UnvaultLookupFindsCpfp | src/transactions/mod.rs:476-510 | so without a hash collision the lookup is right even if a cosigner key at index 0 comes first |
| CpfpLookup.SpendLookup | src/transactions/mod.rs:476-510 | on any Spend the lookup returns vout 0 whatever the change output carries |
| CpfpLookup.MaxIndexTo | src/transactions/mod.rs:666-668 | an upper bound of the derivation indexes that is reached |
| CpfpLookup.UnvaultTxin | src/transactions/mod.rs:660-672 | the coin of one deposit, defined exactly when its Unvault is |
| CpfpLookup.UnvaultTxins | src/transactions/mod.rs:657-673 | all coins and the highest index, or a deposit whose Unvault fails |
| CpfpLookup.SpendTxFromDeposits | src/transactions/mod.rs:646-684 | input k spends output 0 of the Unvault of deposit k with the CSV as sequence, the lookup finds vout 0 at the highest index; fails only if an Unvault does or the Spend cannot be built |
| Cpfp.TargetAboveMaxFeerate | src/transactions/mod.rs:515-523 | the target is at least 1000 × the rounded-up feerate plus the bump, despite both floors |
| Cpfp.TargetNearMaxFeerate | src/transactions/cpfp.rs:124-126 | and at most one sat per weight unit above that |
| Cpfp.MaxFeerateRoundsUp | src/transactions/mod.rs:515-523 | `max_feerate` is the least whole feerate not below the real one |
| Cpfp.NoFeeUnderflow | src/transactions/cpfp.rs:124-138 | subtracting the fees already paid never underflows |
| Cpfp.OpReturnIsCheaper | src/transactions/cpfp.rs:140-168 | the OP_RETURN need is between 0 and the change need, so the fallback is always funded |
| Cpfp.PackageFeerate | src/transactions/cpfp.rs:124-169 | with an OP_RETURN the package pays more than the target, with a change less than one sat short of it |
| Cpfp.KeepsPromise | src/transactions/mod.rs:515-523 | the signed package pays above the target, and above the feerate asked for, up to less than one sat with a change |
| Cpfp.IsThrifty | src/transactions/cpfp.rs:155-169 | it pays no more: a change of over 10000 sats goes back to the last coin's script and the target is not exceeded, or a worthless OP_RETURN burns at most 10000 sats beyond it |
| Cpfp.CpfpPsbtIs | src/transactions/cpfp.rs:93-121 | the inputs are the coins to be bumped and then those added, each fully described, signed with ALL and replaceable |
| Cpfp.CpfpFees | src/transactions/cpfp.rs:219-222 | the fees of the CPFP transaction are the selected value minus the output, and always defined |
| Cpfp.OutputIsStandard | src/transactions/cpfp.rs:15-34 | no dust output and never below 82 bytes without witness; the padding is used exactly when needed |
| CpfpSelection.Template | src/transactions/cpfp.rs:76-121 | the loop builds the PSBT of the coins to bump with the last one's output, and the exact sums; it panics exactly when they overflow |
| CpfpSelection.CheckedNeedIs | src/transactions/cpfp.rs:134-138 | a need can fail to be computed only by its product |
| CpfpSelection.Needs | src/transactions/cpfp.rs:128-155 | both needs as specified and the funding test decided exactly, or a panic exactly when the selection's numbers do not fit 64 bits |
| CpfpSelection.NeedIsComputed | src/transactions/cpfp.rs:134-153 | within the 64-bit bound no product overflows and no subtraction underflows, whatever was selected |
| CpfpSelection.Select | src/transactions/cpfp.rs:127-204 | the loop ends with the largest coins, the first prefix that passes the test and its output, or with every prefix failing, or panics at exactly the first prefix whose numbers do not fit |
| CpfpSelection.LargestDominates | src/transactions/cpfp.rs:72-74 | no k coins are worth more than the k largest (exchange argument) |
| CpfpSelection.NeedsDependOnCount | src/transactions/cpfp.rs:128-153 | with equal satisfaction weights the needs depend only on how many coins are added |
| CpfpSelection.GreedyIsOptimal | src/transactions/cpfp.rs:72-204 | then the first funded prefix is no longer than any funded sub-multiset of the pool |
| CpfpSelection.LargestIsUnfunded | src/transactions/cpfp.rs:199-201 | and if no prefix is funded nothing is |
| CpfpSelection.FromTxins | src/transactions/cpfp.rs:64-205 | all of it for the constructor: optimal selection, its inputs and output, at least and at most the feerate promised, InsufficientFunds exactly when no selection is funded, and a panic exactly without a computable target or at a reached prefix that does not fit 64 bits |
| Policies.LiftKeepsMeaning | src/scripts.rs:349-349 | the semantic form of a concrete policy allows the same |
| Policies.NormalizeKeepsMeaning | src/scripts.rs:514-517 | normalising any semantic policy keeps what it allows, for all key sets and ages |
| UnvaultPolicy.UnvaultDescChecks | src/scripts.rs:295-319 | accepts exactly non-empty keys, a threshold within the managers, no or one cosigner per stakeholder, and a 16-bit number of blocks |
| UnvaultPolicy.CleanLocktime | src/scripts.rs:308-317 | the three bit tests accept exactly the values up to 0xffff |
| UnvaultPolicy.TreeMeaning | src/scripts.rs:321-352 | the tree allows exactly: all stakeholders, or t managers with all cosigners after the timelock; it weighs the latter nine to one |
| UnvaultPolicy.NormalTreeMeaning | src/scripts.rs:321-352 | and so does its normalised form |
| UnvaultPolicy.ScriptMeaning | src/scripts.rs:349-350 | and every script that lifts to it up to the order of children |
| UnvaultPolicy.SigningCountsKeys | src/scripts.rs:323-327 | for distinct keys the threshold counts keys |
| UnvaultPolicy.NormalTree | src/scripts.rs:519-538 | the normal form: an or of the stakeholders and of one flattened conjunction |
| UnvaultPolicy.ReaderFindsThreshold | src/scripts.rs:502-552 | for any order of children the reader returns t if t < n and nothing if t = n, and reaches no assertion |
| UnvaultPolicy.ReaderPanics | src/scripts.rs:519-552 | on any policy it panics exactly unless that is a choice between two branches one of which is a conjunction with a timelock |
| DerivedKey.HexRoundTrip | src/scripts.rs:64-67 | decoding printed bytes gives them back |
| DerivedKey.HexAccepts | src/scripts.rs:99-100 | the accepted spellings of bytes are the printed one in any case |
| DerivedKey.DecimalAccepts | src/scripts.rs:101-102 | the accepted spellings of a number are the printed one after any zeros and an optional plus, up to 32 bits |
| DerivedKey.ChildAccepts | src/scripts.rs:101-105 | and of an index, under 2 to the 31 and with a quote or an h if hardened |
| DerivedKey.DecimalRoundTrip | src/scripts.rs:68-68 | decoding a printed 32-bit number gives it back, digit by digit with overflow checks |
| DerivedKey.ChildRoundTrip | src/scripts.rs:101-102 | child numbers round trip, hardened or not |
| DerivedKey.SplitAtFirst | src/scripts.rs:94-96 | splitting finds the first separator |
| DerivedKey.RoundTrip | src/scripts.rs:60-119 | parsing a printed key gives the key back when its index is not hardened, and an error otherwise |
| DerivedKey.ParseAccepts | src/scripts.rs:76-119 | the exact grammar of the parser: which strings it accepts, and as which key |
| DerivedKey.PrintIs | src/scripts.rs:60-71 | the exact printed form: brackets, slash, lower case, no leading zeros |
| DerivedKey.ParsePrintParse | src/scripts.rs:76-119 | for any accepted string, printing and parsing again gives the same key |
| DerivedKey.TrailingBytesAreIgnored | src/scripts.rs:94-96 | bytes after a second closing bracket change nothing |
| DerivedKey.PrintIsInjective | src/scripts.rs:60-71 | different keys print differently |

## Left out

- BIP174 bytes, base64, serde and `Display` of transactions: library codecs; `from_raw_psbt` starts from the decoded PSBT.
- secp256k1, SHA-256, BIP32, libbitcoinconsensus and Miniscript: arbitrary functions of `Library`; the finalizer's report
  is an argument of `Finalize`.
- Policies.LiftKeepsMeaning: lifts the concrete policy, as the compiled Miniscript that the source lifts is foreign; the
  two are related by the next line.
- The policy compiler: a compiled script is any one that lifts and normalises to the normalised policy up to the order of
  children; the compiler refuses a threshold of 0, so the reader theorem starts at 1.
- Normalisation of semantic policies, the dust value of a script and the number parsers follow the rules of the
  `miniscript` and `bitcoin` crates and of the Rust standard library, which are not part of the repository.
- Signing.RevaultTransaction.Finalize: after the library reports a failure nothing is claimed about the inputs, because
  a failing finalize may already have wiped some of them.
- CpfpSelection.FromTxins: optimality is for coins of equal satisfaction weight, as all coins of one CPFP descriptor have.
- CpfpSelection.SortByValue: an insertion sort on a sequence stands for the unstable library sort; nothing else depends
  on the order of coins of equal value.
- CpfpSelection.Select: the PSBT, the pool and the sums are local values that the loop reassigns, as the method owns
  them; one iteration's computation of the needs and the push of a coin are methods of their own.
- Validation.PsbtCommonSanityChecks: of several faults of the first faulty input, which one is reported is not stated, only
  that it has the fault; after these checks, the parsers of each kind only promise an error about a real fault.
- Signing.RevaultTransaction.constructor: asks its caller for the invariant; the methods of Lifecycle establish it for
  every PSBT that is built or parsed.
- Integer overflow is a panic, as in a build with overflow checks, and `debug_assert!` counts as `assert!`; wrap-around
  in release builds is not modelled. `usize` is taken to have 64 bits.
- DerivedKey.RoundTrip: point encoding and decoding are foreign functions, of which only the lengths and decoding what
  was encoded are assumed.
- Descriptors: parsing, printing, `xpubs`, `keys`, the check for derivable keys and the CSV reader, whose result is a
  field of the descriptor; hardened derivation.
- `is_valid`, `is_finalizable`, extraction and the interpreter check: calls into the library around `is_finalized`.
- The accessors, error formatting, EmergencyAddress and the fuzz targets.
