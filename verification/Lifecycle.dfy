/** From a constructor or a parser to the object that is signed: each gives one whose invariant holds. */
module Lifecycle {
  import opened Wrappers
  import opened Bitcoin
  import opened TxOuts
  import opened Validation
  import opened Signing
  import opened Parsing
  import opened Creation
  import opened Revocation
  import Unvaulting
  import Spending

  method FromRawPsbt(lib: Library, kind: Kind, raw: Psbt) returns (r: Outcome<RevaultTransaction, ValidationError>)
    ensures r.Done? <==> Parses(lib, kind, raw)
    ensures r.Done? ==>
              && fresh(r.value) && r.value.Valid()
              && r.value.lib == lib && r.value.kind == kind && r.value.psbt == raw
    ensures r.Fails? ==> Explains(lib, kind, raw, r.error)
  {
    var parsed: Outcome<Psbt, ValidationError>;
    match kind {
      case Spend =>
        parsed := SpendFromRawPsbt(lib, raw);
      case _ =>
        var checked: Result<Psbt, ValidationError>;
        if kind == Unvault {
          checked := UnvaultFromRawPsbt(lib, raw);
        } else if kind == Cancel {
          checked := CancelFromRawPsbt(lib, raw);
        } else {
          checked := EmergencyFromRawPsbt(lib, kind, raw);
        }
        parsed := if checked.Ok? then Done(checked.value) else Fails(checked.error);
    }
    if !parsed.Done? {
      return parsed.PropagateFailure();
    }
    ParsesGivesInv(lib, kind, raw);
    var tx := new RevaultTransaction(lib, kind, raw);
    return Done(tx);
  }

  method CreateUnvault(lib: Library, deposit: InternalTxIn, unvault: DerivedDescriptor, cpfp: DerivedDescriptor,
                       lockTime: nat)
    returns (r: Outcome<RevaultTransaction, CreationError>)
    requires ValidTxOut(lib, deposit.txout)
    ensures r.Done? <==> Unvaulting.New(lib, deposit, unvault, cpfp, lockTime).Done?
    ensures r.Done? ==>
              && fresh(r.value) && r.value.Valid() && r.value.lib == lib && r.value.kind == Unvault
              && Unvaulting.New(lib, deposit, unvault, cpfp, lockTime) == Done(r.value.psbt)
  {
    var psbt :- Unvaulting.New(lib, deposit, unvault, cpfp, lockTime);
    Unvaulting.NewHasInv(lib, deposit, unvault, cpfp, lockTime);
    var tx := new RevaultTransaction(lib, Unvault, psbt);
    return Done(tx);
  }

  /** The Cancel, the Emergency and the UnvaultEmergency. */
  method CreateRevocation(lib: Library, t: Target, vault: InternalTxIn, feebump: Option<FeeBumpTxIn>, lockTime: nat)
    returns (r: Outcome<RevaultTransaction, CreationError>)
    requires ValidTxOut(lib, vault.txout) && ValidFeeBumpOption(feebump)
    ensures r.Done? <==> t.New(lib, vault, feebump, lockTime).Done?
    ensures r.Done? ==>
              && fresh(r.value) && r.value.Valid() && r.value.lib == lib && r.value.kind == t.TheKind()
              && t.New(lib, vault, feebump, lockTime) == Done(r.value.psbt)
  {
    var psbt :- t.New(lib, vault, feebump, lockTime);
    NewHasInv(lib, t, vault, feebump, lockTime);
    var tx := new RevaultTransaction(lib, t.TheKind(), psbt);
    return Done(tx);
  }

  method CreateSpend(lib: Library, unvaults: seq<InternalTxIn>, spends: seq<TxOut>, change: Option<InternalTxOut>,
                     cpfp: DerivedDescriptor, lockTime: nat, insaneFeeCheck: bool)
    returns (r: Outcome<RevaultTransaction, CreationError>)
    requires forall t | t in unvaults :: ValidTxOut(lib, t.txout)
    ensures r.Done? <==>
            Spending.Buildable(lib, unvaults, Spending.Payments(spends, change), cpfp, lockTime, insaneFeeCheck)
    ensures r.Done? ==>
              var cpfpTxo := Spending.CpfpTxout(lib, unvaults, Spending.Payments(spends, change), cpfp, lockTime);
              && fresh(r.value) && r.value.Valid() && r.value.lib == lib && r.value.kind == Spend
              && cpfpTxo.Done? && r.value.psbt == Spending.SpendPsbt(unvaults, cpfpTxo.value, spends, change, lockTime)
  {
    var psbt := Spending.New(lib, unvaults, spends, change, cpfp, lockTime, insaneFeeCheck);
    if !psbt.Done? {
      return psbt.PropagateFailure();
    }
    Spending.BuiltInputs(lib, psbt.value, unvaults);
    var tx := new RevaultTransaction(lib, Spend, psbt.value);
    return Done(tx);
  }
}
