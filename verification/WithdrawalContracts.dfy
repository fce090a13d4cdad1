/** What the store guarantees to callers that keep the executor's rules, and
    to callers that only ever store canonical intents. */
module WithdrawalContracts {
  import opened Bytes
  import opened Wrappers
  import opened PayoutIntent
  import opened WithdrawalStore
  import opened WithdrawalInvariants
  import opened WithdrawalRuns

  // ------------------------------------------------------ the executor's rules

  /** A signature is recorded only while the guard releases the payout, a
      payout is completed only once signed, and the generic transition never
      completes and returns only a signed payout to `Broadcast`, as when its
      bytes are sent again after a reorganisation. */
  predicate KeepsRules(env: Env, s: State, op: Op) {
    match op
    case Transition(i, to, _, _) => to != Completed && (to == Broadcast ==> i in s.payouts && s.payouts[i].signed.Some?)
    case Signed(i, _, _, _) => Signable(env, s, i)
    case Complete(i, _) => i in s.payouts ==> s.payouts[i].signed.Some?
    case _ => true
  }

  predicate RunKeepsRules(env: Env, s: State, ops: seq<Op>)
    decreases |ops|
  {
    ops == [] || (KeepsRules(env, s, ops[0]) && RunKeepsRules(env, Step(env, s, ops[0]), ops[1..]))
  }

  predicate ClaimsPayment(state: WState) { state in {Broadcast, Confirming, Orphaned, Completed} }

  /** A lifecycle state that claims a payment has a signature behind it, and
      `Completed` a completion. */
  predicate StateJustified(s: State, i: i64)
    requires i in s.withdrawals
  {
    && (ClaimsPayment(s.withdrawals[i].state) ==> i in s.payouts && s.payouts[i].signed.Some?)
    && (s.withdrawals[i].state == Completed ==> i in s.payouts && s.payouts[i].completedAt.Some?)
  }

  /** A signed payout pays the burned amount out of coins it still holds, or
      has spent; an unsigned one is not completed. */
  predicate PayoutJustified(s: State, i: i64)
    requires i in s.payouts
  {
    var p := s.payouts[i];
    && (p.signed.Some? ==>
          && i in s.withdrawals && p.terms.payout == s.withdrawals[i].amount && p.terms.inputs != []
          && (if p.completedAt.Some? then InputsSpent(s, i) else HoldsInputs(s, i)))
    && (p.signed == None ==> p.completedAt == None)
  }

  ghost predicate Settled(s: State) {
    && (forall i :: i in s.withdrawals ==> StateJustified(s, i))
    && (forall i :: i in s.payouts ==> PayoutJustified(s, i))
  }

  lemma SignatureStays(env: Env, s: State, op: Op, i: i64)
    requires Consistent(s) && i in s.payouts
    ensures var t := Step(env, s, op);
            && i in t.payouts
            && (s.payouts[i].signed.Some? ==> t.payouts[i].signed.Some?)
            && (s.payouts[i].completedAt.Some? ==> t.payouts[i].completedAt.Some?)
  {
    hide Step, Consistent, Evolves;
    StepGood(env, s, op);
    EvolvesPayout(s, Step(env, s, op), i);
  }

  lemma StepKeepsState(env: Env, s: State, op: Op, i: i64)
    requires Consistent(s) && KeepsRules(env, s, op)
    requires i in s.withdrawals ==> StateJustified(s, i)
    requires i in Step(env, s, op).withdrawals
    ensures StateJustified(Step(env, s, op), i)
  {
    hide Step, Consistent, StateMove, KeepsRules;
    var t := Step(env, s, op);
    WithdrawalFrame(env, s, op, i);
    if i in s.payouts {
      SignatureStays(env, s, op, i);
    }
    if i in s.withdrawals && t.withdrawals[i].state != s.withdrawals[i].state {
      MoveIsJustified(env, s, op, i, s.withdrawals[i].state, t.withdrawals[i].state);
      if i in s.payouts && (IsSigned(op, i) || Completes(op, i)) {
        PaymentRecorded(env, s, op, i);
      }
    }
  }

  /** What the rules put behind each move to a state that claims a payment. */
  lemma MoveIsJustified(env: Env, s: State, op: Op, i: i64, from: WState, to: WState)
    requires i in s.withdrawals && s.withdrawals[i].state == from && StateJustified(s, i)
    requires KeepsRules(env, s, op) && StateMove(s, op, i, from, to) && from != to
    ensures ClaimsPayment(to) ==> i in s.payouts && (s.payouts[i].signed.Some? || IsSigned(op, i))
    ensures to == Completed ==> Completes(op, i)
  {
    hide Backed, Canonical, Unsent;
  }

  lemma PaymentRecorded(env: Env, s: State, op: Op, i: i64)
    requires i in s.payouts && i in s.withdrawals && i in Step(env, s, op).payouts
    ensures IsSigned(op, i) ==> Step(env, s, op).payouts[i].signed.Some?
    ensures Completes(op, i) ==> Step(env, s, op).payouts[i].completedAt.Some?
  {
    hide HeldBy;
  }

  lemma StepKeepsPayout(env: Env, s: State, op: Op, i: i64)
    requires Consistent(s) && KeepsRules(env, s, op)
    requires i in s.payouts && i in s.withdrawals && PayoutJustified(s, i)
    ensures i in Step(env, s, op).payouts && PayoutJustified(Step(env, s, op), i)
  {
    if Completes(op, i) {
      CompletedPayout(s, i, op.at);
    } else {
      var t := Step(env, s, op);
      hide Step, Consistent;
      PayoutFrame(env, s, op, i);
      WithdrawalFrame(env, s, op, i);
      if s.payouts[i].signed.Some? && s.payouts[i].completedAt.Some? {
        RunKeepsSpent(env, s, [op], i);
        OneStepRun(env, s, op);
      } else if s.payouts[i].signed.Some? || IsSigned(op, i) {
        StepKeepsInputs(env, s, op, i);
      }
    }
  }

  lemma OneStepRun(env: Env, s: State, op: Op)
    ensures Run(env, s, [op]) == Step(env, s, op)
  {
    hide Step;
    assert Run(env, Step(env, s, op), []) == Step(env, s, op);
  }

  lemma CompletedPayout(s: State, i: i64, at: i64)
    requires Consistent(s) && i in s.payouts && i in s.withdrawals && s.payouts[i].signed.Some? && PayoutJustified(s, i)
    ensures i in CompletePayout(s, i, at).0.payouts && PayoutJustified(CompletePayout(s, i, at).0, i)
  {
    var t := CompletePayout(s, i, at).0;
    assert t.payouts == s.payouts[i := s.payouts[i].(completedAt := Some(at))] && t.withdrawals[i].amount == s.withdrawals[i].amount;
    hide CompletePayout, Consistent, HoldsInputs, InputsSpent, Evolves;
    if s.payouts[i].completedAt.Some? {
      CompleteGood(s, i, at);
      SpentStay(s, t, i);
    } else {
      CompletionSpends(s, i, at);
    }
  }

  lemma SpentStay(s: State, t: State, i: i64)
    requires InputsSpent(s, i) && i in t.payouts && t.payouts[i].terms == s.payouts[i].terms && Good(s, t)
    ensures InputsSpent(t, i)
  {
    hide Consistent, RequestsKept, PayoutsEvolve;
    forall o | o in s.utxos && s.utxos[o].state == Spent ensures o in t.utxos && t.utxos[o].state == Spent {
      assert UtxoEvolves(s.utxos[o], t.utxos[o]);
    }
  }

  lemma NewPayoutJustified(env: Env, s: State, op: Op, i: i64)
    requires i !in s.payouts && i in Step(env, s, op).payouts
    ensures PayoutJustified(Step(env, s, op), i)
  {
    hide Step;
    PayoutFrame(env, s, op, i);
  }

  /** Over every run of callers that keep the rules. */
  lemma {:induction false} RulesKeepSettled(env: Env, s: State, ops: seq<Op>)
    requires Consistent(s) && Settled(s) && RunKeepsRules(env, s, ops)
    ensures Settled(Run(env, s, ops)) && Consistent(Run(env, s, ops))
    decreases |ops|
  {
    if ops == [] {
    } else {
      var t := Step(env, s, ops[0]);
      StepGood(env, s, ops[0]);
      forall i | i in t.withdrawals ensures StateJustified(t, i) {
        StepKeepsState(env, s, ops[0], i);
      }
      forall i | i in t.payouts ensures PayoutJustified(t, i) {
        if i in s.payouts { StepKeepsPayout(env, s, ops[0], i); } else { NewPayoutJustified(env, s, ops[0], i); }
      }
      RulesKeepSettled(env, t, ops[1..]);
    }
  }

  /** So a completed withdrawal was paid its burned amount by a signed
      payout, out of coins that are spent, and no other payout of any
      withdrawal names one of those coins. */
  lemma CompletedWasPaidOnce(env: Env, ops: seq<Op>, i: i64)
    requires RunKeepsRules(env, EMPTY, ops)
    requires var t := Run(env, EMPTY, ops); i in t.withdrawals && t.withdrawals[i].state == Completed
    ensures var t := Run(env, EMPTY, ops);
            && i in t.payouts && t.payouts[i].signed.Some?
            && t.payouts[i].terms.payout == t.withdrawals[i].amount
            && t.payouts[i].terms.inputs != [] && InputsSpent(t, i)
            && (forall j :: j in t.payouts && j != i ==> Disjoint(t.payouts[i].terms.inputs, t.payouts[j].terms.inputs))
  {
    RulesKeepSettled(env, EMPTY, ops);
    assert StateJustified(Run(env, EMPTY, ops), i);
    assert PayoutJustified(Run(env, EMPTY, ops), i);
  }

  // ------------------------------------------------ the weakest such rules

  /** When recording a signature leaves the tables justified: it is the
      second one, which changes nothing about the payout, or it signs a
      payout of the burned amount out of coins it holds. */
  predicate MaySign(s: State, i: i64) {
    i in s.withdrawals ==>
      && i in s.payouts
      && var p := s.payouts[i];
      p.signed.Some? || (p.terms.payout == s.withdrawals[i].amount && p.terms.inputs != [] && HoldsInputs(s, i))
  }

  /** When a completion does: the payout is signed, or there is nothing to complete. */
  predicate MayComplete(s: State, i: i64) { i in s.payouts && i in s.withdrawals ==> s.payouts[i].signed.Some? }

  /** When a plain transition does: it is refused, or it claims no payment
      that was not made. */
  predicate MayMoveTo(s: State, i: i64, to: WState) {
    i in s.withdrawals && (s.withdrawals[i].state == to || MayTransitionTo(s.withdrawals[i].state, to)) ==>
      && (ClaimsPayment(to) ==> i in s.payouts && s.payouts[i].signed.Some?)
      && (to == Completed ==> i in s.payouts && s.payouts[i].completedAt.Some?)
  }

  lemma SettledAt(s: State, i: i64)
    requires Settled(s)
    ensures i in s.withdrawals ==> StateJustified(s, i)
    ensures i in s.payouts ==> PayoutJustified(s, i)
  {
  }

  lemma SigningExactly(s: State, i: i64, hex: string, txid: Hash32, at: i64)
    requires Consistent(s) && Settled(s)
    ensures Settled(RecordSigned(s, i, hex, txid, at).0) <==> MaySign(s, i)
  {
    hide Settled, Consistent;
    var t := RecordSigned(s, i, hex, txid, at).0;
    SettledAt(s, i);
    if i in s.withdrawals {
      if Settled(t) {
        SettledAt(t, i);
        assert HoldsInputs(t, i) ==> HoldsInputs(s, i);
      } else if MaySign(s, i) {
        assert HoldsInputs(s, i) ==> HoldsInputs(t, i);
        SettledFrame(s, t, i);
      }
    }
  }

  lemma CompletingExactly(s: State, i: i64, at: i64)
    requires Consistent(s) && Settled(s)
    ensures Settled(CompletePayout(s, i, at).0) <==> MayComplete(s, i)
  {
    hide Settled, Consistent;
    if i in s.payouts && i in s.withdrawals {
      if MayComplete(s, i) {
        OneStepKeepsSettled(Env(_ => ZERO32, _ => None), s, Complete(i, at));
      } else if Settled(CompletePayout(s, i, at).0) {
        SettledAt(CompletePayout(s, i, at).0, i);
      }
    }
  }

  lemma MovingExactly(s: State, i: i64, to: WState, at: i64, reason: Option<string>)
    requires Consistent(s) && Settled(s)
    ensures Settled(TransitionWithdrawal(s, i, to, at, reason).0) <==> MayMoveTo(s, i, to)
  {
    hide Settled, Consistent, MayTransitionTo, PayoutJustified;
    var t := TransitionWithdrawal(s, i, to, at, reason).0;
    SettledAt(s, i);
    if i in s.withdrawals && (s.withdrawals[i].state == to || MayTransitionTo(s.withdrawals[i].state, to)) {
      MovedTo(s, i, to, at, reason);
      hide TransitionWithdrawal;
      if Settled(t) {
        SettledAt(t, i);
      } else if MayMoveTo(s, i, to) {
        SamePayout(s, t, i);
        SettledFrame(s, t, i);
      }
    }
  }

  lemma MovedTo(s: State, i: i64, to: WState, at: i64, reason: Option<string>)
    requires i in s.withdrawals && (s.withdrawals[i].state == to || MayTransitionTo(s.withdrawals[i].state, to))
    ensures var t := TransitionWithdrawal(s, i, to, at, reason).0;
            && t.payouts == s.payouts && t.utxos == s.utxos && t.withdrawals.Keys == s.withdrawals.Keys
            && t.withdrawals[i].state == to && t.withdrawals[i].amount == s.withdrawals[i].amount
            && forall j :: j in s.withdrawals && j != i ==> t.withdrawals[j] == s.withdrawals[j]
  {
    hide MayTransitionTo;
  }

  lemma SamePayout(s: State, t: State, i: i64)
    requires t.payouts == s.payouts && t.utxos == s.utxos && t.withdrawals.Keys == s.withdrawals.Keys
    requires i in s.withdrawals ==> t.withdrawals[i].amount == s.withdrawals[i].amount
    ensures i in s.payouts ==> (PayoutJustified(s, i) <==> PayoutJustified(t, i))
  {
  }

  lemma SameCoins(s: State, t: State, i: i64)
    requires t.utxos == s.utxos && i in s.payouts && i in t.payouts && t.payouts[i] == s.payouts[i]
    requires t.withdrawals.Keys == s.withdrawals.Keys && (i in s.withdrawals ==> t.withdrawals[i].amount == s.withdrawals[i].amount)
    requires PayoutJustified(s, i)
    ensures PayoutJustified(t, i)
  {
  }

  /** Tables that differ from settled ones only in one withdrawal's state and
      its payout's signature are settled if that withdrawal is justified. */
  lemma SettledFrame(s: State, t: State, i: i64)
    requires Consistent(s) && Settled(s) && t.utxos == s.utxos
    requires t.withdrawals.Keys == s.withdrawals.Keys && t.payouts.Keys == s.payouts.Keys
    requires forall j :: j in s.withdrawals ==> t.withdrawals[j].amount == s.withdrawals[j].amount
    requires forall j :: j in s.withdrawals && j != i ==> t.withdrawals[j] == s.withdrawals[j]
    requires forall j :: j in s.payouts && j != i ==> t.payouts[j] == s.payouts[j]
    requires i in t.withdrawals ==> StateJustified(t, i)
    requires i in t.payouts ==> PayoutJustified(t, i)
    ensures Settled(t)
  {
    hide Consistent, PayoutJustified;
    forall j | j in t.withdrawals ensures StateJustified(t, j) {
      assert StateJustified(s, j);
    }
    forall j | j in t.payouts ensures PayoutJustified(t, j) {
      assert PayoutJustified(s, j);
      if j != i {
        SameCoins(s, t, j);
      }
    }
  }

  lemma OneStepKeepsSettled(env: Env, s: State, op: Op)
    requires Consistent(s) && Settled(s) && KeepsRules(env, s, op)
    ensures Settled(Step(env, s, op))
  {
    hide Consistent, Settled, Step, KeepsRules;
    OneStepRun(env, s, op);
    assert RunKeepsRules(env, Step(env, s, op), []);
    assert RunKeepsRules(env, s, [op]);
    RulesKeepSettled(env, s, [op]);
  }

  /** The weakest rule for each operation. Only three operations have one. */
  predicate Harmless(s: State, op: Op) {
    match op
    case Signed(i, _, _, _) => MaySign(s, i)
    case Complete(i, _) => MayComplete(s, i)
    case Transition(i, to, _, _) => MayMoveTo(s, i, to)
    case _ => true
  }

  /** An operation keeps every payment claim justified exactly when it is
      harmless, so nothing less than these rules will do. */
  lemma HarmlessExactly(env: Env, s: State, op: Op)
    requires Consistent(s) && Settled(s)
    ensures Settled(Step(env, s, op)) <==> Harmless(s, op)
  {
    hide Consistent, Settled, MaySign, MayComplete, MayMoveTo;
    match op {
      case Signed(i, hex, txid, at) => SigningExactly(s, i, hex, txid, at);
      case Complete(i, at) => CompletingExactly(s, i, at);
      case Transition(i, to, at, reason) => MovingExactly(s, i, to, at, reason);
      case _ => OneStepKeepsSettled(env, s, op);
    }
  }

  predicate RunHarmless(env: Env, s: State, ops: seq<Op>)
    decreases |ops|
  {
    ops == [] || (Harmless(s, ops[0]) && RunHarmless(env, Step(env, s, ops[0]), ops[1..]))
  }

  /** So every run of harmless operations keeps them justified, whoever
      performs it. */
  lemma {:induction false} HarmlessRunsKeepSettled(env: Env, s: State, ops: seq<Op>)
    requires Consistent(s) && Settled(s) && RunHarmless(env, s, ops)
    ensures Consistent(Run(env, s, ops)) && Settled(Run(env, s, ops))
    decreases |ops|
  {
    hide Consistent, Settled, Step, Harmless;
    if ops != [] {
      HarmlessExactly(env, s, ops[0]);
      assert Consistent(Step(env, s, ops[0])) by { StepGood(env, s, ops[0]); }
      HarmlessRunsKeepSettled(env, Step(env, s, ops[0]), ops[1..]);
    }
  }

  /** In particular the store records a signature, and claims a broadcast,
      for a withdrawal whose guard just refused. */
  lemma SigningUncheckedBreaksSettled(env: Env, s: State, i: i64, hex: string, txid: Hash32, at: i64)
    requires i in s.withdrawals && i !in s.payouts
    ensures VerifyAndLoad(env, s, i, at).1.Err?
    ensures !Settled(RecordSigned(s, i, hex, txid, at).0)
  {
    assert !StateJustified(RecordSigned(s, i, hex, txid, at).0, i);
  }

  // ------------------------------------------------------- canonical intents

  /** Payouts are built over at least one coin and carry the canonical intent
      of their own row; so does every reassigned designation. */
  predicate StoresCanonical(env: Env, s: State, op: Op) {
    match op
    case Create(p) =>
      p.terms.inputs != []
      && (p.index in s.withdrawals ==> Canonical(env, s.withdrawals[p.index], p.index, p.terms, p.designation))
    case Reassign(i, next, _, _) =>
      i in s.payouts && i in s.withdrawals && s.payouts[i].designation.attempt < 0xFFFF_FFFF ==>
        Canonical(env, s.withdrawals[i], i, s.payouts[i].terms, next.(attempt := s.payouts[i].designation.attempt + 1))
    case _ => true
  }

  predicate RunStoresCanonical(env: Env, s: State, ops: seq<Op>)
    decreases |ops|
  {
    ops == [] || (StoresCanonical(env, s, ops[0]) && RunStoresCanonical(env, Step(env, s, ops[0]), ops[1..]))
  }

  ghost predicate AllCanonical(env: Env, s: State) {
    forall i :: i in s.payouts ==>
      && i in s.withdrawals && s.payouts[i].terms.inputs != []
      && Canonical(env, s.withdrawals[i], i, s.payouts[i].terms, s.payouts[i].designation)
  }

  lemma CanonicalSameRequest(env: Env, v: Withdrawal, w: Withdrawal, i: i64, t: Terms, d: Designation)
    requires SameRequest(v, w)
    ensures Canonical(env, v, i, t, d) <==> Canonical(env, w, i, t, d)
  {
  }

  lemma StepKeepsCanonical(env: Env, s: State, op: Op, i: i64)
    requires Consistent(s) && StoresCanonical(env, s, op)
    requires i in s.payouts ==>
               && i in s.withdrawals && s.payouts[i].terms.inputs != []
               && Canonical(env, s.withdrawals[i], i, s.payouts[i].terms, s.payouts[i].designation)
    requires i in Step(env, s, op).payouts && (i in s.payouts ==> i in s.withdrawals)
    ensures var t := Step(env, s, op);
            && i in t.withdrawals && t.payouts[i].terms.inputs != []
            && Canonical(env, t.withdrawals[i], i, t.payouts[i].terms, t.payouts[i].designation)
  {
    hide Step, Consistent, Canonical;
    var t := Step(env, s, op);
    PayoutFrame(env, s, op, i);
    WithdrawalFrame(env, s, op, i);
    CanonicalSameRequest(env, s.withdrawals[i], t.withdrawals[i], i, t.payouts[i].terms, t.payouts[i].designation);
  }

  lemma {:induction false} RunKeepsCanonical(env: Env, s: State, ops: seq<Op>)
    requires Consistent(s) && AllCanonical(env, s) && RunStoresCanonical(env, s, ops)
    ensures AllCanonical(env, Run(env, s, ops))
    decreases |ops|
  {
    if ops == [] {
    } else {
      var t := Step(env, s, ops[0]);
      StepGood(env, s, ops[0]);
      forall i | i in t.payouts
        ensures i in t.withdrawals && t.payouts[i].terms.inputs != []
                && Canonical(env, t.withdrawals[i], i, t.payouts[i].terms, t.payouts[i].designation)
      {
        StepKeepsCanonical(env, s, ops[0], i);
      }
      RunKeepsCanonical(env, t, ops[1..]);
    }
  }
}
