/** What every store operation keeps, and what no operation ever changes. */
module WithdrawalInvariants {
  import opened Bytes
  import opened Wrappers
  import opened PayoutIntent
  import opened WithdrawalStore

  // ------------------------------------------------------------ consistency

  predicate UtxoOk(s: State, u: Utxo) {
    && (u.state == Reserved <==> u.reservedBy.Some?)
    && (u.reservedBy.Some? ==> u.reservedBy.value in s.withdrawals)
  }

  predicate CoinsOwnedOnce(payouts: map<i64, Payout>) {
    forall i, j, a, b ::
      && i in payouts && j in payouts
      && 0 <= a < |payouts[i].terms.inputs| && 0 <= b < |payouts[j].terms.inputs|
      && payouts[i].terms.inputs[a].outpoint == payouts[j].terms.inputs[b].outpoint
      ==> i == j && a == b
  }

  predicate HistoryBehind(payouts: map<i64, Payout>, history: seq<HistoryRow>) {
    && (forall k :: 0 <= k < |history| ==>
          history[k].index in payouts && history[k].attempt < payouts[history[k].index].designation.attempt)
    && (forall k, l :: 0 <= k < l < |history| && history[k].index == history[l].index ==>
          history[k].attempt < history[l].attempt)
  }

  predicate PdasUnique(withdrawals: map<i64, Withdrawal>) {
    forall i, j :: i in withdrawals && j in withdrawals && withdrawals[i].pda == withdrawals[j].pda ==> i == j
  }

  /** The schema's own constraints, as facts about the tables. */
  ghost predicate Consistent(s: State) {
    && (forall o :: o in s.utxos ==> UtxoOk(s, s.utxos[o]))
    && s.payouts.Keys <= s.withdrawals.Keys
    && PdasUnique(s.withdrawals)
    && CoinsOwnedOnce(s.payouts)
    && HistoryBehind(s.payouts, s.history)
  }

  lemma PayoutsAreRequested(s: State)
    requires Consistent(s)
    ensures s.payouts.Keys <= s.withdrawals.Keys
  {
  }

  // -------------------------------------------------------------- evolution

  predicate SameRequest(v: Withdrawal, w: Withdrawal) {
    w == v.(state := w.state, failureReason := w.failureReason)
  }

  /** Terms never change; a designation changes only by moving to a later
      attempt, and not at all once the payout is signed; the signed bytes and
      their txid are written once; a completion is never withdrawn. */
  predicate PayoutEvolves(p: Payout, q: Payout) {
    && q.terms == p.terms
    && p.designation.attempt <= q.designation.attempt
    && (p.designation.attempt == q.designation.attempt ==> p.designation == q.designation)
    && (p.signed.Some? ==> q.signed == p.signed && q.designation == p.designation)
    && (p.completedAt.Some? ==> q.completedAt.Some?)
  }

  predicate UtxoEvolves(u: Utxo, v: Utxo) {
    && v.amount == u.amount && v.script == u.script
    && (u.state == Spent ==> v.state == Spent)
  }

  ghost predicate PayoutsEvolve(before: map<i64, Payout>, after: map<i64, Payout>) {
    forall i :: i in before ==> i in after && PayoutEvolves(before[i], after[i])
  }

  ghost predicate RequestsKept(before: map<i64, Withdrawal>, after: map<i64, Withdrawal>) {
    forall i :: i in before ==> i in after && SameRequest(before[i], after[i])
  }

  ghost predicate UtxosEvolve(before: map<Outpoint, Utxo>, after: map<Outpoint, Utxo>) {
    forall o :: o in before ==> o in after && UtxoEvolves(before[o], after[o])
  }

  ghost predicate Evolves(s: State, t: State) {
    && RequestsKept(s.withdrawals, t.withdrawals)
    && PayoutsEvolve(s.payouts, t.payouts)
    && UtxosEvolve(s.utxos, t.utxos)
    && s.history <= t.history
    && s.log <= t.log
  }

  lemma EvolvesTransitive(s: State, t: State, u: State)
    requires Evolves(s, t) && Evolves(t, u)
    ensures Evolves(s, u)
  {
    forall i | i in s.payouts ensures i in u.payouts && PayoutEvolves(s.payouts[i], u.payouts[i]) {
      assert PayoutEvolves(s.payouts[i], t.payouts[i]) && PayoutEvolves(t.payouts[i], u.payouts[i]);
    }
    forall i | i in s.withdrawals ensures i in u.withdrawals && SameRequest(s.withdrawals[i], u.withdrawals[i]) {
      assert SameRequest(s.withdrawals[i], t.withdrawals[i]) && SameRequest(t.withdrawals[i], u.withdrawals[i]);
    }
    forall o | o in s.utxos ensures o in u.utxos && UtxoEvolves(s.utxos[o], u.utxos[o]) {
      assert UtxoEvolves(s.utxos[o], t.utxos[o]) && UtxoEvolves(t.utxos[o], u.utxos[o]);
    }
  }

  // ----------------------------------------------- step by step preservation

  ghost predicate Good(s: State, t: State) { Consistent(t) && Evolves(s, t) }

  lemma NothingDone(s: State)
    requires Consistent(s)
    ensures Good(s, s)
  {
    hide PdasUnique, CoinsOwnedOnce, HistoryBehind, UtxoOk;
  }

  lemma StatusKeepsPdas(s: State, i: i64, to: WState, reason: Option<string>)
    requires PdasUnique(s.withdrawals) && i in s.withdrawals
    ensures PdasUnique(SetState(s, i, to, reason).withdrawals)
  {
  }

  /** Operations that touch only lifecycle states and the log. */
  lemma StatusOnly(s: State, i: i64, to: WState, reason: Option<string>, row: LogRow)
    requires Consistent(s) && i in s.withdrawals
    ensures Good(s, Logged(SetState(s, i, to, reason), row))
  {
    hide PdasUnique, CoinsOwnedOnce, HistoryBehind;
    StatusKeepsPdas(s, i, to, reason);
  }

  lemma TermsKeepCoins(before: map<i64, Payout>, after: map<i64, Payout>)
    requires CoinsOwnedOnce(before) && after.Keys == before.Keys
    requires forall i :: i in before ==> after[i].terms == before[i].terms
    ensures CoinsOwnedOnce(after)
  {
  }

  /** Operations that touch only one payout row, without its inputs. */
  lemma PayoutOnly(s: State, i: i64, q: Payout)
    requires Consistent(s) && i in s.payouts && PayoutEvolves(s.payouts[i], q)
    ensures Good(s, UpdatePayout(s, i, q))
  {
    hide PdasUnique, CoinsOwnedOnce;
    TermsKeepCoins(s.payouts, UpdatePayout(s, i, q).payouts);
  }

  /** Operations that touch only the coin table. */
  lemma CoinsOnly(s: State, utxos: map<Outpoint, Utxo>)
    requires Consistent(s)
    requires forall o :: o in utxos ==> UtxoOk(s, utxos[o])
    requires forall o :: o in s.utxos ==> o in utxos && UtxoEvolves(s.utxos[o], utxos[o])
    ensures Good(s, s.(utxos := utxos))
  {
    hide PdasUnique, CoinsOwnedOnce, HistoryBehind, UtxoEvolves;
  }

  lemma InsertKeepsPdas(s: State, i: i64, w: Withdrawal)
    requires PdasUnique(s.withdrawals) && !PdaTaken(s, w.pda)
    ensures PdasUnique(s.withdrawals[i := w])
  {
  }

  lemma InsertGood(s: State, i: i64, w: Withdrawal, row: LogRow)
    requires Consistent(s) && i !in s.withdrawals && !PdaTaken(s, w.pda)
    ensures Good(s, s.(withdrawals := s.withdrawals[i := w], log := s.log + [row]))
  {
    InsertKeepsPdas(s, i, w);
    hide PdasUnique, CoinsOwnedOnce, HistoryBehind, PdaTaken;
  }

  lemma ObserveGood(s: State, w: NewWithdrawal)
    requires Consistent(s)
    ensures Good(s, ObserveWithdrawal(s, w).0)
  {
    hide Consistent, Evolves, PdaTaken;
    NothingDone(s);
    var t := ObserveWithdrawal(s, w).0;
    if t != s {
      InsertGood(s, w.index, t.withdrawals[w.index], t.log[|s.log|]);
    }
  }

  lemma {:induction false} SyncGood(s: State, observed: seq<ObservedUtxo>, min: i64, at: i64)
    requires Consistent(s)
    ensures Good(s, SyncVaultUtxos(s, observed, min, at))
  {
    if observed == [] {
    } else {
      var last := |observed| - 1;
      var before := SyncAll(s.utxos, observed[..last], min, at);
      SyncGood(s, observed[..last], min, at);
      assert before == SyncVaultUtxos(s, observed[..last], min, at).utxos;
      CoinsOnly(s, SyncOne(before, observed[last], min, at));
    }
  }

  lemma MarkMissingGood(s: State, present: seq<Hash32>)
    requires Consistent(s)
    ensures Good(s, MarkMissingSpent(s, present).0)
  {
    hide PdasUnique;
    forall o | o in Missing(s, present) ensures s.utxos[o].reservedBy == None {
      assert UtxoOk(s, s.utxos[o]);
    }
    CoinsOnly(s, MarkMissingSpent(s, present).0.utxos);
  }

  lemma ReserveGood(s: State, i: i64, outs: seq<Outpoint>, at: i64)
    requires Consistent(s)
    ensures Good(s, ReserveUtxos(s, i, outs, at).0)
  {
    hide PdasUnique;
    if ReserveUtxos(s, i, outs, at).1 {
      CoinsOnly(s, Hold(s.utxos, outs, i, at));
    }
  }

  lemma ReleaseGood(s: State, i: i64)
    requires Consistent(s)
    ensures Good(s, ReleaseReservation(s, i).0)
  {
    hide PdasUnique;
    if i !in s.payouts {
      CoinsOnly(s, ReleaseReservation(s, i).0.utxos);
    }
  }

  lemma CreateGood(s: State, p: NewPayout)
    requires Consistent(s)
    ensures Good(s, CreatePayout(s, p).0)
  {
    hide PdasUnique;
    if Creatable(s, p) {
      var t := CreatePayout(s, p).0;
      var outs := Outpoints(p.terms.inputs);
      forall j, b | j in s.payouts && 0 <= b < |s.payouts[j].terms.inputs|
        ensures Committed(s, s.payouts[j].terms.inputs[b].outpoint)
      {
        assert Commits(s.payouts[j], s.payouts[j].terms.inputs[b].outpoint);
      }
      forall i, j, a, b |
        && i in t.payouts && j in t.payouts
        && 0 <= a < |t.payouts[i].terms.inputs| && 0 <= b < |t.payouts[j].terms.inputs|
        && t.payouts[i].terms.inputs[a].outpoint == t.payouts[j].terms.inputs[b].outpoint
        ensures i == j && a == b
      {
        if i == p.index && j == p.index {
          assert outs[a] == outs[b];
        }
      }
    }
  }

  lemma SignedGood(s: State, i: i64, hex: string, txid: Hash32, at: i64)
    requires Consistent(s)
    ensures Good(s, RecordSigned(s, i, hex, txid, at).0)
  {
    NothingDone(s);
    hide PdasUnique, CoinsOwnedOnce, HistoryBehind;
    if i in s.withdrawals {
      if i in s.payouts && s.payouts[i].signed == None {
        var q := s.payouts[i].(signed := Some(SignedTx(hex, txid, at)));
        PayoutOnly(s, i, q);
        var t := UpdatePayout(s, i, q);
        var row := Plain(i, Some(Signing), Broadcast, at, Some("signed"));
        StatusOnly(t, i, Broadcast, None, row);
        EvolvesTransitive(s, t, Logged(SetState(t, i, Broadcast, None), row));
      } else {
        StatusOnly(s, i, Broadcast, None, Plain(i, Some(Signing), Broadcast, at, Some("signed")));
      }
    }
  }

  lemma CompleteGood(s: State, i: i64, at: i64)
    requires Consistent(s)
    ensures Good(s, CompletePayout(s, i, at).0)
  {
    NothingDone(s);
    hide PdasUnique, CoinsOwnedOnce, HistoryBehind;
    if i in s.payouts && i in s.withdrawals {
      var q := s.payouts[i].(completedAt := Some(at));
      PayoutOnly(s, i, q);
      var t := UpdatePayout(s, i, q);
      var u := CompletePayout(s, i, at).0.utxos;
      CoinsOnly(t, u);
      EvolvesTransitive(s, t, t.(utxos := u));
      var row := Plain(i, Some(Confirming), Completed, at, Some("payout confirmed at required depth"));
      StatusOnly(t.(utxos := u), i, Completed, None, row);
      EvolvesTransitive(s, t.(utxos := u), CompletePayout(s, i, at).0);
    }
  }

  /** The current attempt is never in the history yet, so the history's
      uniqueness constraint never rejects a reassignment. */
  lemma CurrentAttemptUnrecorded(s: State, i: i64)
    requires Consistent(s) && i in s.payouts
    ensures !Recorded(s, i, s.payouts[i].designation.attempt)
  {
  }

  lemma ReassignGood(s: State, i: i64, next: Designation, reason: string, at: i64)
    requires Consistent(s)
    ensures Good(s, ReassignQuorum(s, i, next, reason, at).0)
  {
    hide Consistent, Evolves;
    NothingDone(s);
    var (t, r) := ReassignQuorum(s, i, next, reason, at);
    if r.Ok? {
      var p := s.payouts[i];
      DesignationGood(s, i, next.(attempt := p.designation.attempt + 1),
                      HistoryRow(i, p.designation.attempt, p.designation.quorum, p.designation.commitment, at, reason),
                      t.log[|s.log|]);
    }
  }

  lemma DesignationGood(s: State, i: i64, d: Designation, last: HistoryRow, row: LogRow)
    requires Consistent(s) && i in s.payouts && s.payouts[i].signed == None
    requires last.index == i && last.attempt == s.payouts[i].designation.attempt < d.attempt
    ensures Good(s, Logged(UpdatePayout(s, i, s.payouts[i].(designation := d)).(history := s.history + [last]), row))
  {
    hide PdasUnique, CoinsOwnedOnce, HistoryBehind, PayoutsEvolve;
    var q := s.payouts[i].(designation := d);
    PayoutOnly(s, i, q);
    HistoryGrows(s, i, q, last);
  }

  lemma HistoryGrows(s: State, i: i64, q: Payout, row: HistoryRow)
    requires HistoryBehind(s.payouts, s.history) && i in s.payouts && row.index == i
    requires row.attempt == s.payouts[i].designation.attempt < q.designation.attempt
    ensures HistoryBehind(s.payouts[i := q], s.history + [row])
  {
  }

  lemma GuardGood(env: Env, s: State, i: i64, at: i64)
    requires Consistent(s)
    ensures Good(s, VerifyAndLoad(env, s, i, at).0)
  {
    hide Consistent, Evolves;
    NothingDone(s);
    var v := Judge(env, s, i);
    if v.Halt? {
      StatusOnly(s, i, IntegrityHalted, Some(v.reason),
                 LogRow(i, Some(s.withdrawals[i].state), IntegrityHalted, at, Some(v.reason), v.expected, v.recomputed, v.differing));
    }
  }

  lemma TransitionGood(s: State, i: i64, to: WState, at: i64, reason: Option<string>)
    requires Consistent(s)
    ensures Good(s, TransitionWithdrawal(s, i, to, at, reason).0)
  {
    hide Consistent, Evolves;
    NothingDone(s);
    if i in s.withdrawals {
      StatusOnly(s, i, to, reason, Plain(i, Some(s.withdrawals[i].state), to, at, reason));
    }
  }

  lemma ClearHaltGood(s: State, i: i64, to: WState, note: string, at: i64)
    requires Consistent(s)
    ensures Good(s, OperatorClearHalt(s, i, to, note, at).0)
  {
    hide Consistent, Evolves;
    NothingDone(s);
    if i in s.withdrawals {
      StatusOnly(s, i, to, Some(note), Plain(i, Some(IntegrityHalted), to, at, Some("operator_recovery: " + note)));
    }
  }

  lemma BroadcastGood(s: State, i: i64, at: i64)
    requires Consistent(s)
    ensures Good(s, RecordBroadcast(s, i, at))
  {
    NothingDone(s);
    hide PdasUnique, CoinsOwnedOnce, HistoryBehind;
    if i in s.payouts { PayoutOnly(s, i, s.payouts[i].(broadcastAt := Some(at))); }
  }

  lemma ConfirmationsGood(s: State, i: i64, n: i64, hash: Option<Hash32>, height: Option<i64>)
    requires Consistent(s)
    ensures Good(s, RecordConfirmations(s, i, n, hash, height))
  {
    NothingDone(s);
    hide PdasUnique, CoinsOwnedOnce, HistoryBehind;
    if i in s.payouts { PayoutOnly(s, i, RecordConfirmations(s, i, n, hash, height).payouts[i]); }
  }

  lemma OnchainGood(s: State, i: i64, signature: Option<string>, at: i64)
    requires Consistent(s)
    ensures Good(s, RecordOnchainCompletion(s, i, signature, at))
  {
    NothingDone(s);
    hide PdasUnique, CoinsOwnedOnce, HistoryBehind;
    if i in s.payouts { PayoutOnly(s, i, s.payouts[i].(onchainAt := Some(at), onchainSignature := signature)); }
  }

  lemma StepGood(env: Env, s: State, op: Op)
    requires Consistent(s)
    ensures Good(s, Step(env, s, op))
  {
    hide Consistent, Evolves, Judge, SyncAll, Missing;
    match op
    case Observe(w) => ObserveGood(s, w);
    case Transition(i, to, at, reason) => TransitionGood(s, i, to, at, reason);
    case ClearHalt(i, to, note, at) => ClearHaltGood(s, i, to, note, at);
    case Sync(observed, min, at) => SyncGood(s, observed, min, at);
    case MarkMissing(present) => MarkMissingGood(s, present);
    case Reserve(i, outs, at) => ReserveGood(s, i, outs, at);
    case Release(i) => ReleaseGood(s, i);
    case Create(p) => CreateGood(s, p);
    case Guard(i, at) => GuardGood(env, s, i, at);
    case Signed(i, hex, txid, at) => SignedGood(s, i, hex, txid, at);
    case Broadcasted(i, at) => BroadcastGood(s, i, at);
    case Confirmations(i, n, hash, height) => ConfirmationsGood(s, i, n, hash, height);
    case Complete(i, at) => CompleteGood(s, i, at);
    case Reassign(i, next, reason, at) => ReassignGood(s, i, next, reason, at);
    case OnchainCompletion(i, signature, at) => OnchainGood(s, i, signature, at);
  }

  // ------------------------------------------------- what one step can touch

  predicate IsReassign(op: Op, i: i64) { op.Reassign? && op.i == i }

  predicate IsSigned(op: Op, i: i64) { op.Signed? && op.i == i }

  predicate Completes(op: Op, i: i64) { op.Complete? && op.i == i }

  predicate IsConfirmations(op: Op, i: i64) { op.Confirmations? && op.i == i }

  /** Which operation can change which part of an existing payout row, and
      how a new row comes to be. */
  predicate PayoutChange(s: State, t: State, op: Op, i: i64) {
    && (i in s.payouts ==>
          && i in t.payouts
          && var p, q := s.payouts[i], t.payouts[i];
          && q.terms == p.terms
          && (!IsReassign(op, i) ==> q.designation == p.designation)
          && (IsReassign(op, i) && q.designation != p.designation ==>
                p.designation.attempt < 0xFFFF_FFFF
                && q.designation == op.next.(attempt := p.designation.attempt + 1))
          && (q.signed == p.signed || (IsSigned(op, i) && p.signed == None && q.signed.Some?))
          && (q.completedAt == p.completedAt || (Completes(op, i) && q.completedAt.Some?))
          && (q.confirmations == p.confirmations || (IsConfirmations(op, i) && q.confirmations == op.n)))
    && (i !in s.payouts && i in t.payouts ==>
          op.Create? && op.p.index == i && t.payouts[i] == FreshPayout(op.p) && i in s.withdrawals)
  }

  lemma PayoutFrame(env: Env, s: State, op: Op, i: i64)
    ensures PayoutChange(s, Step(env, s, op), op, i)
  {
    if op.Create? || op.Reassign? {
      DesignationsFrame(env, s, op, i);
    } else if op.Signed? || op.Complete? {
      PaymentsFrame(env, s, op, i);
    } else if op.Broadcasted? || op.Confirmations? || op.OnchainCompletion? {
      ObservationsFrame(env, s, op, i);
    } else {
      PayoutsUntouched(env, s, op);
      hide Step;
    }
  }

  lemma DesignationsFrame(env: Env, s: State, op: Op, i: i64)
    requires op.Create? || op.Reassign?
    ensures PayoutChange(s, Step(env, s, op), op, i)
  {
    hide Creatable, Recorded, Blank;
    CreatableIsNew(s, op);
  }

  lemma CreatableIsNew(s: State, op: Op)
    ensures op.Create? && Creatable(s, op.p) ==> op.p.index !in s.payouts && op.p.index in s.withdrawals
  {
  }

  lemma PaymentsFrame(env: Env, s: State, op: Op, i: i64)
    requires op.Signed? || op.Complete?
    ensures PayoutChange(s, Step(env, s, op), op, i)
  {
    hide HeldBy;
  }

  lemma ObservationsFrame(env: Env, s: State, op: Op, i: i64)
    requires op.Broadcasted? || op.Confirmations? || op.OnchainCompletion?
    ensures PayoutChange(s, Step(env, s, op), op, i)
  {
  }

  lemma PayoutsUntouched(env: Env, s: State, op: Op)
    requires !op.Create? && !op.Reassign? && !op.Signed? && !op.Complete?
    requires !op.Broadcasted? && !op.Confirmations? && !op.OnchainCompletion?
    ensures Step(env, s, op).payouts == s.payouts
  {
    hide Judge, SyncAll, Missing, Hold, HeldBy, MayTransitionTo;
  }

  /** Why a withdrawal's lifecycle state may differ after a step. */
  predicate StateMove(s: State, op: Op, i: i64, from: WState, to: WState) {
    match op
    case Transition(j, next, _, _) => j == i && to == next && (from == to || MayTransitionTo(from, to))
    case ClearHalt(j, next, _, _) => j == i && to == next && from == IntegrityHalted && to in {Validated, Failed}
    case Guard(j, _) => j == i && to == IntegrityHalted
    case Signed(j, _, _, _) => j == i && to == Broadcast
    case Complete(j, _) => j == i && to == Completed && i in s.payouts
    case _ => false
  }

  lemma WithdrawalFrame(env: Env, s: State, op: Op, i: i64)
    ensures var t := Step(env, s, op);
            && (i in s.withdrawals ==>
                  && i in t.withdrawals && SameRequest(s.withdrawals[i], t.withdrawals[i])
                  && (t.withdrawals[i].state == s.withdrawals[i].state
                      || StateMove(s, op, i, s.withdrawals[i].state, t.withdrawals[i].state)))
            && (i !in s.withdrawals && i in t.withdrawals ==>
                  op.Observe? && op.w.index == i && op == Observe(op.w) && t.withdrawals[i].state == Observed
                  && t.withdrawals[i].amount == op.w.amount)
  {
    hide JudgeCommitment, FirstProblem, SyncAll, Missing, Hold, HeldBy, MayTransitionTo;
  }

  /** Over a whole run: the tables stay consistent and only ever evolve. */
  lemma {:induction false} RunGood(env: Env, s: State, ops: seq<Op>)
    requires Consistent(s)
    ensures Good(s, Run(env, s, ops))
    decreases |ops|
  {
    if ops == [] {
    } else {
      var t := Step(env, s, ops[0]);
      StepGood(env, s, ops[0]);
      RunGood(env, t, ops[1..]);
      EvolvesTransitive(s, t, Run(env, s, ops));
    }
  }

  lemma {:induction false} RunSplit(env: Env, s: State, ops: seq<Op>, k: nat)
    requires k <= |ops|
    ensures Run(env, s, ops) == Run(env, Run(env, s, ops[..k]), ops[k..])
    decreases k
  {
    if k == 0 {
      assert ops[k..] == ops;
    } else {
      RunSplit(env, Step(env, s, ops[0]), ops[1..], k - 1);
      assert ops[..k][1..] == ops[1..][..k - 1] && ops[1..][k - 1..] == ops[k..];
    }
  }
}
