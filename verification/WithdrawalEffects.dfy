/** What each operation leaves in each column, row by row, and where every
    stored value came from: the same store read by tables instead of by
    operations. */
module WithdrawalEffects {
  import opened Bytes
  import opened Wrappers
  import opened PayoutIntent
  import opened WithdrawalStore
  import opened WithdrawalInvariants
  import opened WithdrawalRuns

  // ---------------------------------------------------------------- requests

  /** The stored request is the one observed, column by column. */
  predicate IsRequest(w: Withdrawal, n: NewWithdrawal) {
    && w.pda == n.pda && w.amount == n.amount && w.requester == n.requester && w.address == n.address
    && w.hash160 == n.hash160 && w.slot == n.slot && w.version == n.version && w.observedAt == n.observedAt
  }

  /** The observation is new: neither its index nor its account is taken. */
  predicate IsNews(s: State, n: NewWithdrawal) {
    n.index !in s.withdrawals && forall j :: j in s.withdrawals ==> s.withdrawals[j].pda != n.pda
  }

  /** A request appears exactly when a new one is observed, and then in full. */
  lemma RequestsAppear(env: Env, s: State, op: Op, i: i64)
    requires i !in s.withdrawals
    ensures var t := Step(env, s, op);
            && (i in t.withdrawals <==> op.Observe? && op.w.index == i && IsNews(s, op.w))
            && (i in t.withdrawals ==>
                  && IsRequest(t.withdrawals[i], op.w)
                  && t.withdrawals[i].state == Observed && t.withdrawals[i].failureReason == None)
  {
    if op.Observe? {
      NewsExactly(s, op.w);
      hide PdaTaken, IsNews;
    } else {
      OnlyObservationsAdd(env, s, op);
      hide Step;
    }
  }

  lemma NewsExactly(s: State, n: NewWithdrawal)
    ensures IsNews(s, n) <==> n.index !in s.withdrawals && !PdaTaken(s, n.pda)
  {
  }

  lemma OnlyObservationsAdd(env: Env, s: State, op: Op)
    requires !op.Observe?
    ensures Step(env, s, op).withdrawals.Keys == s.withdrawals.Keys
  {
    hide Step;
    forall i ensures i in Step(env, s, op).withdrawals <==> i in s.withdrawals {
      WithdrawalFrame(env, s, op, i);
    }
  }

  lemma RequestStays(w: Withdrawal, v: Withdrawal, n: NewWithdrawal)
    requires SameRequest(w, v) && IsRequest(w, n)
    ensures IsRequest(v, n)
  {
  }

  lemma LastStep(env: Env, s: State, ops: seq<Op>)
    requires ops != []
    ensures Run(env, s, ops) == Step(env, Run(env, s, ops[..|ops| - 1]), ops[|ops| - 1])
  {
    var n := |ops| - 1;
    RunSplit(env, s, ops, n);
    hide Step;
    assert ops[n..] == [ops[n]];
    assert Run(env, Run(env, s, ops[..n]), [ops[n]]) == Run(env, Step(env, Run(env, s, ops[..n]), ops[n]), []);
  }

  /** Operation `k` of the run is the observation that stored request `i`. */
  predicate ObservedBy(env: Env, ops: seq<Op>, i: i64, w: Withdrawal, k: int) {
    && 0 <= k < |ops| && ops[k].Observe? && ops[k].w.index == i && IsRequest(w, ops[k].w)
    && IsNews(Run(env, EMPTY, ops[..k]), ops[k].w)
  }

  /** Every stored request is, in every column and after any run, the one of
      its first accepted observation. */
  lemma {:induction false} RequestsAreObserved(env: Env, ops: seq<Op>, i: i64)
    requires i in Run(env, EMPTY, ops).withdrawals
    ensures exists k :: ObservedBy(env, ops, i, Run(env, EMPTY, ops).withdrawals[i], k)
    decreases |ops|
  {
    hide Step, IsRequest, SameRequest, IsNews;
    assert ops != [];
    var n := |ops| - 1;
    LastStep(env, EMPTY, ops);
    var s, t := Run(env, EMPTY, ops[..n]), Run(env, EMPTY, ops);
    hide Run;
    if i in s.withdrawals {
      RequestsAreObserved(env, ops[..n], i);
      var k :| ObservedBy(env, ops[..n], i, s.withdrawals[i], k);
      WithdrawalFrame(env, s, ops[n], i);
      RequestStays(s.withdrawals[i], t.withdrawals[i], ops[k].w);
      assert ops[..n][..k] == ops[..k];
      assert ObservedBy(env, ops, i, t.withdrawals[i], k);
    } else {
      RequestsAppear(env, s, ops[n], i);
      assert ObservedBy(env, ops, i, t.withdrawals[i], n);
    }
  }

  // --------------------------------------------------------- lifecycle column

  /** The lifecycle state and reason after the operation, by the conditions
      under which it writes them. */
  predicate LifecycleExactly(s: State, t: State, op: Op, i: i64, verdict: Verdict)
    requires i in s.withdrawals && i in t.withdrawals
  {
    var v, w := s.withdrawals[i], t.withdrawals[i];
    match op
    case Transition(j, to, _, why) =>
      if j == i && (v.state == to || MayTransitionTo(v.state, to))
      then w.state == to && w.failureReason == (if why.Some? then why else v.failureReason)
      else w == v
    case ClearHalt(j, to, note, _) =>
      if j == i && v.state == IntegrityHalted && to in {Validated, Failed} && !Blank(note)
      then w.state == to && w.failureReason == Some(note)
      else w == v
    case Guard(j, _) =>
      if j == i && verdict.Halt? then w == v.(state := IntegrityHalted, failureReason := Some(verdict.reason)) else w == v
    case Signed(j, _, _, _) => if j == i then w == v.(state := Broadcast) else w == v
    case Complete(j, _) => if j == i && i in s.payouts then w == v.(state := Completed) else w == v
    case _ => w == v
  }

  lemma LifecycleMoves(env: Env, s: State, op: Op, i: i64)
    requires i in s.withdrawals
    ensures var t := Step(env, s, op);
            && i in t.withdrawals && SameRequest(s.withdrawals[i], t.withdrawals[i])
            && LifecycleExactly(s, t, op, i, Judge(env, s, i))
  {
    if op.Transition? {
      TransitionMoves(env, s, op, i);
    } else if op.ClearHalt? {
      RecoveryMoves(env, s, op, i);
    } else if op.Guard? {
      HaltMoves(env, s, op, i);
    } else if op.Signed? {
      SignedMoves(s, i, op.i, op.hex, op.txid, op.at);
    } else if op.Complete? {
      CompletedMoves(s, i, op.i, op.at);
    } else {
      RowUntouched(env, s, op, i);
    }
    hide RecordSigned, CompletePayout, Judge, AfterVerdict;
  }

  lemma TransitionMoves(env: Env, s: State, op: Op, i: i64)
    requires i in s.withdrawals && op.Transition?
    ensures var t := Step(env, s, op);
            && i in t.withdrawals && SameRequest(s.withdrawals[i], t.withdrawals[i])
            && LifecycleExactly(s, t, op, i, Judge(env, s, i))
  {
    hide Judge, MayTransitionTo;
  }

  lemma RecoveryMoves(env: Env, s: State, op: Op, i: i64)
    requires i in s.withdrawals && op.ClearHalt?
    ensures var t := Step(env, s, op);
            && i in t.withdrawals && SameRequest(s.withdrawals[i], t.withdrawals[i])
            && LifecycleExactly(s, t, op, i, Judge(env, s, i))
  {
    hide Judge, Blank;
  }

  lemma HaltMoves(env: Env, s: State, op: Op, i: i64)
    requires i in s.withdrawals && op.Guard?
    ensures var t := Step(env, s, op);
            && i in t.withdrawals && SameRequest(s.withdrawals[i], t.withdrawals[i])
            && LifecycleExactly(s, t, op, i, Judge(env, s, i))
  {
    hide Judge;
  }

  lemma SignedMoves(s: State, i: i64, j: i64, hex: string, txid: Hash32, at: i64)
    requires i in s.withdrawals
    ensures var t := RecordSigned(s, j, hex, txid, at).0;
            i in t.withdrawals && t.withdrawals[i] == if j == i then s.withdrawals[i].(state := Broadcast) else s.withdrawals[i]
  {
  }

  lemma CompletedMoves(s: State, i: i64, j: i64, at: i64)
    requires i in s.withdrawals
    ensures var t := CompletePayout(s, j, at).0;
            && i in t.withdrawals
            && t.withdrawals[i] == if j == i && i in s.payouts then s.withdrawals[i].(state := Completed) else s.withdrawals[i]
  {
    hide HeldBy;
  }

  lemma RowUntouched(env: Env, s: State, op: Op, i: i64)
    requires i in s.withdrawals && !op.Transition? && !op.ClearHalt? && !op.Guard? && !op.Signed? && !op.Complete?
    ensures i in Step(env, s, op).withdrawals && Step(env, s, op).withdrawals[i] == s.withdrawals[i]
  {
    hide SyncAll, Missing, Hold, HeldBy, Creatable, Recorded, Blank, PdaTaken;
  }

  /** What is wrong with a committed coin, and the name of it. */
  predicate CoinFault(s: State, i: i64, c: Coin, reason: string) {
    || (reason == "reserved_utxo_no_longer_exists" && c.outpoint !in s.utxos)
    || (c.outpoint in s.utxos && var u := s.utxos[c.outpoint];
        || (reason == "reserved_utxo_not_reserved" && u.state != Reserved)
        || (reason == "reservation_belongs_to_another_withdrawal" && u.state == Reserved && u.reservedBy != Some(i))
        || (reason == "reserved_utxo_amount_changed" && Held(s, i, c) && u.amount != c.amount))
  }

  /** Coin `k` is the first that does not back the payout. */
  predicate FirstFault(s: State, i: i64, coins: seq<Coin>, k: int, reason: string) {
    0 <= k < |coins| && CoinFault(s, i, coins[k], reason) && Backed(s, i, coins[..k])
  }

  predicate CommitmentBroken(env: Env, d: Designation) { env.sha(d.intent) != d.commitment }

  predicate IntentBroken(env: Env, s: State, i: i64)
    requires i in s.withdrawals && i in s.payouts
  {
    var p := s.payouts[i];
    ChangeHash(env, p.terms).Some?
    && p.designation.intent != Encode(IntentOf(s.withdrawals[i], i, p.terms, ChangeHash(env, p.terms).value, p.designation))
  }

  /** The reason a guard halts for says which check is the first to fail. */
  ghost predicate NamesFault(env: Env, s: State, i: i64, v: Verdict)
    requires i in s.withdrawals && i in s.payouts && v.Halt?
  {
    var p := s.payouts[i];
    var sound := Unsent(p) && p.terms.inputs != [] && Backed(s, i, p.terms.inputs) && ChangeHash(env, p.terms).Some?;
    || (v.reason == "payout_already_completed" && p.completedAt.Some?)
    || (v.reason == "payout_already_confirmed" && p.completedAt == None && p.confirmations > 0)
    || (v.reason == "payout_already_signed" && p.completedAt == None && p.confirmations <= 0 && p.signed.Some?)
    || (v.reason == "payout_has_no_committed_inputs" && Unsent(p) && p.terms.inputs == [])
    || (Unsent(p) && exists k :: FirstFault(s, i, p.terms.inputs, k, v.reason))
    || (v.reason == "payout_commitment_self_inconsistent" && sound && CommitmentBroken(env, p.designation)
        && v.expected == Some(p.designation.commitment) && v.recomputed == Some(env.sha(p.designation.intent)))
    || (v.reason == "payout_commitment_mismatch" && sound && !CommitmentBroken(env, p.designation) && IntentBroken(env, s, i)
        && v.expected == Some(p.designation.commitment))
    || (v.reason == "payout_amount_not_equal_to_burned_amount" && sound && !CommitmentBroken(env, p.designation)
        && !IntentBroken(env, s, i) && p.terms.payout != s.withdrawals[i].amount)
  }

  lemma {:induction false} ProblemIsFirst(s: State, i: i64, coins: seq<Coin>)
    ensures FirstProblem(s.utxos, i, coins).Some? ==> exists k :: FirstFault(s, i, coins, k, FirstProblem(s.utxos, i, coins).value)
  {
    if coins != [] {
      var problem := FirstProblem(s.utxos, i, coins);
      if InputProblem(s.utxos, i, coins[0]).Some? {
        assert FirstFault(s, i, coins, 0, problem.value);
      } else if problem.Some? {
        ProblemIsFirst(s, i, coins[1..]);
        var k :| FirstFault(s, i, coins[1..], k, problem.value);
        assert coins[..k + 1] == [coins[0]] + coins[1..][..k];
        assert FirstFault(s, i, coins, k + 1, problem.value);
      }
    }
  }

  lemma HaltNamesTheFault(env: Env, s: State, i: i64)
    requires Judge(env, s, i).Halt?
    ensures i in s.withdrawals && i in s.payouts && NamesFault(env, s, i, Judge(env, s, i))
  {
    if i in s.withdrawals && i in s.payouts {
      var coins := s.payouts[i].terms.inputs;
      ProblemIsFirst(s, i, coins);
      NoProblemIsBacked(s, i, coins);
      hide FirstFault, FirstProblem, Backed, Encode, DiffPayoutFields, IntentOf;
    }
  }

  lemma NoProblemIsBacked(s: State, i: i64, coins: seq<Coin>)
    ensures FirstProblem(s.utxos, i, coins) == None <==> Backed(s, i, coins)
  {
    forall k | 0 <= k < |coins|
      ensures InputProblem(s.utxos, i, coins[k]).None? <==> Held(s, i, coins[k]) && s.utxos[coins[k].outpoint].amount == coins[k].amount
    {
    }
    hide InputProblem, Held;
  }

  // ---------------------------------------------------------------- refusals

  /** Which error a refused move, recovery or reassignment answers with, by what
      is wrong first. */
  lemma MoveRefusals(s: State, i: i64, to: WState, at: i64, reason: Option<string>)
    ensures var e := TransitionWithdrawal(s, i, to, at, reason).1;
            && (e == Some(WithdrawalNotFound) <==> i !in s.withdrawals)
            && (e == Some(IllegalTransition) <==>
                  i in s.withdrawals && s.withdrawals[i].state != to && !MayTransitionTo(s.withdrawals[i].state, to))
            && (e.Some? ==> e.value in {WithdrawalNotFound, IllegalTransition})
  {
    hide MayTransitionTo;
  }

  predicate IsSpace(c: char) { c == ' ' || c == '\t' || c == '\n' || c == '\r' }

  /** The note says something. */
  predicate Says(note: string) { exists k :: 0 <= k < |note| && !IsSpace(note[k]) }

  lemma BlankSaysNothing(note: string)
    ensures Blank(note) <==> !Says(note)
  {
    if !Blank(note) {
      var c :| c in note && c !in {' ', '\t', '\n', '\r'};
      var k :| 0 <= k < |note| && note[k] == c;
    } else {
      assert forall k :: 0 <= k < |note| ==> note[k] in note;
    }
  }

  lemma RecoveryRefusals(s: State, i: i64, to: WState, note: string, at: i64)
    ensures var e := OperatorClearHalt(s, i, to, note, at).1;
            var target := to == Validated || to == Failed;
            && (e == Some(OperatorNoteRequired) <==> !Says(note))
            && (e == Some(InvalidRecoveryTarget) <==> Says(note) && !target)
            && (e == Some(WithdrawalNotFound) <==> Says(note) && target && i !in s.withdrawals)
            && (e == Some(NotIntegrityHalted) <==>
                  Says(note) && target && i in s.withdrawals && s.withdrawals[i].state != IntegrityHalted)
            && (e == None <==> Says(note) && target && i in s.withdrawals && s.withdrawals[i].state == IntegrityHalted)
  {
    BlankSaysNothing(note);
    hide Blank, Says;
  }

  lemma ReassignRefusals(s: State, i: i64, next: Designation, reason: string, at: i64)
    requires Consistent(s)
    ensures var r := ReassignQuorum(s, i, next, reason, at).1;
            && (r == Err(OperatorNoteRequired) <==> !Says(reason))
            && (r == Err(MissingPayout) <==> Says(reason) && i !in s.payouts)
            && (r == Err(ReservationInvalid) <==>
                  && Says(reason) && i in s.payouts
                  && (s.payouts[i].signed.Some? || s.payouts[i].designation.attempt == 0xFFFF_FFFF))
            && (r.Err? ==> r.error in {OperatorNoteRequired, MissingPayout, ReservationInvalid})
  {
    BlankSaysNothing(reason);
    if i in s.payouts {
      CurrentAttemptUnrecorded(s, i);
    }
    hide Consistent, Blank, Says, Recorded;
  }

  /** And which one the guard answers with. */
  lemma GuardRefusals(env: Env, s: State, i: i64, at: i64)
    requires i in s.withdrawals && i in s.payouts
    ensures var r, p := VerifyAndLoad(env, s, i, at).1, s.payouts[i];
            && (r == Err(PayoutAlreadyCompleted) <==> p.completedAt.Some?)
            && (r == Err(PayoutAlreadyConfirmed) <==> p.completedAt == None && (p.confirmations > 0 || p.signed.Some?))
            && (r == Err(ReservationInvalid) <==> Unsent(p) && (p.terms.inputs == [] || !Backed(s, i, p.terms.inputs)))
            && (r == Err(PayoutIntegrityMismatch) <==>
                  && Unsent(p) && p.terms.inputs != [] && Backed(s, i, p.terms.inputs)
                  && !(Canonical(env, s.withdrawals[i], i, p.terms, p.designation) && p.terms.payout == s.withdrawals[i].amount))
            && (r.Err? ==> r.error in {PayoutAlreadyCompleted, PayoutAlreadyConfirmed, ReservationInvalid, PayoutIntegrityMismatch})
  {
    NoProblemIsBacked(s, i, s.payouts[i].terms.inputs);
    hide FirstProblem, Backed, Encode, DiffPayoutFields, LoadInputs;
  }

  // ----------------------------------------------------------- payout columns

  predicate Broadcasts(op: Op, i: i64) { op.Broadcasted? && op.i == i }

  predicate Completion(op: Op, i: i64) { op.OnchainCompletion? && op.i == i }

  /** Every column of a payout row after the operation but its designation. */
  predicate PayoutExactly(s: State, q: Payout, op: Op, i: i64)
    requires i in s.payouts
  {
    var p := s.payouts[i];
    && q.terms == p.terms
    && q.signed == (if IsSigned(op, i) && i in s.withdrawals && p.signed == None then Some(SignedTx(op.hex, op.txid, op.at)) else p.signed)
    && q.broadcastAt == (if Broadcasts(op, i) && p.broadcastAt == None then Some(op.at) else p.broadcastAt)
    && q.confirmations == (if IsConfirmations(op, i) then op.n else p.confirmations)
    && q.minedHash == (if IsConfirmations(op, i) && op.hash.Some? then op.hash else p.minedHash)
    && q.minedHeight == (if IsConfirmations(op, i) && op.height.Some? then op.height else p.minedHeight)
    && q.completedAt == (if Completes(op, i) && i in s.withdrawals then Some(op.at) else p.completedAt)
    && q.onchainAt == (if Completion(op, i) then Some(op.at) else p.onchainAt)
    && q.onchainSignature == (if Completion(op, i) then op.signature else p.onchainSignature)
  }

  /** A reassignment goes through exactly when its note says something, the
      payout is unsigned and an attempt is left; then every designation column
      is the new one's, one attempt on, and the old one is put on record. */
  lemma ReassignsExactly(s: State, i: i64, next: Designation, reason: string, at: i64)
    requires Consistent(s) && i in s.payouts
    ensures var (t, r) := ReassignQuorum(s, i, next, reason, at);
            var p := s.payouts[i];
            && (r.Ok? <==> Says(reason) && p.signed == None && p.designation.attempt < 0xFFFF_FFFF)
            && (r.Err? ==> t == s)
            && (r.Ok? ==>
                  && r.value == p.designation.attempt + 1
                  && t.payouts.Keys == s.payouts.Keys && (forall j :: j in s.payouts && j != i ==> t.payouts[j] == s.payouts[j])
                  && var q := t.payouts[i];
                  && q == p.(designation := q.designation)
                  && q.designation.quorum == next.quorum && q.designation.commitment == next.commitment
                  && q.designation.intent == next.intent && q.designation.unsignedTx == next.unsignedTx
                  && q.designation.attempt == p.designation.attempt + 1
                  && |t.history| == |s.history| + 1 && s.history <= t.history
                  && var h := t.history[|s.history|];
                  && h.index == i && IsCurrent(p, h) && h.at == at && h.reason == reason
                  && t.withdrawals == s.withdrawals && t.utxos == s.utxos)
  {
    CurrentAttemptUnrecorded(s, i);
    BlankSaysNothing(reason);
    hide Consistent, Recorded, Blank, Says;
  }

  lemma PayoutColumns(env: Env, s: State, op: Op, i: i64)
    requires i in s.payouts
    ensures i in Step(env, s, op).payouts && PayoutExactly(s, Step(env, s, op).payouts[i], op, i)
  {
    if op.Create? {
      CreateColumns(env, s, op, i);
    } else if op.Reassign? {
      ReassignColumns(env, s, op, i);
    } else if op.Signed? {
      SignedColumns(env, s, op, i);
    } else if op.Complete? {
      CompletedColumns(env, s, op, i);
    } else if op.Broadcasted? {
      BroadcastColumns(env, s, op, i);
    } else if op.Confirmations? {
      ConfirmationColumns(env, s, op, i);
    } else if op.OnchainCompletion? {
      OnchainColumns(env, s, op, i);
    } else {
      PayoutsUntouched(env, s, op);
    }
    hide Step;
  }

  lemma CreateColumns(env: Env, s: State, op: Op, i: i64)
    requires i in s.payouts && op.Create?
    ensures i in Step(env, s, op).payouts && PayoutExactly(s, Step(env, s, op).payouts[i], op, i)
  {
    hide Creatable;
    CreatableIsNew(s, op);
  }

  lemma ReassignColumns(env: Env, s: State, op: Op, i: i64)
    requires i in s.payouts && op.Reassign?
    ensures i in Step(env, s, op).payouts && PayoutExactly(s, Step(env, s, op).payouts[i], op, i)
  {
    hide Recorded, Blank;
  }

  lemma SignedColumns(env: Env, s: State, op: Op, i: i64)
    requires i in s.payouts && op.Signed?
    ensures i in Step(env, s, op).payouts && PayoutExactly(s, Step(env, s, op).payouts[i], op, i)
  {
  }

  lemma CompletedColumns(env: Env, s: State, op: Op, i: i64)
    requires i in s.payouts && op.Complete?
    ensures i in Step(env, s, op).payouts && PayoutExactly(s, Step(env, s, op).payouts[i], op, i)
  {
    hide HeldBy;
  }

  lemma BroadcastColumns(env: Env, s: State, op: Op, i: i64)
    requires i in s.payouts && op.Broadcasted?
    ensures i in Step(env, s, op).payouts && PayoutExactly(s, Step(env, s, op).payouts[i], op, i)
  {
  }

  lemma ConfirmationColumns(env: Env, s: State, op: Op, i: i64)
    requires i in s.payouts && op.Confirmations?
    ensures i in Step(env, s, op).payouts && PayoutExactly(s, Step(env, s, op).payouts[i], op, i)
  {
  }

  lemma OnchainColumns(env: Env, s: State, op: Op, i: i64)
    requires i in s.payouts && op.OnchainCompletion?
    ensures i in Step(env, s, op).payouts && PayoutExactly(s, Step(env, s, op).payouts[i], op, i)
  {
  }

  /** The row a payout starts as: what was built, and nothing done with it yet. */
  predicate IsFresh(q: Payout, p: NewPayout) {
    && q.terms == p.terms && q.designation == p.designation && q.confirmations == 0
    && q.signed == None && q.broadcastAt == None && q.minedHash == None && q.minedHeight == None
    && q.completedAt == None && q.onchainAt == None && q.onchainSignature == None
  }

  /** A payout row appears exactly when one is created that no constraint
      refuses, and starts as it was built. */
  lemma PayoutsAppear(env: Env, s: State, op: Op, i: i64)
    requires i !in s.payouts
    ensures var t := Step(env, s, op);
            && (i in t.payouts <==> op.Create? && op.p.index == i && Creatable(s, op.p))
            && (i in t.payouts ==> IsFresh(t.payouts[i], op.p))
  {
    if op.Create? {
      hide Creatable;
    } else if op.Reassign? || op.Signed? || op.Complete? || op.Broadcasted? || op.Confirmations? || op.OnchainCompletion? {
      hide HeldBy, Recorded, Blank;
    } else {
      PayoutsUntouched(env, s, op);
      hide Step;
    }
  }

  /** Operation `k` recorded the signature that payout `i` carries: the first
      one recorded since the payout exists. */
  predicate SignedBy(env: Env, ops: seq<Op>, i: i64, sig: SignedTx, k: int) {
    && 0 <= k < |ops| && ops[k] == Signed(i, sig.hex, sig.txid, sig.at)
    && var s := Run(env, EMPTY, ops[..k]);
    && i in s.payouts && s.payouts[i].signed == None
  }

  /** After any run the signed bytes, the txid and the time of a payout are
      those of its first recorded signature. */
  lemma {:induction false} SignatureIsTheFirst(env: Env, ops: seq<Op>, i: i64)
    requires i in Run(env, EMPTY, ops).payouts && Run(env, EMPTY, ops).payouts[i].signed.Some?
    ensures exists k :: SignedBy(env, ops, i, Run(env, EMPTY, ops).payouts[i].signed.value, k)
    decreases |ops|
  {
    assert ops != [];
    hide Step;
    var n := |ops| - 1;
    LastStep(env, EMPTY, ops);
    var s, t := Run(env, EMPTY, ops[..n]), Run(env, EMPTY, ops);
    hide Run;
    if i in s.payouts {
      PayoutColumns(env, s, ops[n], i);
      if s.payouts[i].signed.Some? {
        SignatureIsTheFirst(env, ops[..n], i);
        var k :| SignedBy(env, ops[..n], i, s.payouts[i].signed.value, k);
        assert ops[..n][..k] == ops[..k];
        assert SignedBy(env, ops, i, t.payouts[i].signed.value, k);
      } else {
        assert SignedBy(env, ops, i, t.payouts[i].signed.value, n);
      }
    } else {
      PayoutsAppear(env, s, ops[n], i);
    }
  }

  // ------------------------------------------------------------- vault coins

  predicate Reported(observed: seq<ObservedUtxo>, o: Outpoint, k: int) { 0 <= k < |observed| && observed[k].outpoint == o }

  predicate FirstReport(observed: seq<ObservedUtxo>, o: Outpoint, k: int) {
    Reported(observed, o, k) && forall j :: 0 <= j < k ==> observed[j].outpoint != o
  }

  predicate LastReport(observed: seq<ObservedUtxo>, o: Outpoint, k: int) {
    Reported(observed, o, k) && forall j :: k < j < |observed| ==> observed[j].outpoint != o
  }

  function Maturity(confirmations: i64, min: i64): (r: UState) { if confirmations >= min then Available else Unconfirmed }

  /** A coin that is not reported stays as it was, if it was there at all. */
  lemma {:induction false} UnreportedStays(utxos: map<Outpoint, Utxo>, observed: seq<ObservedUtxo>, min: i64, at: i64, o: Outpoint)
    requires forall k :: !Reported(observed, o, k)
    ensures var after := SyncAll(utxos, observed, min, at);
            (o in after <==> o in utxos) && (o in utxos ==> after[o] == utxos[o])
  {
    if observed != [] {
      var last := |observed| - 1;
      assert !Reported(observed, o, last);
      forall k ensures !Reported(observed[..last], o, k) {
        assert Reported(observed[..last], o, k) ==> Reported(observed, o, k);
      }
      UnreportedStays(utxos, observed[..last], min, at, o);
    }
  }

  /** A reported coin carries its last report's confirmations and, unless it is
      reserved or spent, the maturity they give it; a coin not seen before
      carries its first report's amount and script; nothing else changes. */
  lemma {:induction false} ReportedExactly(
      utxos: map<Outpoint, Utxo>, observed: seq<ObservedUtxo>, min: i64, at: i64, o: Outpoint, first: nat, last: nat)
    requires FirstReport(observed, o, first) && LastReport(observed, o, last)
    ensures var after := SyncAll(utxos, observed, min, at);
            && o in after && after[o].confirmations == observed[last].confirmations
            && (o in utxos ==>
                  && after[o] == utxos[o].(confirmations := after[o].confirmations, state := after[o].state)
                  && after[o].state == if utxos[o].state in {Reserved, Spent} then utxos[o].state
                                       else Maturity(observed[last].confirmations, min))
            && (o !in utxos ==>
                  && after[o].amount == observed[first].amount && after[o].script == observed[first].script
                  && after[o].firstSeenAt == at && after[o].state == Maturity(observed[last].confirmations, min)
                  && after[o].reservedBy == None && after[o].reservedAt == None && after[o].spentBy == None)
    decreases |observed|
  {
    var n := |observed| - 1;
    var rest := observed[..n];
    if first == n {
      forall k ensures !Reported(rest, o, k) {
        assert 0 <= k < n ==> observed[k].outpoint != o;
      }
      UnreportedStays(utxos, rest, min, at, o);
    } else if last == n {
      var k := LastOf(rest, o, first);
      ReportedExactly(utxos, rest, min, at, o, first, k);
    } else {
      ReportedExactly(utxos, rest, min, at, o, first, last);
    }
  }

  lemma {:induction false} LastOf(observed: seq<ObservedUtxo>, o: Outpoint, some: nat) returns (k: nat)
    requires Reported(observed, o, some)
    ensures LastReport(observed, o, k)
    decreases |observed|
  {
    var n := |observed| - 1;
    if observed[n].outpoint == o {
      k := n;
    } else {
      k := LastOf(observed[..n], o, some);
    }
  }

  /** The coin is free, and none of the reported transactions is its own. */
  predicate Vanished(u: Utxo, o: Outpoint, present: seq<Hash32>) {
    (u.state == Available || u.state == Unconfirmed) && forall k :: 0 <= k < |present| ==> present[k] != o.txid
  }

  /** Marking retires exactly the free coins whose transaction was not
      reported, changing nothing but their state, and counts them. */
  lemma MissingExactly(s: State, present: seq<Hash32>)
    ensures var (t, n) := MarkMissingSpent(s, present);
            && t == s.(utxos := t.utxos) && t.utxos.Keys == s.utxos.Keys
            && (forall o :: o in s.utxos ==>
                  t.utxos[o] == if Vanished(s.utxos[o], o, present) then s.utxos[o].(state := Spent) else s.utxos[o])
            && n == |set o | o in s.utxos && t.utxos[o] != s.utxos[o]|
  {
    var (t, n) := MarkMissingSpent(s, present);
    forall o | o in s.utxos ensures o in Missing(s, present) <==> Vanished(s.utxos[o], o, present) {
      if o.txid in present {
        var k :| 0 <= k < |present| && present[k] == o.txid;
      }
    }
    assert Missing(s, present) == set o | o in s.utxos && t.utxos[o] != s.utxos[o];
  }

  /** A reservation takes exactly the coins named, all of them free before; it
      is refused exactly when one is not free, or is named twice, or there is
      something to reserve for a withdrawal that does not exist. */
  lemma ReservesExactly(s: State, i: i64, outs: seq<Outpoint>, at: i64)
    ensures var (t, ok) := ReserveUtxos(s, i, outs, at);
            && (ok <==>
                  && (forall k :: 0 <= k < |outs| ==> outs[k] in s.utxos && s.utxos[outs[k]].state == Available)
                  && (forall j, k :: 0 <= j < k < |outs| ==> outs[j] != outs[k]) && (outs == [] || i in s.withdrawals))
            && (!ok ==> t == s)
            && (ok ==>
                  && t == s.(utxos := t.utxos) && t.utxos.Keys == s.utxos.Keys
                  && (forall k :: 0 <= k < |outs| ==>
                        t.utxos[outs[k]] == s.utxos[outs[k]].(state := Reserved, reservedBy := Some(i), reservedAt := Some(at)))
                  && (forall o :: o in s.utxos && (forall k :: 0 <= k < |outs| ==> outs[k] != o) ==> t.utxos[o] == s.utxos[o]))
  {
    var (t, ok) := ReserveUtxos(s, i, outs, at);
    if ok {
      forall o | o in s.utxos && (forall k :: 0 <= k < |outs| ==> outs[k] != o) ensures t.utxos[o] == s.utxos[o] {
        assert o !in outs;
      }
    }
  }

  /** A release frees exactly the coins reserved by the withdrawal, to be
      reserved again, and counts them; it is refused once a payout exists. */
  lemma ReleasesExactly(s: State, i: i64)
    ensures var (t, r) := ReleaseReservation(s, i);
            && (r.Err? <==> i in s.payouts) && (r.Err? ==> t == s && r.error == ReservationInvalid)
            && (r.Ok? ==>
                  && t == s.(utxos := t.utxos) && t.utxos.Keys == s.utxos.Keys
                  && (forall o :: o in s.utxos ==>
                        var u, v := s.utxos[o], t.utxos[o];
                        if u.state == Reserved && u.reservedBy == Some(i)
                        then v.state == Available && v.reservedBy == None && v.reservedAt == None
                             && v.amount == u.amount && v.script == u.script && v.confirmations == u.confirmations
                             && v.firstSeenAt == u.firstSeenAt && v.spentBy == u.spentBy
                        else v == u)
                  && r.value == |set o | o in s.utxos && t.utxos[o] != s.utxos[o]|)
  {
    var (t, r) := ReleaseReservation(s, i);
    if r.Ok? {
      var held := set o | o in HeldBy(s, i) && s.utxos[o].state == Reserved;
      assert held == set o | o in s.utxos && t.utxos[o] != s.utxos[o];
    }
  }

  /** Reserving and then releasing gives every coin back as it was, exactly when
      the withdrawal held nothing before and no coin named carried an old time. */
  lemma ReleaseUndoesReserve(s: State, i: i64, outs: seq<Outpoint>, at: i64)
    requires Consistent(s) && i !in s.payouts && ReserveUtxos(s, i, outs, at).1
    ensures ReleaseReservation(ReserveUtxos(s, i, outs, at).0, i).0 == s <==>
              && (forall o :: o in s.utxos ==> s.utxos[o].reservedBy != Some(i))
              && (forall k :: 0 <= k < |outs| ==> outs[k] in s.utxos && s.utxos[outs[k]].reservedAt == None)
  {
    var t := ReserveUtxos(s, i, outs, at).0;
    var u := ReleaseReservation(t, i).0;
    ReservesExactly(s, i, outs, at);
    ReleasesExactly(t, i);
    hide ReserveUtxos, ReleaseReservation, Consistent;
    forall o | o in s.utxos
      ensures s.utxos[o].reservedBy == Some(i) ==> u.utxos[o] != s.utxos[o]
      ensures (exists k :: 0 <= k < |outs| && outs[k] == o) ==> (u.utxos[o] == s.utxos[o] <==> s.utxos[o].reservedAt == None)
      ensures (forall k :: 0 <= k < |outs| ==> outs[k] != o) && s.utxos[o].reservedBy != Some(i) ==> u.utxos[o] == s.utxos[o]
    {
      CoinOk(s, o);
    }
    assert u == s <==> u.utxos == s.utxos;
    if u.utxos == s.utxos {
      assert forall k :: 0 <= k < |outs| ==> u.utxos[outs[k]] == s.utxos[outs[k]];
    }
  }

  lemma CoinOk(s: State, o: Outpoint)
    requires Consistent(s) && o in s.utxos
    ensures s.utxos[o].state == Reserved <==> s.utxos[o].reservedBy.Some?
  {
    assert UtxoOk(s, s.utxos[o]);
  }

  /** Completion spends exactly the coins the withdrawal holds, on its own
      transaction. */
  lemma CompletesExactly(s: State, i: i64, at: i64)
    requires i in s.payouts && i in s.withdrawals
    ensures var (t, ok) := CompletePayout(s, i, at);
            && ok && t.utxos.Keys == s.utxos.Keys
            && forall o :: o in s.utxos ==>
                 var u, v := s.utxos[o], t.utxos[o];
                 if u.reservedBy == Some(i)
                 then v.state == Spent && v.reservedBy == None && v.reservedAt == None
                      && v.spentBy == (if s.payouts[i].signed.Some? then Some(s.payouts[i].signed.value.txid) else None)
                      && v.amount == u.amount && v.script == u.script && v.confirmations == u.confirmations
                      && v.firstSeenAt == u.firstSeenAt
                 else v == u
  {
  }

  /** No other operation touches a coin. */
  lemma CoinsUntouched(env: Env, s: State, op: Op)
    requires !op.Sync? && !op.MarkMissing? && !op.Reserve? && !op.Release? && !op.Complete?
    ensures Step(env, s, op).utxos == s.utxos
  {
    hide Judge, Creatable, Recorded, Blank, MayTransitionTo;
  }

  // --------------------------------------------------------------- the log

  /** A row that records a reassignment, which moves no state. */
  predicate IsNote(row: LogRow) { row.from == Some(Signing) && row.to == Signing }

  /** The state the log last says withdrawal `i` moved to. */
  function LastMove(log: seq<LogRow>, i: i64): (r: Option<WState>) {
    if log == [] then None else
      var row := log[|log| - 1];
      if row.index == i && !IsNote(row) then Some(row.to) else LastMove(log[..|log| - 1], i)
  }

  ghost predicate LogTells(s: State) {
    forall i :: LastMove(s.log, i) == if i in s.withdrawals then Some(s.withdrawals[i].state) else None
  }

  /** What an operation adds to the log: nothing, and then no state moved; or
      one row, for the one withdrawal whose state it may move, with the state
      it is left in. */
  ghost predicate LogStep(s: State, t: State) {
    || (t.log == s.log && StatesSame(s, t))
    || (|t.log| == |s.log| + 1 && t.log[..|s.log|] == s.log && RowTells(s, t, t.log[|s.log|]))
  }

  predicate RowTells(s: State, t: State, row: LogRow) {
    && row.index in t.withdrawals
    && (forall j :: j != row.index ==> StateOf(t, j) == StateOf(s, j))
    && (if IsNote(row) then StateOf(t, row.index) == StateOf(s, row.index) else StateOf(t, row.index) == Some(row.to))
  }

  function StateOf(s: State, i: i64): (r: Option<WState>) { if i in s.withdrawals then Some(s.withdrawals[i].state) else None }

  predicate StatesSame(s: State, t: State) { forall j :: StateOf(t, j) == StateOf(s, j) }

  lemma StatusLogs(s: State, v: State, i: i64, to: WState, reason: Option<string>, row: LogRow)
    requires i in s.withdrawals && v.withdrawals == s.withdrawals && v.log == s.log
    requires row.index == i && row.to == to && (IsNote(row) ==> s.withdrawals[i].state == Signing)
    ensures LogStep(s, Logged(SetState(v, i, to, reason), row))
  {
    var t := Logged(SetState(v, i, to, reason), row);
    assert t.log[..|s.log|] == s.log;
  }

  lemma NothingLogged(s: State, t: State)
    requires t.withdrawals == s.withdrawals && t.log == s.log
    ensures LogStep(s, t)
  {
  }

  lemma NoteLogged(s: State, t: State, i: i64, row: LogRow)
    requires i in s.withdrawals && t.withdrawals == s.withdrawals && t.log == s.log + [row] && row.index == i && IsNote(row)
    ensures LogStep(s, t)
  {
    assert t.log[..|s.log|] == s.log;
  }

  lemma ObservationLogged(s: State, w: NewWithdrawal)
    ensures LogStep(s, ObserveWithdrawal(s, w).0)
  {
    var t := ObserveWithdrawal(s, w).0;
    if t == s {
      NothingLogged(s, t);
    } else {
      assert t.log[..|s.log|] == s.log;
    }
  }

  lemma HaltsOnlyRows(env: Env, s: State, i: i64)
    ensures Judge(env, s, i).Halt? ==> i in s.withdrawals
  {
    hide JudgeCommitment, FirstProblem;
  }

  lemma MoveLogged(env: Env, s: State, op: Op)
    requires op.Transition? || op.ClearHalt? || op.Guard?
    ensures LogStep(s, Step(env, s, op))
  {
    HaltsOnlyRows(env, s, op.i);
    hide LogStep, Judge, Blank, MayTransitionTo;
    var t := Step(env, s, op);
    if t == s {
      NothingLogged(s, t);
    } else {
      var reason := match op
        case Transition(_, _, _, why) => why
        case ClearHalt(_, _, note, _) => Some(note)
        case Guard(i, _) => Some(Judge(env, s, i).reason);
      StatusLogs(s, s, op.i, if op.Guard? then IntegrityHalted else op.to, reason, t.log[|s.log|]);
    }
  }

  lemma PaymentLogged(env: Env, s: State, op: Op)
    requires op.Signed? || op.Complete?
    ensures LogStep(s, Step(env, s, op))
  {
    hide LogStep, HeldBy;
    var t := Step(env, s, op);
    if t == s {
      NothingLogged(s, t);
    } else {
      StatusLogs(s, t.(withdrawals := s.withdrawals, log := s.log), op.i, if op.Signed? then Broadcast else Completed, None,
                 t.log[|s.log|]);
    }
  }

  lemma ReassignLogged(s: State, i: i64, next: Designation, reason: string, at: i64)
    requires s.payouts.Keys <= s.withdrawals.Keys
    ensures LogStep(s, ReassignQuorum(s, i, next, reason, at).0)
  {
    hide LogStep, Recorded, Blank;
    var t := ReassignQuorum(s, i, next, reason, at).0;
    if t == s {
      NothingLogged(s, t);
    } else {
      NoteLogged(s, t, i, t.log[|s.log|]);
    }
  }

  lemma OthersLogNothing(env: Env, s: State, op: Op)
    requires !op.Transition? && !op.ClearHalt? && !op.Guard? && !op.Signed? && !op.Complete? && !op.Observe? && !op.Reassign?
    ensures Step(env, s, op).withdrawals == s.withdrawals && Step(env, s, op).log == s.log
  {
    hide SyncAll, Missing, Hold, HeldBy, Creatable;
  }

  lemma StepLogs(env: Env, s: State, op: Op)
    requires Consistent(s)
    ensures LogStep(s, Step(env, s, op))
  {
    PayoutsAreRequested(s);
    hide Consistent, LogStep;
    match op {
      case Observe(w) => ObservationLogged(s, w);
      case Transition(_, _, _, _) => MoveLogged(env, s, op);
      case ClearHalt(_, _, _, _) => MoveLogged(env, s, op);
      case Guard(_, _) => MoveLogged(env, s, op);
      case Signed(_, _, _, _) => PaymentLogged(env, s, op);
      case Complete(_, _) => PaymentLogged(env, s, op);
      case Reassign(i, next, reason, at) => ReassignLogged(s, i, next, reason, at);
      case _ =>
        OthersLogNothing(env, s, op);
        hide Step;
        NothingLogged(s, Step(env, s, op));
    }
  }

  /** What the row an operation logs says of it: when, why, and what the
      withdrawal was before, where the code records that. */
  predicate RowSays(env: Env, s: State, op: Op, row: LogRow) {
    match op
    case Observe(w) =>
      row.index == w.index && row.from == None && row.at == w.observedAt && row.reason == Some("observed at finalized commitment")
    case Transition(i, to, at, why) =>
      row.index == i && row.from == StateOf(s, i) && row.to == to && row.at == at && row.reason == why
    case ClearHalt(i, to, note, at) =>
      row.index == i && row.from == StateOf(s, i) && row.to == to && row.at == at
      && row.reason == Some("operator_recovery: " + note)
    case Guard(i, at) =>
      var v := Judge(env, s, i);
      && v.Halt? && row.index == i && row.from == StateOf(s, i) && row.at == at && row.reason == Some(v.reason)
      && row.expected == v.expected && row.recomputed == v.recomputed && row.differing == v.differing
    case Signed(i, _, _, at) => row.index == i && row.from == Some(Signing) && row.at == at && row.reason == Some("signed")
    case Complete(i, at) =>
      row.index == i && row.from == Some(Confirming) && row.at == at
      && row.reason == Some("payout confirmed at required depth")
    case Reassign(i, _, note, at) => row.index == i && IsNote(row) && row.at == at && row.reason == Some("quorum reassigned: " + note)
    case _ => false
  }

  lemma RowsSay(env: Env, s: State, op: Op)
    requires Step(env, s, op).log != s.log
    ensures |Step(env, s, op).log| == |s.log| + 1 && RowSays(env, s, op, Step(env, s, op).log[|s.log|])
  {
    if op.Guard? {
      HaltsOnlyRows(env, s, op.i);
    }
    hide Judge, SyncAll, Missing, Hold, HeldBy, Creatable, Recorded, Blank, MayTransitionTo, PdaTaken;
  }

  lemma StepKeepsLogTells(s: State, t: State)
    requires LogTells(s) && LogStep(s, t)
    ensures LogTells(t)
  {
    forall i ensures LastMove(t.log, i) == StateOf(t, i) {
      assert LastMove(s.log, i) == StateOf(s, i);
      if t.log != s.log {
        assert t.log[..|t.log| - 1] == s.log;
      }
    }
  }

  /** The audit log is faithful: in every reachable state, the last row about a
      withdrawal, reassignments aside, names the state it is in. */
  lemma {:induction false} LogTellsState(env: Env, s: State, ops: seq<Op>)
    requires Consistent(s) && LogTells(s)
    ensures LogTells(Run(env, s, ops))
    decreases |ops|
  {
    if ops != [] {
      var t := Step(env, s, ops[0]);
      hide Step, Consistent, Evolves, LogTells, LogStep;
      StepGood(env, s, ops[0]);
      StepLogs(env, s, ops[0]);
      StepKeepsLogTells(s, t);
      LogTellsState(env, t, ops[1..]);
    }
  }
}
