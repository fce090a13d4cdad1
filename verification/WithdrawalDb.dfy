/** The store as the relayer runs it: tables updated in place, one
    transaction a call, each proved to do what its specification says. */
module WithdrawalDb {
  import opened Bytes
  import opened Wrappers
  import opened PayoutIntent
  import opened WithdrawalStore
  import WithdrawalInvariants

  class Db {
    const env: Env
    var withdrawals: map<i64, Withdrawal>
    var payouts: map<i64, Payout>
    var utxos: map<Outpoint, Utxo>
    var history: seq<HistoryRow>
    var log: seq<LogRow>

    ghost function Contents(): State
      reads this
    {
      State(withdrawals, payouts, utxos, history, log)
    }

    ghost predicate Valid()
      reads this
    {
      WithdrawalInvariants.Consistent(Contents())
    }

    constructor (env: Env)
      ensures this.env == env && Contents() == EMPTY && Valid()
    {
      this.env := env;
      withdrawals, payouts, utxos, history, log := map[], map[], map[], [], [];
    }

    method InsertLog(row: LogRow)
      modifies this`log
      ensures log == old(log) + [row]
    {
      log := log + [row];
    }

    method UpdateState(i: i64, to: WState, reason: Option<string>)
      requires i in withdrawals
      modifies this`withdrawals
      ensures withdrawals == SetState(old(Contents()), i, to, reason).withdrawals
    {
      var w := withdrawals[i];
      withdrawals := withdrawals[i := w.(state := to, failureReason := if reason.Some? then reason else w.failureReason)];
    }

    method Observe(w: NewWithdrawal) returns (inserted: bool)
      requires Valid()
      modifies this
      ensures Valid()
      ensures (Contents(), inserted) == ObserveWithdrawal(old(Contents()), w)
    {
      hide WithdrawalInvariants.Consistent, WithdrawalInvariants.Evolves;
      WithdrawalInvariants.ObserveGood(Contents(), w);
      var pdas := set j | j in withdrawals :: withdrawals[j].pda;
      inserted := w.index !in withdrawals && w.pda !in pdas;
      if inserted {
        var row := Withdrawal(w.pda, w.amount, w.requester, w.address, w.hash160, w.slot, w.version, w.observedAt, Observed, None);
        withdrawals := withdrawals[w.index := row];
        InsertLog(Plain(w.index, None, Observed, w.observedAt, Some("observed at finalized commitment")));
      }
    }

    method Transition(i: i64, to: WState, at: i64, reason: Option<string>) returns (e: Option<DbError>)
      requires Valid()
      modifies this
      ensures Valid()
      ensures (Contents(), e) == TransitionWithdrawal(old(Contents()), i, to, at, reason)
    {
      hide WithdrawalInvariants.Consistent, WithdrawalInvariants.Evolves;
      WithdrawalInvariants.TransitionGood(Contents(), i, to, at, reason);
      if i !in withdrawals {
        return Some(WithdrawalNotFound);
      }
      var from := withdrawals[i].state;
      if from != to && !MayTransitionTo(from, to) {
        return Some(IllegalTransition);
      }
      UpdateState(i, to, reason);
      InsertLog(Plain(i, Some(from), to, at, reason));
      e := None;
    }

    method ClearHalt(i: i64, to: WState, note: string, at: i64) returns (e: Option<DbError>)
      requires Valid()
      modifies this
      ensures Valid()
      ensures (Contents(), e) == OperatorClearHalt(old(Contents()), i, to, note, at)
    {
      hide WithdrawalInvariants.Consistent, WithdrawalInvariants.Evolves;
      WithdrawalInvariants.ClearHaltGood(Contents(), i, to, note, at);
      if Blank(note) {
        return Some(OperatorNoteRequired);
      }
      if to != Validated && to != Failed {
        return Some(InvalidRecoveryTarget);
      }
      if i !in withdrawals {
        return Some(WithdrawalNotFound);
      }
      if withdrawals[i].state != IntegrityHalted {
        return Some(NotIntegrityHalted);
      }
      UpdateState(i, to, Some(note));
      InsertLog(Plain(i, Some(IntegrityHalted), to, at, Some("operator_recovery: " + note)));
      e := None;
    }

    method Sync(observed: seq<ObservedUtxo>, minConfirmations: i64, at: i64)
      requires Valid()
      modifies this`utxos
      ensures Valid()
      ensures Contents() == SyncVaultUtxos(old(Contents()), observed, minConfirmations, at)
    {
      hide WithdrawalInvariants.Consistent, WithdrawalInvariants.Evolves;
      WithdrawalInvariants.SyncGood(Contents(), observed, minConfirmations, at);
      var table := utxos;
      for k := 0 to |observed|
        invariant table == SyncAll(old(utxos), observed[..k], minConfirmations, at)
      {
        table := SyncOne(table, observed[k], minConfirmations, at);
        assert observed[..k + 1][..k] == observed[..k];
      }
      assert observed[..|observed|] == observed;
      utxos := table;
    }

    method MarkMissing(present: seq<Hash32>) returns (n: nat)
      requires Valid()
      modifies this`utxos
      ensures Valid()
      ensures (Contents(), n) == MarkMissingSpent(old(Contents()), present)
    {
      hide WithdrawalInvariants.Consistent, WithdrawalInvariants.Evolves;
      WithdrawalInvariants.MarkMissingGood(Contents(), present);
      var table := utxos;
      var tracked := set o | o in utxos && utxos[o].state in {Available, Unconfirmed};
      ghost var s := Contents();
      ghost var gone := Missing(s, present);
      ghost var retired := {};
      assert forall o :: o in gone <==> o in tracked && o.txid !in present;
      hide Missing, Retiring;
      NoneRetired(s.utxos);
      n := 0;
      while tracked != {}
        invariant Contents() == s && Retiring(s.utxos, table, retired)
        invariant n == |retired| && retired !! tracked && tracked <= s.utxos.Keys
        invariant forall o :: o in gone <==> o in retired || (o in tracked && o.txid !in present)
        decreases tracked
      {
        var o :| o in tracked;
        RetireOne(s.utxos, table, retired, o);
        if o.txid !in present {
          table := table[o := table[o].(state := Spent)];
          n := n + 1;
          retired := retired + {o};
        }
        tracked := tracked - {o};
      }
      assert retired == gone;
      AllRetired(s, present, table);
      utxos := table;
    }

    /** Guarded update row by row; the first outpoint that is not available,
        or a withdrawal that does not exist, rolls the whole reservation back. */
    method Reserve(i: i64, outs: seq<Outpoint>, at: i64) returns (e: Option<DbError>)
      requires Valid()
      modifies this`utxos
      ensures Valid()
      ensures (Contents(), e == None) == ReserveUtxos(old(Contents()), i, outs, at)
      ensures e.Some? ==>
                && outs != []
                && e == Some(if i in withdrawals || !IsAvailable(utxos, outs[0]) then ReservationInvalid else ConstraintViolation)
    {
      hide WithdrawalInvariants.Consistent, WithdrawalInvariants.Evolves;
      WithdrawalInvariants.ReserveGood(Contents(), i, outs, at);
      ghost var s := Contents();
      var table := utxos;
      for k := 0 to |outs|
        invariant Contents() == s && (k > 0 ==> i in withdrawals)
        invariant Reservable(s, outs[..k]) && table == Hold(s.utxos, outs[..k], i, at)
      {
        if Reservable(s, outs) {
          NextIsAvailable(s, outs, k, i, at);
        }
        if !IsAvailable(table, outs[k]) {
          return Some(ReservationInvalid);
        }
        if i !in withdrawals {
          return Some(ConstraintViolation);
        }
        ghost var before := outs[..k];
        assert outs[..k + 1] == before + [outs[k]];
        assert outs[k] !in before;
        table := table[outs[k] := table[outs[k]].(state := WithdrawalStore.Reserved, reservedBy := Some(i), reservedAt := Some(at))];
        assert table == Hold(utxos, outs[..k + 1], i, at);
      }
      assert outs[..|outs|] == outs;
      utxos := table;
      e := None;
    }

    method Release(i: i64) returns (r: Result<nat, DbError>)
      requires Valid()
      modifies this`utxos
      ensures Valid()
      ensures (Contents(), r) == ReleaseReservation(old(Contents()), i)
    {
      hide WithdrawalInvariants.Consistent, WithdrawalInvariants.Evolves;
      WithdrawalInvariants.ReleaseGood(Contents(), i);
      if i in payouts {
        return Err(ReservationInvalid);
      }
      var held := set o | o in utxos && utxos[o].reservedBy == Some(i) && utxos[o].state == WithdrawalStore.Reserved;
      assert held == set o | o in HeldBy(Contents(), i) && utxos[o].state == WithdrawalStore.Reserved;
      utxos := map o | o in utxos :: if o in held then utxos[o].(state := Available, reservedBy := None, reservedAt := None) else utxos[o];
      r := Ok(|held|);
    }

    /** The payout row, then its inputs one by one against `UNIQUE(txid, vout)`. */
    method Create(p: NewPayout) returns (ok: bool)
      requires Valid()
      modifies this`payouts
      ensures Valid()
      ensures (Contents(), ok) == CreatePayout(old(Contents()), p)
    {
      hide WithdrawalInvariants.Consistent, WithdrawalInvariants.Evolves;
      WithdrawalInvariants.CreateGood(Contents(), p);
      ghost var outs := Outpoints(p.terms.inputs);
      if p.index in payouts || p.index !in withdrawals {
        return false;
      }
      var inserted: set<Outpoint> := {};
      for k := 0 to |p.terms.inputs|
        invariant inserted == set a | 0 <= a < k :: outs[a]
        invariant Distinct(outs[..k])
        invariant forall a :: 0 <= a < k ==> !Committed(Contents(), outs[a])
      {
        var o := p.terms.inputs[k].outpoint;
        var owned := set j, c | j in payouts && c in payouts[j].terms.inputs :: c.outpoint;
        assert o in owned <==> Committed(Contents(), o) by {
          if Committed(Contents(), o) {
            var j :| j in payouts && Commits(payouts[j], o);
            var a :| 0 <= a < |payouts[j].terms.inputs| && payouts[j].terms.inputs[a].outpoint == o;
            assert payouts[j].terms.inputs[a] in payouts[j].terms.inputs;
          }
          if o in owned {
            var j, c :| j in payouts && c in payouts[j].terms.inputs && c.outpoint == o;
            assert Commits(payouts[j], o);
          }
        }
        if o in owned || o in inserted {
          return false;
        }
        inserted := inserted + {o};
      }
      assert outs[..|outs|] == outs;
      payouts := payouts[p.index := FreshPayout(p)];
      ok := true;
    }

    method RecordSigned(i: i64, hex: string, txid: Hash32, at: i64) returns (ok: bool)
      requires Valid()
      modifies this
      ensures Valid()
      ensures (Contents(), ok) == WithdrawalStore.RecordSigned(old(Contents()), i, hex, txid, at)
    {
      hide WithdrawalInvariants.Consistent, WithdrawalInvariants.Evolves;
      WithdrawalInvariants.SignedGood(Contents(), i, hex, txid, at);
      if i !in withdrawals {
        return false;
      }
      if i in payouts && payouts[i].signed == None {
        payouts := payouts[i := payouts[i].(signed := Some(SignedTx(hex, txid, at)))];
      }
      UpdateState(i, WithdrawalStore.Broadcast, None);
      InsertLog(Plain(i, Some(Signing), WithdrawalStore.Broadcast, at, Some("signed")));
      ok := true;
    }

    method RecordBroadcast(i: i64, at: i64)
      requires Valid()
      modifies this`payouts
      ensures Valid()
      ensures Contents() == WithdrawalStore.RecordBroadcast(old(Contents()), i, at)
    {
      hide WithdrawalInvariants.Consistent, WithdrawalInvariants.Evolves;
      WithdrawalInvariants.BroadcastGood(Contents(), i, at);
      if i in payouts && payouts[i].broadcastAt == None {
        payouts := payouts[i := payouts[i].(broadcastAt := Some(at))];
      }
    }

    method RecordConfirmations(i: i64, n: i64, hash: Option<Hash32>, height: Option<i64>)
      requires Valid()
      modifies this`payouts
      ensures Valid()
      ensures Contents() == WithdrawalStore.RecordConfirmations(old(Contents()), i, n, hash, height)
    {
      hide WithdrawalInvariants.Consistent, WithdrawalInvariants.Evolves;
      WithdrawalInvariants.ConfirmationsGood(Contents(), i, n, hash, height);
      if i in payouts {
        var p := payouts[i].(confirmations := n);
        if hash.Some? { p := p.(minedHash := hash); }
        if height.Some? { p := p.(minedHeight := height); }
        payouts := payouts[i := p];
      }
    }

    method RecordOnchainCompletion(i: i64, signature: Option<string>, at: i64)
      requires Valid()
      modifies this`payouts
      ensures Valid()
      ensures Contents() == WithdrawalStore.RecordOnchainCompletion(old(Contents()), i, signature, at)
    {
      hide WithdrawalInvariants.Consistent, WithdrawalInvariants.Evolves;
      WithdrawalInvariants.OnchainGood(Contents(), i, signature, at);
      if i in payouts {
        payouts := payouts[i := payouts[i].(onchainAt := Some(at), onchainSignature := signature)];
      }
    }

    method CompletePayout(i: i64, at: i64) returns (ok: bool)
      requires Valid()
      modifies this
      ensures Valid()
      ensures (Contents(), ok) == WithdrawalStore.CompletePayout(old(Contents()), i, at)
    {
      hide WithdrawalInvariants.Consistent, WithdrawalInvariants.Evolves;
      WithdrawalInvariants.PayoutsAreRequested(Contents());
      WithdrawalInvariants.CompleteGood(Contents(), i, at);
      if i !in payouts {
        return false;
      }
      SpendsTheHeld(Contents(), i, at);
      hide WithdrawalStore.HeldBy, SpendHeld;
      var txid := Txid(payouts[i]);
      payouts := payouts[i := payouts[i].(completedAt := Some(at))];
      utxos := SpendHeld(utxos, i, txid);
      UpdateState(i, WithdrawalStore.Completed, None);
      InsertLog(Plain(i, Some(Confirming), WithdrawalStore.Completed, at, Some("payout confirmed at required depth")));
      ok := true;
    }

    method Reassign(i: i64, next: Designation, reason: string, at: i64) returns (r: Result<u32, DbError>)
      requires Valid()
      modifies this
      ensures Valid()
      ensures (Contents(), r) == ReassignQuorum(old(Contents()), i, next, reason, at)
    {
      hide WithdrawalInvariants.Consistent, WithdrawalInvariants.Evolves;
      WithdrawalInvariants.ReassignGood(Contents(), i, next, reason, at);
      if Blank(reason) {
        return Err(OperatorNoteRequired);
      }
      if i !in payouts {
        return Err(MissingPayout);
      }
      var d := payouts[i].designation;
      if payouts[i].signed.Some? {
        return Err(ReservationInvalid);
      }
      if d.attempt == 0xFFFF_FFFF {
        return Err(ReservationInvalid);
      }
      if exists k :: 0 <= k < |history| && history[k].index == i && history[k].attempt == d.attempt {
        return Err(ConstraintViolation);
      }
      history := history + [HistoryRow(i, d.attempt, d.quorum, d.commitment, at, reason)];
      payouts := payouts[i := payouts[i].(designation := next.(attempt := d.attempt + 1))];
      InsertLog(Plain(i, Some(Signing), Signing, at, Some("quorum reassigned: " + reason)));
      r := Ok(d.attempt + 1);
    }

    method CommitHalt(i: i64, v: Verdict, at: i64) returns (r: Result<SignablePayout, DbError>)
      requires v.Halt? && i in withdrawals
      modifies this
      ensures (Contents(), r) == AfterVerdict(old(Contents()), i, v, at)
    {
      var from := withdrawals[i].state;
      UpdateState(i, IntegrityHalted, Some(v.reason));
      InsertLog(LogRow(i, Some(from), IntegrityHalted, at, Some(v.reason), v.expected, v.recomputed, v.differing));
      r := Err(v.error);
    }

    /** The pre-signing guard, in the order of the checks. */
    method VerifyAndLoadSignable(i: i64, at: i64) returns (r: Result<SignablePayout, DbError>)
      requires Valid()
      modifies this
      ensures Valid()
      ensures (Contents(), r) == VerifyAndLoad(env, old(Contents()), i, at)
    {
      hide WithdrawalInvariants.Consistent, WithdrawalInvariants.Evolves;
      WithdrawalInvariants.GuardGood(env, Contents(), i, at);
      if i !in withdrawals {
        return Err(WithdrawalNotFound);
      }
      if i !in payouts {
        return Err(MissingPayout);
      }
      var p := payouts[i];
      if p.completedAt.Some? {
        r := CommitHalt(i, PlainHalt("payout_already_completed", PayoutAlreadyCompleted), at);
        return;
      }
      if p.confirmations > 0 {
        r := CommitHalt(i, PlainHalt("payout_already_confirmed", PayoutAlreadyConfirmed), at);
        return;
      }
      if p.signed.Some? {
        r := CommitHalt(i, PlainHalt("payout_already_signed", PayoutAlreadyConfirmed), at);
        return;
      }
      var coins := p.terms.inputs;
      if coins == [] {
        r := CommitHalt(i, PlainHalt("payout_has_no_committed_inputs", ReservationInvalid), at);
        return;
      }
      var problem, inputs := LoadHeldInputs(i, coins);
      if problem.Some? {
        r := CommitHalt(i, PlainHalt(problem.value, ReservationInvalid), at);
        return;
      }
      r := VerifyCommitment(i, inputs, at);
    }

    method LoadHeldInputs(i: i64, coins: seq<Coin>) returns (problem: Option<string>, inputs: seq<SignableInput>)
      ensures problem == FirstProblem(utxos, i, coins)
      ensures problem == None ==>
                && (forall k :: 0 <= k < |coins| ==> coins[k].outpoint in utxos)
                && inputs == LoadInputs(utxos, coins)
      ensures problem.Some? ==>
                && |inputs| < |coins| && problem == InputProblem(utxos, i, coins[|inputs|])
                && forall k :: 0 <= k < |inputs| ==> InputProblem(utxos, i, coins[k]) == None
    {
      inputs := [];
      hide InputProblem, FirstProblem;
      var k := 0;
      while k < |coins|
        invariant 0 <= k <= |coins| && |inputs| == k
        invariant forall a :: 0 <= a < k ==>
                    && coins[a].outpoint in utxos && InputProblem(utxos, i, coins[a]) == None
                    && inputs[a] == SignableInput(coins[a], utxos[coins[a].outpoint].script, utxos[coins[a].outpoint].confirmations)
        invariant FirstProblem(utxos, i, coins) == FirstProblem(utxos, i, coins[k..])
      {
        ProblemAt(utxos, i, coins, k);
        problem := InputProblem(utxos, i, coins[k]);
        if problem.Some? {
          return;
        }
        var u := utxos[coins[k].outpoint];
        inputs := inputs + [SignableInput(coins[k], u.script, u.confirmations)];
        k := k + 1;
      }
      NoProblemLeft(utxos, i);
      problem := None;
    }

    method VerifyCommitment(i: i64, inputs: seq<SignableInput>, at: i64) returns (r: Result<SignablePayout, DbError>)
      requires i in withdrawals && i in payouts
      requires forall k :: 0 <= k < |payouts[i].terms.inputs| ==> payouts[i].terms.inputs[k].outpoint in utxos
      requires inputs == LoadInputs(utxos, payouts[i].terms.inputs)
      modifies this
      ensures (Contents(), r) == AfterVerdict(old(Contents()), i, JudgeCommitment(env, old(Contents()), i), at)
    {
      var w, t, d := withdrawals[i], payouts[i].terms, payouts[i].designation;
      var change := ChangeHash(env, t);
      if change == None {
        return Err(PayoutIntegrityMismatch);
      }
      var recomputed := CanonicalPayoutIntent(IntentOf(w, i, t, change.value, d));
      if env.sha(d.intent) != d.commitment {
        r := CommitHalt(i, Halt("payout_commitment_self_inconsistent", PayoutIntegrityMismatch, Some(d.commitment),
                                Some(env.sha(d.intent)), None), at);
        return;
      }
      if recomputed != d.intent {
        r := CommitHalt(i, Halt("payout_commitment_mismatch", PayoutIntegrityMismatch, Some(d.commitment),
                                Some(env.sha(recomputed)), DiffPayoutFields(recomputed, d.intent)), at);
        return;
      }
      if t.payout != w.amount {
        r := CommitHalt(i, PlainHalt("payout_amount_not_equal_to_burned_amount", PayoutIntegrityMismatch), at);
        return;
      }
      r := Ok(SignablePayout(i, d.unsignedTx, t.payout, t.fee, t.change, t.changeAddress, w.hash160, t.vault, d.quorum,
                             d.attempt, inputs, d.commitment, recomputed));
    }
  }

  /** The table with the retired coins spent. */
  ghost predicate Retiring(utxos: map<Outpoint, Utxo>, table: map<Outpoint, Utxo>, retired: set<Outpoint>) {
    && table.Keys == utxos.Keys && retired <= utxos.Keys
    && forall o :: o in table ==> table[o] == if o in retired then utxos[o].(state := Spent) else utxos[o]
  }

  lemma NoneRetired(utxos: map<Outpoint, Utxo>)
    ensures Retiring(utxos, utxos, {})
  {
  }

  lemma RetireOne(utxos: map<Outpoint, Utxo>, table: map<Outpoint, Utxo>, retired: set<Outpoint>, o: Outpoint)
    requires Retiring(utxos, table, retired) && o in utxos && o !in retired
    ensures o in table && Retiring(utxos, table[o := table[o].(state := Spent)], retired + {o})
  {
  }

  lemma AllRetired(s: State, present: seq<Hash32>, table: map<Outpoint, Utxo>)
    requires Retiring(s.utxos, table, Missing(s, present))
    ensures MarkMissingSpent(s, present) == (s.(utxos := table), |Missing(s, present)|)
  {
    hide Missing;
    assert table == MarkMissingSpent(s, present).0.utxos;
  }

  /** Every coin the withdrawal holds, spent. */
  function SpendHeld(utxos: map<Outpoint, Utxo>, i: i64, txid: Option<Hash32>): (spent: map<Outpoint, Utxo>) {
    map o | o in utxos :: if utxos[o].reservedBy == Some(i)
      then utxos[o].(state := WithdrawalStore.Spent, spentBy := txid, reservedBy := None, reservedAt := None)
      else utxos[o]
  }

  predicate IsAvailable(utxos: map<Outpoint, Utxo>, o: Outpoint) { o in utxos && utxos[o].state == Available }

  lemma NextIsAvailable(s: State, outs: seq<Outpoint>, k: nat, i: i64, at: i64)
    requires Reservable(s, outs) && k < |outs|
    ensures IsAvailable(Hold(s.utxos, outs[..k], i, at), outs[k])
  {
    assert outs[k] !in outs[..k];
  }

  lemma ProblemAt(utxos: map<Outpoint, Utxo>, i: i64, coins: seq<Coin>, k: nat)
    requires k < |coins|
    ensures InputProblem(utxos, i, coins[k]) == None ==>
              coins[k].outpoint in utxos && FirstProblem(utxos, i, coins[k..]) == FirstProblem(utxos, i, coins[k + 1..])
    ensures InputProblem(utxos, i, coins[k]).Some? ==> FirstProblem(utxos, i, coins[k..]) == InputProblem(utxos, i, coins[k])
  {
    assert coins[k..][1..] == coins[k + 1..];
  }

  lemma NoProblemLeft(utxos: map<Outpoint, Utxo>, i: i64)
    ensures FirstProblem(utxos, i, []) == None
  {
  }

  lemma SpendsTheHeld(s: State, i: i64, at: i64)
    requires i in s.payouts && i in s.withdrawals
    ensures CompletePayout(s, i, at).0.utxos == SpendHeld(s.utxos, i, Txid(s.payouts[i]))
  {
  }
}
