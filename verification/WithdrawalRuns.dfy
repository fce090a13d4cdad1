/** What holds over whole runs of the withdrawal store: a payout is never
    paid twice, its inputs stay frozen, and its guard depends on nothing but
    its own rows. */
module WithdrawalRuns {
  import opened Bytes
  import opened Wrappers
  import opened PayoutIntent
  import opened WithdrawalStore
  import opened WithdrawalInvariants

  // --------------------------------------------- when the guard releases

  predicate Held(s: State, i: i64, c: Coin) {
    c.outpoint in s.utxos
    && s.utxos[c.outpoint].state == Reserved && s.utxos[c.outpoint].reservedBy == Some(i)
  }

  predicate Backed(s: State, i: i64, coins: seq<Coin>) {
    forall k :: 0 <= k < |coins| ==> Held(s, i, coins[k]) && s.utxos[coins[k].outpoint].amount == coins[k].amount
  }

  /** The stored intent is the canonical one for the row it sits in, and the
      stored commitment is its hash. */
  predicate Canonical(env: Env, w: Withdrawal, i: i64, t: Terms, d: Designation) {
    && ChangeHash(env, t).Some?
    && d.intent == Encode(IntentOf(w, i, t, ChangeHash(env, t).value, d))
    && d.commitment == env.sha(d.intent)
  }

  predicate Unsent(p: Payout) { p.completedAt == None && p.signed == None && p.confirmations <= 0 }

  predicate Signable(env: Env, s: State, i: i64) {
    && i in s.withdrawals && i in s.payouts
    && var w, p := s.withdrawals[i], s.payouts[i];
    && Unsent(p)
    && p.terms.inputs != []
    && Backed(s, i, p.terms.inputs)
    && Canonical(env, w, i, p.terms, p.designation)
    && p.terms.payout == w.amount
  }

  /** The inputs handed out are the committed coins, in their order, each with
      what the coin table says of it. */
  predicate Spends(s: State, coins: seq<Coin>, inputs: seq<SignableInput>) {
    && |inputs| == |coins|
    && forall k :: 0 <= k < |coins| ==>
         && inputs[k].coin == coins[k] && coins[k].outpoint in s.utxos
         && inputs[k].script == s.utxos[coins[k].outpoint].script
         && inputs[k].confirmations == s.utxos[coins[k].outpoint].confirmations
  }

  /** What is handed out is the stored payout, column by column, over the coins
      committed to it. */
  predicate Carries(s: State, i: i64, q: SignablePayout) {
    && i in s.withdrawals && i in s.payouts
    && var w, t, d := s.withdrawals[i], s.payouts[i].terms, s.payouts[i].designation;
    && q.index == i && q.dest == w.hash160
    && q.payout == t.payout && q.fee == t.fee && q.change == t.change && q.changeAddress == t.changeAddress
    && q.vault == t.vault && Spends(s, t.inputs, q.inputs)
    && q.unsignedTx == d.unsignedTx && q.quorum == d.quorum && q.attempt == d.attempt
    && q.commitment == d.commitment && q.intent == d.intent
  }

  /** The guard hands out a payout exactly when the rows are intact; then it
      hands out the stored payout with its own coins and commits nothing. */
  lemma GuardReleasesExactly(env: Env, s: State, i: i64, at: i64)
    ensures VerifyAndLoad(env, s, i, at).1.Ok? <==> Signable(env, s, i)
    ensures Signable(env, s, i) ==>
              && VerifyAndLoad(env, s, i, at).0 == s
              && Carries(s, i, VerifyAndLoad(env, s, i, at).1.value)
  {
    if i in s.withdrawals && i in s.payouts {
      var coins := s.payouts[i].terms.inputs;
      assert FirstProblem(s.utxos, i, coins).None? <==> Backed(s, i, coins) by {
        forall k | 0 <= k < |coins|
          ensures InputProblem(s.utxos, i, coins[k]).None?
                  <==> Held(s, i, coins[k]) && s.utxos[coins[k].outpoint].amount == coins[k].amount {
        }
      }
    }
  }

  /** A guard failure either commits nothing or moves the withdrawal, and
      only it, into the halt state: missing rows and an undecodable change
      address are the failures that do not halt. */
  lemma GuardFailureHalts(env: Env, s: State, i: i64, at: i64)
    requires !Signable(env, s, i)
    ensures var t := VerifyAndLoad(env, s, i, at).0;
            var silent := i !in s.withdrawals || i !in s.payouts
                          || (Unsent(s.payouts[i]) && s.payouts[i].terms.inputs != []
                              && Backed(s, i, s.payouts[i].terms.inputs) && ChangeHash(env, s.payouts[i].terms) == None);
            && (silent ==> t == s)
            && (!silent ==>
                  && t.withdrawals.Keys == s.withdrawals.Keys && t.withdrawals[i].state == IntegrityHalted
                  && (forall j :: j in s.withdrawals && j != i ==> t.withdrawals[j] == s.withdrawals[j])
                  && t.payouts == s.payouts && t.utxos == s.utxos && t.history == s.history
                  && |t.log| == |s.log| + 1)
  {
    GuardReleasesExactly(env, s, i, at);
    if i in s.withdrawals && i in s.payouts {
      var coins := s.payouts[i].terms.inputs;
      assert FirstProblem(s.utxos, i, coins).None? <==> Backed(s, i, coins) by {
        forall k | 0 <= k < |coins|
          ensures InputProblem(s.utxos, i, coins[k]).None?
                  <==> Held(s, i, coins[k]) && s.utxos[coins[k].outpoint].amount == coins[k].amount {
        }
      }
    }
  }

  // ------------------------------------------------------ never double-pay

  /** What the guard answered at position `k` of a run. */
  function Answer(env: Env, s: State, ops: seq<Op>, k: nat): Result<SignablePayout, DbError>
    requires k < |ops| && ops[k].Guard?
  {
    VerifyAndLoad(env, Run(env, s, ops[..k]), ops[k].i, ops[k].at).1
  }

  /** No coin is in both lists of inputs. */
  predicate NoneShared(a: seq<SignableInput>, b: seq<SignableInput>) {
    forall x, y :: 0 <= x < |a| && 0 <= y < |b| ==> a[x].coin.outpoint != b[y].coin.outpoint
  }

  predicate NoneTwice(a: seq<SignableInput>) {
    forall x, y :: 0 <= x < y < |a| ==> a[x].coin.outpoint != a[y].coin.outpoint
  }

  /** The same coins in the same order, at most their confirmations apart. */
  predicate SameInputs(a: seq<SignableInput>, b: seq<SignableInput>) {
    |a| == |b| && forall x :: 0 <= x < |a| ==> a[x].coin == b[x].coin && a[x].script == b[x].script
  }

  /** The same payment out of the same coins. */
  predicate SamePayment(p: SignablePayout, q: SignablePayout) {
    && p.payout == q.payout && p.fee == q.fee && p.change == q.change && p.changeAddress == q.changeAddress
    && p.dest == q.dest && p.vault == q.vault && SameInputs(p.inputs, q.inputs)
  }

  predicate SameDesignation(p: SignablePayout, q: SignablePayout) {
    p.unsignedTx == q.unsignedTx && p.quorum == q.quorum && p.commitment == q.commitment && p.intent == q.intent
  }

  predicate Disjoint(a: seq<Coin>, b: seq<Coin>) {
    forall x, y :: 0 <= x < |a| && 0 <= y < |b| ==> a[x].outpoint != b[y].outpoint
  }

  /** In any interleaving of any operations: two payouts the guard released
      for one withdrawal spend the same coins to the same destination for the
      same amount (and are the very same payout unless the quorum was
      reassigned in between); two released for different withdrawals share no
      coin, and no payout spends a coin twice. */
  lemma NeverDoublePay(env: Env, ops: seq<Op>, j: nat, k: nat)
    requires j <= k < |ops| && ops[j].Guard? && ops[k].Guard?
    requires Answer(env, EMPTY, ops, j).Ok? && Answer(env, EMPTY, ops, k).Ok?
    ensures var p, q := Answer(env, EMPTY, ops, j).value, Answer(env, EMPTY, ops, k).value;
            && p.index == ops[j].i && q.index == ops[k].i
            && p.inputs != [] && NoneTwice(p.inputs)
            && (p.index == q.index ==>
                  && SamePayment(p, q) && p.attempt <= q.attempt
                  && (p.attempt == q.attempt ==> SameDesignation(p, q)))
            && (p.index != q.index ==> NoneShared(p.inputs, q.inputs))
  {
    var s, t := Run(env, EMPTY, ops[..j]), Run(env, EMPTY, ops[..k]);
    RunGood(env, EMPTY, ops[..j]);
    RunSplit(env, EMPTY, ops[..k], j);
    assert ops[..k][..j] == ops[..j];
    RunGood(env, s, ops[..k][j..]);
    GuardReleasesExactly(env, s, ops[j].i, ops[j].at);
    GuardReleasesExactly(env, t, ops[k].i, ops[k].at);
    SameCoins(s, t, ops[j].i);
    var p, q := Answer(env, EMPTY, ops, j).value, Answer(env, EMPTY, ops, k).value;
    hide Run, Consistent, Evolves, Signable, VerifyAndLoad;
    CarriedAlike(s, t, p, q);
  }

  /** What two reachable tables hand out for one row, or for two. */
  lemma CarriedAlike(s: State, t: State, p: SignablePayout, q: SignablePayout)
    requires Consistent(s) && Good(s, t) && Carries(s, p.index, p) && Carries(t, q.index, q)
    ensures NoneTwice(p.inputs)
    ensures p.index == q.index ==>
              SamePayment(p, q) && p.attempt <= q.attempt && (p.attempt == q.attempt ==> SameDesignation(p, q))
    ensures p.index != q.index ==> NoneShared(p.inputs, q.inputs)
  {
    hide Consistent, Evolves, Spends, NoneTwice, NoneShared, SamePayment, SameDesignation, PayoutEvolves, Disjoint;
    SameCoins(s, t, p.index);
    OwnedOnce(s, p.index);
    SpendsNoneTwice(s, s.payouts[p.index].terms.inputs, p.inputs);
    if p.index == q.index {
      CarriedForOne(s, t, p, q);
    } else {
      SpendsNoneShared(s, t, s.payouts[p.index].terms.inputs, t.payouts[q.index].terms.inputs, p.inputs, q.inputs);
    }
  }

  lemma CarriedForOne(s: State, t: State, p: SignablePayout, q: SignablePayout)
    requires Good(s, t) && p.index == q.index && Carries(s, p.index, p) && Carries(t, q.index, q)
    ensures SamePayment(p, q) && p.attempt <= q.attempt && (p.attempt == q.attempt ==> SameDesignation(p, q))
  {
    hide Consistent, Evolves, Spends, SameInputs;
    EvolvesPayout(s, t, p.index);
    EvolvesRequest(s, t, p.index);
    EvolvesCoins(s, t);
    SpendsAlike(s, t, s.payouts[p.index].terms.inputs, p.inputs, q.inputs);
  }

  lemma SpendsNoneTwice(s: State, coins: seq<Coin>, inputs: seq<SignableInput>)
    requires Spends(s, coins, inputs) && forall a, b :: 0 <= a < b < |coins| ==> coins[a].outpoint != coins[b].outpoint
    ensures NoneTwice(inputs)
  {
  }

  lemma SpendsNoneShared(
      s: State, t: State, a: seq<Coin>, b: seq<Coin>, inputs: seq<SignableInput>, others: seq<SignableInput>)
    requires Spends(s, a, inputs) && Spends(t, b, others) && Disjoint(a, b)
    ensures NoneShared(inputs, others)
  {
  }

  lemma SpendsAlike(s: State, t: State, coins: seq<Coin>, a: seq<SignableInput>, b: seq<SignableInput>)
    requires Spends(s, coins, a) && Spends(t, coins, b)
    requires forall k :: 0 <= k < |coins| ==>
               coins[k].outpoint in s.utxos ==>
                 coins[k].outpoint in t.utxos && t.utxos[coins[k].outpoint].script == s.utxos[coins[k].outpoint].script
    ensures SameInputs(a, b)
  {
  }

  lemma OwnedOnce(s: State, i: i64)
    requires Consistent(s) && i in s.payouts
    ensures var coins := s.payouts[i].terms.inputs;
            forall a, b :: 0 <= a < b < |coins| ==> coins[a].outpoint != coins[b].outpoint
  {
  }

  lemma EvolvesRequest(s: State, t: State, i: i64)
    requires Good(s, t) && i in s.withdrawals
    ensures i in t.withdrawals && SameRequest(s.withdrawals[i], t.withdrawals[i])
  {
  }

  lemma EvolvesCoins(s: State, t: State)
    requires Good(s, t)
    ensures forall o :: o in s.utxos ==> o in t.utxos && t.utxos[o].script == s.utxos[o].script
  {
    hide Consistent, RequestsKept, PayoutsEvolve;
    forall o | o in s.utxos ensures o in t.utxos && t.utxos[o].script == s.utxos[o].script {
      assert UtxoEvolves(s.utxos[o], t.utxos[o]);
    }
  }

  lemma SameCoins(s: State, t: State, i: i64)
    requires Good(s, t) && i in s.payouts
    ensures i in t.payouts && t.payouts[i].terms == s.payouts[i].terms
    ensures forall j :: j in t.payouts && j != i ==> Disjoint(s.payouts[i].terms.inputs, t.payouts[j].terms.inputs)
  {
    assert PayoutEvolves(s.payouts[i], t.payouts[i]);
  }

  /** Once a signature is recorded it is the only one: the signed bytes, the
      txid, the quorum, the intent and the commitment never change again, and
      the guard never releases that withdrawal again. */
  lemma SignedIsFinal(env: Env, s: State, ops: seq<Op>, i: i64, at: i64)
    requires Consistent(s) && i in s.payouts && s.payouts[i].signed.Some?
    ensures var t := Run(env, s, ops);
            && i in t.payouts
            && t.payouts[i].signed == s.payouts[i].signed
            && t.payouts[i].designation == s.payouts[i].designation
            && t.payouts[i].terms == s.payouts[i].terms
            && VerifyAndLoad(env, t, i, at).1.Err?
            && (forall next, reason :: ReassignQuorum(t, i, next, reason, at).0 == t)
  {
    RunGood(env, s, ops);
    var t := Run(env, s, ops);
    assert PayoutEvolves(s.payouts[i], t.payouts[i]);
    GuardReleasesExactly(env, t, i, at);
  }

  // ---------------------------------------------------------- frozen inputs

  predicate HoldsInputs(s: State, i: i64) {
    i in s.payouts && forall k :: 0 <= k < |s.payouts[i].terms.inputs| ==> Held(s, i, s.payouts[i].terms.inputs[k])
  }

  predicate InputsSpent(s: State, i: i64) {
    i in s.payouts
    && forall k :: 0 <= k < |s.payouts[i].terms.inputs| ==>
         var o := s.payouts[i].terms.inputs[k].outpoint; o in s.utxos && s.utxos[o].state == Spent
  }

  lemma {:induction false} SyncKeepsReserved(utxos: map<Outpoint, Utxo>, observed: seq<ObservedUtxo>, min: i64, at: i64, o: Outpoint)
    requires o in utxos && utxos[o].state == Reserved
    ensures var after := SyncAll(utxos, observed, min, at);
            o in after && after[o] == utxos[o].(confirmations := after[o].confirmations)
  {
    if observed == [] {
    } else {
      SyncKeepsReserved(utxos, observed[..|observed| - 1], min, at, o);
    }
  }

  /** No operation but its own completion takes a coin from a payout. */
  lemma StepKeepsHeld(env: Env, s: State, op: Op, i: i64, c: Coin)
    requires Consistent(s) && i in s.payouts && Held(s, i, c) && !Completes(op, i)
    ensures var t := Step(env, s, op);
            && Held(t, i, c)
            && t.utxos[c.outpoint] == s.utxos[c.outpoint].(confirmations := t.utxos[c.outpoint].confirmations)
  {
    hide Consistent, Judge;
    match op
    case Sync(observed, min, at) => SyncKeepsReserved(s.utxos, observed, min, at, c.outpoint);
    case _ =>
  }

  lemma StepKeepsInputs(env: Env, s: State, op: Op, i: i64)
    requires Consistent(s) && HoldsInputs(s, i) && !Completes(op, i)
    ensures HoldsInputs(Step(env, s, op), i)
  {
    hide Step, Consistent;
    StepGood(env, s, op);
    assert PayoutEvolves(s.payouts[i], Step(env, s, op).payouts[i]) by { hide *; EvolvesPayout(s, Step(env, s, op), i); }
    var coins := s.payouts[i].terms.inputs;
    forall k | 0 <= k < |coins| ensures Held(Step(env, s, op), i, coins[k]) {
      StepKeepsHeld(env, s, op, i, coins[k]);
    }
  }

  lemma EvolvesPayout(s: State, t: State, i: i64)
    requires Good(s, t) && i in s.payouts
    ensures i in t.payouts && PayoutEvolves(s.payouts[i], t.payouts[i])
  {
  }

  lemma EvolvesHistory(s: State, t: State)
    requires Good(s, t)
    ensures s.history <= t.history
  {
  }

  lemma {:induction false} RunKeepsInputs(env: Env, s: State, ops: seq<Op>, i: i64)
    requires Consistent(s) && HoldsInputs(s, i)
    requires forall k :: 0 <= k < |ops| ==> !Completes(ops[k], i)
    ensures HoldsInputs(Run(env, s, ops), i)
    decreases |ops|
  {
    if ops == [] {
    } else {
      StepKeepsInputs(env, s, ops[0], i);
      StepGood(env, s, ops[0]);
      RunKeepsInputs(env, Step(env, s, ops[0]), ops[1..], i);
    }
  }

  lemma CompletionSpends(s: State, i: i64, at: i64)
    requires Consistent(s) && HoldsInputs(s, i)
    ensures InputsSpent(CompletePayout(s, i, at).0, i)
  {
  }

  lemma RunKeepsSpent(env: Env, s: State, ops: seq<Op>, i: i64)
    requires Consistent(s) && InputsSpent(s, i)
    ensures InputsSpent(Run(env, s, ops), i)
  {
    RunGood(env, s, ops);
    var t := Run(env, s, ops);
    assert PayoutEvolves(s.payouts[i], t.payouts[i]);
    forall k | 0 <= k < |s.payouts[i].terms.inputs|
      ensures var o := s.payouts[i].terms.inputs[k].outpoint; o in t.utxos && t.utxos[o].state == Spent
    {
      var o := s.payouts[i].terms.inputs[k].outpoint;
      assert UtxoEvolves(s.utxos[o], t.utxos[o]);
    }
  }

  /** A payout built over coins it has reserved keeps every one of them
      through any operations, until its own completion; from then on they are
      spent forever. */
  lemma CommittedInputsAreFrozen(env: Env, s: State, p: NewPayout, before: seq<Op>, at: i64, after: seq<Op>)
    requires Consistent(s) && Creatable(s, p)
    requires forall k :: 0 <= k < |p.terms.inputs| ==> Held(s, p.index, p.terms.inputs[k])
    requires forall k :: 0 <= k < |before| ==> !Completes(before[k], p.index)
    ensures var built := Run(env, CreatePayout(s, p).0, before);
            && HoldsInputs(built, p.index)
            && InputsSpent(Run(env, CompletePayout(built, p.index, at).0, after), p.index)
            && built.payouts[p.index].terms == p.terms
  {
    var created := CreatePayout(s, p).0;
    CreateGood(s, p);
    RunGood(env, created, before);
    RunKeepsInputs(env, created, before, p.index);
    var built := Run(env, created, before);
    EvolvesPayout(created, built, p.index);
    CompleteGood(built, p.index, at);
    CompletionSpends(built, p.index, at);
    RunKeepsSpent(env, CompletePayout(built, p.index, at).0, after, p.index);
  }

  /** A reservation that fails leaves every table as it was; one that
      succeeds holds exactly the named coins, which were all free. */
  lemma ReservationIsAtomic(s: State, i: i64, outs: seq<Outpoint>, at: i64)
    requires Consistent(s)
    ensures var (t, ok) := ReserveUtxos(s, i, outs, at);
            && (!ok ==> t == s)
            && (ok ==> HeldBy(t, i) == HeldBy(s, i) + (set k | 0 <= k < |outs| :: outs[k])
                       && forall k :: 0 <= k < |outs| ==> outs[k] !in HeldBy(s, i))
  {
    var (t, ok) := ReserveUtxos(s, i, outs, at);
    if ok {
      forall k | 0 <= k < |outs| ensures s.utxos[outs[k]].reservedBy == None {
        assert UtxoOk(s, s.utxos[outs[k]]);
      }
      forall o ensures o in HeldBy(t, i) <==> o in HeldBy(s, i) + (set k | 0 <= k < |outs| :: outs[k]) {
        if o in outs { var k :| 0 <= k < |outs| && outs[k] == o; }
      }
    }
  }

  // -------------------------------------------------------- guard isolation

  /** The only operations that can end a payout's being signable. */
  predicate Retires(op: Op, i: i64) {
    match op
    case Signed(j, _, _, _) => j == i
    case Confirmations(j, n, _, _) => j == i && n > 0
    case Complete(j, _) => j == i
    case Reassign(j, _, _, _) => j == i
    case _ => false
  }

  predicate SameScripts(s: State, t: State, coins: seq<Coin>) {
    forall k :: 0 <= k < |coins| ==>
      && coins[k].outpoint in s.utxos && coins[k].outpoint in t.utxos
      && t.utxos[coins[k].outpoint].script == s.utxos[coins[k].outpoint].script
  }

  /** The rows the guard reads, as the guard reads them. */
  predicate SameCommitment(s: State, t: State, i: i64) {
    && i in s.payouts && i in t.payouts && i in s.withdrawals && i in t.withdrawals
    && t.payouts[i].terms == s.payouts[i].terms && t.payouts[i].designation == s.payouts[i].designation
    && t.withdrawals[i].hash160 == s.withdrawals[i].hash160 && SameScripts(s, t, s.payouts[i].terms.inputs)
  }

  lemma StepKeepsSignable(env: Env, s: State, op: Op, i: i64)
    requires Consistent(s) && Signable(env, s, i) && !Retires(op, i)
    ensures var t := Step(env, s, op);
            && Signable(env, t, i)
            && SameCommitment(s, t, i)
  {
    hide Step, Consistent;
    var t := Step(env, s, op);
    PayoutFrame(env, s, op, i);
    WithdrawalFrame(env, s, op, i);
    var coins := s.payouts[i].terms.inputs;
    forall k | 0 <= k < |coins|
      ensures Held(t, i, coins[k]) && t.utxos[coins[k].outpoint].amount == coins[k].amount
      ensures t.utxos[coins[k].outpoint].script == s.utxos[coins[k].outpoint].script
    {
      StepKeepsHeld(env, s, op, i, coins[k]);
    }
    var w, w' := s.withdrawals[i], t.withdrawals[i];
    assert w'.version == w.version && w'.hash160 == w.hash160 && w'.amount == w.amount;
  }

  lemma SameCommitmentTransitive(s: State, t: State, u: State, i: i64)
    requires SameCommitment(s, t, i) && SameCommitment(t, u, i)
    ensures SameCommitment(s, u, i)
  {
  }

  lemma {:induction false} RunKeepsSignable(env: Env, s: State, ops: seq<Op>, i: i64)
    requires Consistent(s) && Signable(env, s, i)
    requires forall k :: 0 <= k < |ops| ==> !Retires(ops[k], i)
    ensures Signable(env, Run(env, s, ops), i) && SameCommitment(s, Run(env, s, ops), i)
    decreases |ops|
  {
    if ops == [] {
      SameAsItself(env, s, i);
    } else {
      var t := Step(env, s, ops[0]);
      hide Step, Signable, Consistent, Evolves, SameCommitment, Retires;
      StepKeepsSignable(env, s, ops[0], i);
      StepGood(env, s, ops[0]);
      RunKeepsSignable(env, t, ops[1..], i);
      SameCommitmentTransitive(s, t, Run(env, t, ops[1..]), i);
    }
  }

  lemma SameAsItself(env: Env, s: State, i: i64)
    requires Signable(env, s, i)
    ensures SameCommitment(s, s, i)
  {
    hide Canonical;
  }

  lemma ReleasedAlike(env: Env, s: State, t: State, i: i64, now: i64, at: i64)
    requires Signable(env, s, i) && Signable(env, t, i) && SameCommitment(s, t, i)
    ensures var p, q := VerifyAndLoad(env, s, i, now).1, VerifyAndLoad(env, t, i, at).1;
            && p.Ok? && q.Ok? && SamePayment(p.value, q.value) && SameDesignation(p.value, q.value)
            && p.value.index == q.value.index == i && p.value.attempt == q.value.attempt
    ensures VerifyAndLoad(env, t, i, at).0 == t
  {
    GuardReleasesExactly(env, s, i, now);
    GuardReleasesExactly(env, t, i, at);
    var p, q := VerifyAndLoad(env, s, i, now).1.value, VerifyAndLoad(env, t, i, at).1.value;
    hide Signable, VerifyAndLoad, Spends, SameInputs;
    SpendsAlike(s, t, s.payouts[i].terms.inputs, p.inputs, q.inputs);
  }

  /** Whatever happens to other withdrawals and to the coin table, and
      whatever lifecycle state this one is put in, its guard keeps releasing
      the same payout. */
  lemma GuardIsIsolated(env: Env, s: State, ops: seq<Op>, i: i64, now: i64, at: i64)
    requires Consistent(s) && Signable(env, s, i)
    requires forall k :: 0 <= k < |ops| ==> !Retires(ops[k], i)
    ensures var t := Run(env, s, ops);
            && VerifyAndLoad(env, t, i, at).1.Ok?
            && VerifyAndLoad(env, t, i, at).0 == t
            && var p, q := VerifyAndLoad(env, s, i, now).1, VerifyAndLoad(env, t, i, at).1.value;
            && p.Ok? && SamePayment(p.value, q) && SameDesignation(p.value, q)
            && q.index == i && q.attempt == p.value.attempt
  {
    hide Signable, Consistent, Run, VerifyAndLoad, SameCommitment, SamePayment, SameDesignation;
    RunKeepsSignable(env, s, ops, i);
    ReleasedAlike(env, s, Run(env, s, ops), i, now, at);
  }

  /** The payout handed out is the one that was built, over its own coins. */
  predicate Builds(s: State, p: NewPayout, q: SignablePayout) {
    && p.index in s.withdrawals && q.index == p.index && q.dest == s.withdrawals[p.index].hash160
    && q.payout == p.terms.payout && q.fee == p.terms.fee && q.change == p.terms.change
    && q.changeAddress == p.terms.changeAddress && q.vault == p.terms.vault
    && q.unsignedTx == p.designation.unsignedTx && q.quorum == p.designation.quorum && q.attempt == p.designation.attempt
    && q.commitment == p.designation.commitment && q.intent == p.designation.intent
    && |q.inputs| == |p.terms.inputs|
    && forall k :: 0 <= k < |q.inputs| ==>
         && q.inputs[k].coin == p.terms.inputs[k] && q.inputs[k].coin.outpoint in s.utxos
         && q.inputs[k].script == s.utxos[q.inputs[k].coin.outpoint].script
  }

  /** Reserving the coins and then building a payout that carries the
      canonical intent for the burned amount is enough to be signable, and so
      to stay signable. */
  lemma BuiltPayoutIsReleased(env: Env, s: State, p: NewPayout, at: i64, ops: seq<Op>, later: i64)
    requires Consistent(s)
    requires ReserveUtxos(s, p.index, Outpoints(p.terms.inputs), at).1
    requires Creatable(s, p) && p.terms.inputs != []
    requires forall k :: 0 <= k < |p.terms.inputs| ==> s.utxos[p.terms.inputs[k].outpoint].amount == p.terms.inputs[k].amount
    requires Canonical(env, s.withdrawals[p.index], p.index, p.terms, p.designation)
    requires p.terms.payout == s.withdrawals[p.index].amount
    requires forall k :: 0 <= k < |ops| ==> !Retires(ops[k], p.index)
    ensures var reserved := ReserveUtxos(s, p.index, Outpoints(p.terms.inputs), at).0;
            var t := Run(env, CreatePayout(reserved, p).0, ops);
            && VerifyAndLoad(env, t, p.index, later).1.Ok?
            && VerifyAndLoad(env, t, p.index, later).0 == t
            && Builds(s, p, VerifyAndLoad(env, t, p.index, later).1.value)
  {
    var outs := Outpoints(p.terms.inputs);
    var reserved := ReserveUtxos(s, p.index, outs, at).0;
    assert forall k :: 0 <= k < |outs| ==> outs[k] in outs;
    assert reserved.payouts == s.payouts && reserved.withdrawals == s.withdrawals;
    assert Creatable(reserved, p) by {
      forall k | 0 <= k < |p.terms.inputs| ensures !Committed(reserved, p.terms.inputs[k].outpoint) {
        assert !Committed(s, p.terms.inputs[k].outpoint);
      }
    }
    var built := CreatePayout(reserved, p).0;
    forall k | 0 <= k < |p.terms.inputs|
      ensures Held(built, p.index, p.terms.inputs[k])
              && built.utxos[p.terms.inputs[k].outpoint].amount == p.terms.inputs[k].amount
    {
      assert outs[k] in reserved.utxos;
    }
    assert Signable(env, built, p.index);
    ReserveGood(s, p.index, outs, at);
    CreateGood(reserved, p);
    GuardReleasesExactly(env, built, p.index, at);
    GuardIsIsolated(env, built, ops, p.index, at, later);
  }

  /** Tamper evidence. Take two states, arbitrarily far apart, in which the
      guard releases the same withdrawal under the same stored commitment.
      Then every amount, hash and attempt committed to is the same in both,
      and so are the quorum and the inputs as far as the encoding can tell
      them apart: no edit of any number of committed columns, or of any stored
      input, can pass the guard unless the commitment is replaced as well. */
  lemma CommitmentPinsEveryField(env: Env, s: State, t: State, i: i64)
    requires Signable(env, s, i) && Signable(env, t, i)
    requires s.payouts[i].designation.commitment == t.payouts[i].designation.commitment
    requires env.sha(s.payouts[i].designation.intent) == env.sha(t.payouts[i].designation.intent)
             ==> s.payouts[i].designation.intent == t.payouts[i].designation.intent
    ensures var p, q := s.payouts[i], t.payouts[i];
            && p.terms.payout == q.terms.payout && p.terms.fee == q.terms.fee
            && p.terms.change == q.terms.change && p.terms.vault == q.terms.vault
            && ChangeHash(env, p.terms) == ChangeHash(env, q.terms)
            && p.designation.attempt == q.designation.attempt
            && s.withdrawals[i].hash160 == t.withdrawals[i].hash160 && s.withdrawals[i].version == t.withdrawals[i].version
            && s.withdrawals[i].amount == t.withdrawals[i].amount
            && (Encodable(p) && Encodable(q) ==>
                  p.terms.inputs == q.terms.inputs && p.designation.quorum == q.designation.quorum)
  {
    var p, q := s.payouts[i], t.payouts[i];
    var f := IntentOf(s.withdrawals[i], i, p.terms, ChangeHash(env, p.terms).value, p.designation);
    var g := IntentOf(t.withdrawals[i], i, q.terms, ChangeHash(env, q.terms).value, q.designation);
    assert Encode(f) == Encode(g);
    hide Signable;
    SameFixedFields(f, g);
    if InBounds(f) && InBounds(g) {
      EncodeInjective(f, g);
    }
  }

  /** The quorum and inputs fit the widths the intent gives them. */
  predicate Encodable(p: Payout) {
    && |p.designation.quorum| < 0x100 && |p.terms.inputs| < 0x1_0000_0000
    && forall k :: 0 <= k < |p.terms.inputs| ==> 0 <= p.terms.inputs[k].outpoint.vout < 0x1_0000_0000
  }

  // ------------------------------------------------ the reassignment history

  predicate IsCurrent(p: Payout, row: HistoryRow) {
    row.attempt == p.designation.attempt && row.quorum == p.designation.quorum && row.commitment == p.designation.commitment
  }

  predicate OnRecord(history: seq<HistoryRow>, p: Payout, i: i64) {
    exists k :: 0 <= k < |history| && history[k].index == i && IsCurrent(p, history[k])
  }

  lemma StaysOnRecord(before: seq<HistoryRow>, after: seq<HistoryRow>, p: Payout, i: i64)
    requires OnRecord(before, p, i) && before <= after
    ensures OnRecord(after, p, i)
  {
    var k :| 0 <= k < |before| && before[k].index == i && IsCurrent(p, before[k]);
    assert after[k] == before[k];
  }

  lemma ReplacedIsRecorded(env: Env, s: State, op: Op, i: i64)
    requires i in s.payouts && i in Step(env, s, op).payouts
    requires Step(env, s, op).payouts[i].designation.attempt != s.payouts[i].designation.attempt
    ensures OnRecord(Step(env, s, op).history, s.payouts[i], i)
  {
    hide Step;
    OnlyReassignMoves(env, s, op, i);
    assert IsCurrent(s.payouts[i], Step(env, s, op).history[|s.history|]);
  }

  /** A designation that has been replaced is on record, with its quorum and
      its commitment, in every later state. */
  lemma {:induction false} SupersededIsOnRecord(env: Env, s: State, ops: seq<Op>, i: i64)
    requires Consistent(s) && i in s.payouts
    ensures var t := Run(env, s, ops);
            && i in t.payouts
            && (t.payouts[i].designation.attempt != s.payouts[i].designation.attempt ==>
                  OnRecord(t.history, s.payouts[i], i))
    decreases |ops|
  {
    if ops == [] {
    } else {
      var t, u := Step(env, s, ops[0]), Run(env, s, ops);
      hide Step, Consistent, Evolves, OnRecord;
      StepGood(env, s, ops[0]);
      RunGood(env, t, ops[1..]);
      EvolvesPayout(s, t, i);
      EvolvesHistory(t, u);
      if t.payouts[i].designation.attempt == s.payouts[i].designation.attempt {
        SupersededIsOnRecord(env, t, ops[1..], i);
      } else {
        ReplacedIsRecorded(env, s, ops[0], i);
        StaysOnRecord(t.history, u.history, s.payouts[i], i);
      }
    }
  }

  lemma OnlyReassignMoves(env: Env, s: State, op: Op, i: i64)
    requires i in s.payouts
    requires i in Step(env, s, op).payouts
    requires Step(env, s, op).payouts[i].designation.attempt != s.payouts[i].designation.attempt
    ensures IsReassign(op, i)
    ensures Step(env, s, op).history
            == s.history + [HistoryRow(i, s.payouts[i].designation.attempt, s.payouts[i].designation.quorum,
                                       s.payouts[i].designation.commitment, op.at, op.reason)]
  {
    assert IsReassign(op, i) by {
      hide Step;
      PayoutFrame(env, s, op, i);
    }
  }

  function AttemptsOf(h: seq<HistoryRow>, i: i64): seq<int> {
    if h == [] then [] else
      var last := h[|h| - 1];
      AttemptsOf(h[..|h| - 1], i) + (if last.index == i then [last.attempt as int] else [])
  }

  function UpTo(n: nat): seq<int> { seq(n, k => k) }

  predicate StartsAtZero(op: Op) { op.Create? ==> op.p.designation.attempt == 0 }

  ghost predicate Numbered(s: State) {
    && (forall i :: i in s.payouts ==> AttemptsOf(s.history, i) == UpTo(s.payouts[i].designation.attempt))
    && (forall i :: i !in s.payouts ==> AttemptsOf(s.history, i) == [])
  }

  lemma AttemptsSnoc(h: seq<HistoryRow>, row: HistoryRow, i: i64)
    ensures AttemptsOf(h + [row], i) == AttemptsOf(h, i) + (if row.index == i then [row.attempt as int] else [])
  {
    assert (h + [row])[..|h + [row]| - 1] == h;
  }

  lemma SameNumbers(s: State, t: State)
    requires Numbered(s) && t.history == s.history && s.payouts.Keys <= t.payouts.Keys
    requires forall i :: i in t.payouts ==>
               t.payouts[i].designation.attempt == if i in s.payouts then s.payouts[i].designation.attempt else 0
    ensures Numbered(t)
  {
    assert UpTo(0) == [];
  }

  lemma ReassignKeepsNumbered(s: State, i: i64, next: Designation, reason: string, at: i64)
    requires Numbered(s)
    ensures Numbered(ReassignQuorum(s, i, next, reason, at).0)
  {
    var (t, r) := ReassignQuorum(s, i, next, reason, at);
    if r.Ok? {
      var p := s.payouts[i];
      var n := p.designation.attempt;
      var row := HistoryRow(i, n, p.designation.quorum, p.designation.commitment, at, reason);
      forall j ensures AttemptsOf(t.history, j) == AttemptsOf(s.history, j) + (if j == i then [n as int] else []) {
        AttemptsSnoc(s.history, row, j);
      }
      assert UpTo(n + 1) == UpTo(n) + [n as int];
    }
  }

  /** Creation and reassignment are the only operations that set an attempt. */
  lemma AttemptFrame(env: Env, s: State, op: Op, i: i64)
    requires !op.Reassign? && StartsAtZero(op)
    ensures Step(env, s, op).history == s.history
    ensures i in s.payouts ==> i in Step(env, s, op).payouts
    ensures i in Step(env, s, op).payouts ==>
              Step(env, s, op).payouts[i].designation.attempt == if i in s.payouts then s.payouts[i].designation.attempt else 0
  {
    hide Judge, SyncAll, Missing, Hold, HeldBy;
    assert Step(env, s, op).history == s.history;
    hide Step;
    PayoutFrame(env, s, op, i);
  }

  lemma StepKeepsNumbered(env: Env, s: State, op: Op)
    requires Numbered(s) && StartsAtZero(op)
    ensures Numbered(Step(env, s, op))
  {
    if op.Reassign? {
      hide Numbered;
      ReassignKeepsNumbered(s, op.i, op.next, op.reason, op.at);
    } else {
      hide Step, Numbered;
      var t := Step(env, s, op);
      forall i
        ensures t.history == s.history && (i in s.payouts ==> i in t.payouts)
        ensures i in t.payouts ==> t.payouts[i].designation.attempt == if i in s.payouts then s.payouts[i].designation.attempt else 0
      {
        AttemptFrame(env, s, op, i);
      }
      SameNumbers(s, t);
    }
  }

  /** From an empty store, with payouts created at attempt 0, the history of
      a payout is exactly the attempts before the current one, in order. */
  lemma {:induction false} HistoryIsComplete(env: Env, s: State, ops: seq<Op>)
    requires Consistent(s) && Numbered(s)
    requires forall k :: 0 <= k < |ops| ==> StartsAtZero(ops[k])
    ensures Numbered(Run(env, s, ops))
    decreases |ops|
  {
    if ops == [] {
    } else {
      StepKeepsNumbered(env, s, ops[0]);
      StepGood(env, s, ops[0]);
      HistoryIsComplete(env, Step(env, s, ops[0]), ops[1..]);
    }
  }
}
