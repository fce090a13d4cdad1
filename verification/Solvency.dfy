/** The solvency check, and the ledger that explains when it holds: every
    mint and burn on Solana against every mint marked and every burn paid. */
module Solvency {
  import opened Bytes
  import opened Wrappers
  import opened Sums
  import D = DepositStore
  import DS = DepositScan
  import DepositDb
  import DI = DepositInvariants
  import DR = DepositRuns
  import O = Orchestrator
  import W = WithdrawalStore
  import WithdrawalDb
  import WI = WithdrawalInvariants
  import WC = WithdrawalContracts

  // ------------------------------------------------------------- the snapshot

  datatype Snapshot = Snapshot(supply: u64, deposits: u64, payouts: u64, fees: u64, balance: Option<u64>) {
    /** Saturating: payouts may be seen before the deposits behind them. */
    function BackingBound(): u64 { SaturatingSub(deposits, payouts) }

    predicate InvariantHolds() { supply <= BackingBound() }

    function Breach(): u64 { SaturatingSub(supply, BackingBound()) }

    function FeeDrift(): Option<u64> { if balance == None then None else Some(SaturatingSub(BackingBound(), balance.value)) }

    function DriftIsExplainedByFees(): Option<bool> { if FeeDrift() == None then None else Some(FeeDrift().value <= fees) }

    function UnexplainedDrift(): Option<u64> { if FeeDrift() == None then None else Some(SaturatingSub(FeeDrift().value, fees)) }
  }

  function SaturatingSub(a: u64, b: u64): u64 { if a < b then 0 else a - b }

  /** The alarms agree with each other: no breach is the invariant holding,
      and no unexplained drift is drift explained by fees. */
  lemma AlarmsAgree(s: Snapshot)
    ensures s.InvariantHolds() <==> s.Breach() == 0
    ensures s.Breach() > 0 ==> s.supply == s.BackingBound() + s.Breach()
    ensures s.DriftIsExplainedByFees() == Some(true) <==> s.UnexplainedDrift() == Some(0)
    ensures s.balance == None <==> s.UnexplainedDrift() == None
  {
  }

  // -------------------------------------------------------- the store's totals

  function Amounts(s: W.State): map<i64, nat> { map i | i in s.withdrawals :: s.withdrawals[i].amount }

  /** The burned amounts of withdrawals not in state `Completed`. */
  function Owed(s: W.State): map<i64, nat> {
    map i | i in s.withdrawals && s.withdrawals[i].state != W.Completed :: s.withdrawals[i].amount
  }

  predicate Finished(s: W.State, i: i64) { i in s.payouts && i in s.withdrawals && s.withdrawals[i].state == W.Completed }

  function PaidOut(s: W.State): map<i64, nat> { map i | i in s.payouts && Finished(s, i) :: s.payouts[i].terms.payout }

  function FeesPaid(s: W.State): map<i64, nat> { map i | i in s.payouts && Finished(s, i) :: s.payouts[i].terms.fee }

  lemma OneOfRest(m: map<i64, nat>, rest: set<i64>, i: i64)
    requires i in rest && rest <= m.Keys
    ensures Sum(Only(m, rest)) == m[i] + Sum(Only(m, rest - {i}))
  {
    Without(Only(m, rest), i);
    assert Only(m, rest) - {i} == Only(m, rest - {i});
  }

  function Only(m: map<i64, nat>, keys: set<i64>): map<i64, nat> { map i | i in m && i in keys :: m[i] }

  method CompletedPayoutTotal(db: WithdrawalDb.Db) returns (total: nat)
    ensures total == Sum(PaidOut(db.Contents()))
  {
    ghost var all := PaidOut(db.Contents());
    var rest := set i | i in db.payouts && i in db.withdrawals && db.withdrawals[i].state == W.Completed;
    total := 0;
    assert Only(all, rest) == all;
    while rest != {}
      invariant rest <= all.Keys && total + Sum(Only(all, rest)) == Sum(all)
      decreases |rest|
    {
      var i :| i in rest;
      OneOfRest(all, rest, i);
      total := total + db.payouts[i].terms.payout;
      rest := rest - {i};
    }
    assert Only(all, {}) == map[];
  }

  method VaultFeesPaidTotal(db: WithdrawalDb.Db) returns (total: nat)
    ensures total == Sum(FeesPaid(db.Contents()))
  {
    ghost var all := FeesPaid(db.Contents());
    var rest := set i | i in db.payouts && i in db.withdrawals && db.withdrawals[i].state == W.Completed;
    total := 0;
    assert Only(all, rest) == all;
    while rest != {}
      invariant rest <= all.Keys && total + Sum(Only(all, rest)) == Sum(all)
      decreases |rest|
    {
      var i :| i in rest;
      OneOfRest(all, rest, i);
      total := total + db.payouts[i].terms.fee;
      rest := rest - {i};
    }
    assert Only(all, {}) == map[];
  }

  /** The two stores' totals beside the chain's readings, or nothing when a
      total does not fit 64 bits. */
  method SnapshotFromDb(deposits: DepositDb.Db, withdrawals: WithdrawalDb.Db, supply: u64, balance: Option<u64>)
    returns (s: Option<Snapshot>)
    ensures s == None <==>
              || D.MintedSum(deposits.deposits) > U64_MAX
              || Sum(PaidOut(withdrawals.Contents())) > U64_MAX || Sum(FeesPaid(withdrawals.Contents())) > U64_MAX
    ensures s.Some? ==>
              && s.value.supply == supply && s.value.balance == balance
              && s.value.deposits == D.MintedSum(deposits.deposits)
              && s.value.payouts == Sum(PaidOut(withdrawals.Contents()))
              && s.value.fees == Sum(FeesPaid(withdrawals.Contents()))
  {
    var minted := deposits.MintedDepositTotal();
    var paid := CompletedPayoutTotal(withdrawals);
    var fees := VaultFeesPaidTotal(withdrawals);
    s := if minted > U64_MAX || paid > U64_MAX || fees > U64_MAX then None
    else Some(Snapshot(supply, minted, paid, fees, balance));
  }

  // ---------------------------------------------------------------- the ledger

  /** Both stores beside the chain: the wrapped supply, the claim accounts with
      what each minted, the burns not yet observed. */
  datatype Ledger = Ledger(
    deposits: D.State, withdrawals: W.State, supply: nat, claims: map<O.ClaimKey, nat>, unobserved: map<i64, nat>)

  datatype Event =
    | MintOnChain(id: nat)
    | BurnOnChain(index: i64, amount: u64)
    | Deposit(action: DR.Action)
    | Withdrawal(op: W.Op)

  datatype World = World(deposits: DR.World, env: W.Env)

  /** An outpoint is minted once, a row is marked when its outpoint has been
      minted, and each burn is observed as it happened; the stores are driven
      as their own rules say. */
  predicate Allowed(w: World, l: Ledger, e: Event) {
    match e
    case MintOnChain(id) => id < |l.deposits.deposits| && O.KeyOf(l.deposits.deposits[id]) !in l.claims
    case BurnOnChain(i, amount) => i !in l.unobserved && i !in l.withdrawals.withdrawals && amount <= l.supply
    case Deposit(a) => DR.Enabled(w.deposits, l.deposits, a) && (a.Mint? ==> O.KeyOf(l.deposits.deposits[a.id]) in l.claims)
    case Withdrawal(op) =>
      && WC.KeepsRules(w.env, l.withdrawals, op)
      && (op.Observe? ==> op.w.index in l.withdrawals.withdrawals
                          || (op.w.index in l.unobserved && l.unobserved[op.w.index] == op.w.amount))
  }

  predicate Inserts(w: World, l: Ledger, op: W.Op) {
    op.Observe? && op.w.index !in l.withdrawals.withdrawals && op.w.index in W.Step(w.env, l.withdrawals, op).withdrawals
  }

  function After(w: World, l: Ledger, e: Event): Ledger
    requires Allowed(w, l, e)
  {
    match e
    case MintOnChain(id) =>
      var d := l.deposits.deposits[id];
      l.(supply := l.supply + d.amount, claims := l.claims[O.KeyOf(d) := d.amount])
    case BurnOnChain(i, amount) => l.(supply := l.supply - amount, unobserved := l.unobserved[i := amount])
    case Deposit(a) => l.(deposits := DR.Next(w.deposits, l.deposits, a))
    case Withdrawal(op) =>
      l.(withdrawals := W.Step(w.env, l.withdrawals, op),
         unobserved := if Inserts(w, l, op) then l.unobserved - {op.w.index} else l.unobserved)
  }

  predicate Marked(deposits: seq<D.Deposit>, key: O.ClaimKey) {
    exists id :: 0 <= id < |deposits| && deposits[id].state == DS.Minted && O.KeyOf(deposits[id]) == key
  }

  /** The mints whose outpoint has no minted row yet. */
  function Unmarked(deposits: seq<D.Deposit>, claims: map<O.ClaimKey, nat>): map<O.ClaimKey, nat> {
    map key | key in claims && !Marked(deposits, key) :: claims[key]
  }

  predicate Names(d: D.Deposit, key: O.ClaimKey, amount: nat) { O.KeyOf(d) == key && d.amount == amount }

  /** Every claim minted the amount of a recorded row. */
  predicate Priced(deposits: seq<D.Deposit>, claims: map<O.ClaimKey, nat>) {
    forall key :: key in claims ==> exists id :: 0 <= id < |deposits| && Names(deposits[id], key, claims[key])
  }

  /** Conservation: what was minted is in circulation, burned and known, or
      burned and not yet known. */
  ghost predicate Conserved(l: Ledger) {
    && l.unobserved.Keys !! l.withdrawals.withdrawals.Keys
    && l.supply + Sum(Amounts(l.withdrawals)) + Sum(l.unobserved) == Sum(l.claims)
  }

  ghost predicate Books(w: World, l: Ledger) {
    && DI.Inv(w.deposits.tree, w.deposits.scan, l.deposits)
    && WI.Consistent(l.withdrawals) && WC.Settled(l.withdrawals)
    && O.Backed(l.deposits.deposits, l.claims.Keys) && Priced(l.deposits.deposits, l.claims)
    && Conserved(l)
  }

  // ----------------------------------------------------- the books stay balanced

  predicate SameValue(d: D.Deposit, e: D.Deposit) { d.amount == e.amount && (d.state == DS.Minted <==> e.state == DS.Minted) }

  /** Only marking a mint makes a row minted, and nothing unmakes one. */
  lemma MintedFrame(w: DR.World, s: D.State, a: DR.Action)
    requires DI.Inv(w.tree, w.scan, s) && DR.Enabled(w, s, a) && !a.Mint?
    ensures var u := DR.Next(w, s, a);
            && |s.deposits| <= |u.deposits|
            && (forall id :: 0 <= id < |s.deposits| ==> SameValue(s.deposits[id], u.deposits[id]))
            && (forall id :: |s.deposits| <= id < |u.deposits| ==> u.deposits[id].state != DS.Minted)
  {
    var u := DR.Next(w, s, a);
    if DR.TouchesOneRow(a) {
      hide DR.Next, DR.Enabled, DI.Inv;
      DR.RowFrame(w, s, a);
    } else if a.Ingest? {
      hide DI.Inv, DI.CandidatesOf, DI.FromBlock, D.InsertAll;
      DI.IngestKeeps(w.tree, w.scan, s, a.height, a.block);
      DI.CandidatesFromBlock(w.tree, w.scan, a.height, a.block);
      var cs, p := DI.CandidatesOf(w.tree, w.scan, a.height, a.block), DS.Place(a.height, a.block.hash, a.block.at);
      forall id | |s.deposits| <= id < |u.deposits| ensures u.deposits[id].state != DS.Minted {
        assert DI.StartsAs(u.deposits[id], cs);
        var c :| c in cs && u.deposits[id] == D.FreshRow(c);
        DI.StartsWaiting(w.tree, w.scan, c, p);
      }
    } else {
      hide DI.Inv, D.OrphanLog;
    }
  }

  lemma MarkedMint(w: DR.World, s: D.State, a: DR.Action)
    requires DR.Enabled(w, s, a) && a.Mint?
    ensures var u := DR.Next(w, s, a);
            && a.id < |s.deposits| && |u.deposits| == |s.deposits| && u.deposits == s.deposits[a.id := u.deposits[a.id]]
            && u.deposits[a.id].state == DS.Minted && u.deposits[a.id].amount == s.deposits[a.id].amount
            && s.deposits[a.id].state != DS.Minted
  {
  }

  lemma PricedOn(before: seq<D.Deposit>, after: seq<D.Deposit>, claims: map<O.ClaimKey, nat>)
    requires Priced(before, claims) && DI.RowsKept(before, after)
    ensures Priced(after, claims)
  {
    forall key | key in claims ensures exists id :: 0 <= id < |after| && Names(after[id], key, claims[key]) {
      var id :| 0 <= id < |before| && Names(before[id], key, claims[key]);
      assert Names(after[id], key, claims[key]);
    }
  }

  lemma BackedOn(before: seq<D.Deposit>, after: seq<D.Deposit>, claims: set<O.ClaimKey>)
    requires O.Backed(before, claims) && DI.RowsKept(before, after)
    requires forall id :: 0 <= id < |before| && after[id].state == DS.Minted ==>
               before[id].state == DS.Minted || O.KeyOf(before[id]) in claims
    requires forall id :: |before| <= id < |after| ==> after[id].state != DS.Minted
    ensures O.Backed(after, claims)
  {
  }

  lemma DepositKeepsBooks(w: World, l: Ledger, a: DR.Action)
    requires Books(w, l) && Allowed(w, l, Deposit(a))
    ensures Books(w, After(w, l, Deposit(a)))
  {
    hide DI.Inv, DI.RowsKept, DR.Next, DR.Enabled, WI.Consistent, WC.Settled, Sum, O.Backed, Priced;
    var m := After(w, l, Deposit(a));
    var before, after := l.deposits.deposits, m.deposits.deposits;
    DR.NextKeeps(w.deposits, l.deposits, a);
    PricedOn(before, after, l.claims);
    if a.Mint? {
      MarkedMint(w.deposits, l.deposits, a);
    } else {
      MintedFrame(w.deposits, l.deposits, a);
    }
    BackedOn(before, after, l.claims.Keys);
  }

  lemma MintPriced(deposits: seq<D.Deposit>, claims: map<O.ClaimKey, nat>, id: nat)
    requires Priced(deposits, claims) && id < |deposits|
    ensures Priced(deposits, claims[O.KeyOf(deposits[id]) := deposits[id].amount])
  {
    var key, after := O.KeyOf(deposits[id]), claims[O.KeyOf(deposits[id]) := deposits[id].amount];
    forall k | k in after ensures exists j :: 0 <= j < |deposits| && Names(deposits[j], k, after[k]) {
      if k == key {
        assert Names(deposits[id], k, after[k]);
      }
    }
  }

  lemma MintKeepsBooks(w: World, l: Ledger, id: nat)
    requires Books(w, l) && Allowed(w, l, MintOnChain(id))
    ensures Books(w, After(w, l, MintOnChain(id)))
  {
    hide DI.Inv, WI.Consistent, WC.Settled, Sum, Priced;
    var d := l.deposits.deposits[id];
    Inserted(l.claims, O.KeyOf(d), d.amount);
    MintPriced(l.deposits.deposits, l.claims, id);
  }

  lemma BurnKeepsBooks(w: World, l: Ledger, i: i64, amount: u64)
    requires Books(w, l) && Allowed(w, l, BurnOnChain(i, amount))
    ensures Books(w, After(w, l, BurnOnChain(i, amount)))
  {
    hide DI.Inv, WI.Consistent, WC.Settled, Sum, O.Backed, Priced;
    Inserted(l.unobserved, i, amount);
  }

  /** A store operation adds the withdrawal it observes, and no other. */
  lemma AmountsFrame(env: W.Env, s: W.State, op: W.Op)
    ensures var t := W.Step(env, s, op);
            && (op.Observe? && op.w.index !in s.withdrawals && op.w.index in t.withdrawals ==>
                  Amounts(t) == Amounts(s)[op.w.index := op.w.amount])
            && (!(op.Observe? && op.w.index !in s.withdrawals && op.w.index in t.withdrawals) ==> Amounts(t) == Amounts(s))
  {
    hide W.Step;
    var t := W.Step(env, s, op);
    forall i: i64
      ensures i in s.withdrawals ==> i in t.withdrawals && t.withdrawals[i].amount == s.withdrawals[i].amount
      ensures i !in s.withdrawals && i in t.withdrawals ==>
                op.Observe? && op.w.index == i && t.withdrawals[i].amount == op.w.amount
    {
      WI.WithdrawalFrame(env, s, op, i);
    }
  }

  lemma SettledStep(env: W.Env, s: W.State, op: W.Op)
    requires WI.Consistent(s) && WC.Settled(s) && WC.KeepsRules(env, s, op)
    ensures WI.Consistent(W.Step(env, s, op)) && WC.Settled(W.Step(env, s, op))
  {
    hide WI.Consistent, WC.Settled, W.Step, WC.KeepsRules;
    assert W.Run(env, s, [op]) == W.Step(env, s, op) by { WC.OneStepRun(env, s, op); }
    assert WC.RunKeepsRules(env, s, [op]);
    WC.RulesKeepSettled(env, s, [op]);
  }

  /** What a store operation does to the ledger. */
  lemma StoreEvent(w: World, l: Ledger, op: W.Op)
    requires Allowed(w, l, Withdrawal(op))
    ensures var m := After(w, l, Withdrawal(op));
            && m == l.(withdrawals := W.Step(w.env, l.withdrawals, op), unobserved := m.unobserved)
            && WC.KeepsRules(w.env, l.withdrawals, op)
            && (Inserts(w, l, op) ==>
                  op.w.index in l.unobserved && l.unobserved[op.w.index] == op.w.amount
                  && m.unobserved == l.unobserved - {op.w.index})
            && (!Inserts(w, l, op) ==> m.unobserved == l.unobserved)
  {
    hide W.Step, WC.KeepsRules;
  }

  lemma SameKeys(s: W.State)
    ensures Amounts(s).Keys == s.withdrawals.Keys
  {
  }

  lemma StoreKeepsBooks(w: World, l: Ledger, op: W.Op)
    requires Books(w, l) && Allowed(w, l, Withdrawal(op))
    ensures Books(w, After(w, l, Withdrawal(op)))
  {
    hide DI.Inv, WI.Consistent, WC.Settled, Sum, O.Backed, Priced, W.Step, WC.KeepsRules, Allowed, After, Amounts;
    StoreEvent(w, l, op);
    SettledStep(w.env, l.withdrawals, op);
    AmountsFrame(w.env, l.withdrawals, op);
    SameKeys(l.withdrawals);
    SameKeys(After(w, l, Withdrawal(op)).withdrawals);
    if Inserts(w, l, op) {
      Inserted(Amounts(l.withdrawals), op.w.index, op.w.amount);
      Without(l.unobserved, op.w.index);
    }
  }

  lemma EventKeepsBooks(w: World, l: Ledger, e: Event)
    requires Books(w, l) && Allowed(w, l, e)
    ensures Books(w, After(w, l, e))
  {
    hide Books, Allowed, After;
    match e
    case MintOnChain(id) => MintKeepsBooks(w, l, id);
    case BurnOnChain(i, amount) => BurnKeepsBooks(w, l, i, amount);
    case Deposit(a) => DepositKeepsBooks(w, l, a);
    case Withdrawal(op) => StoreKeepsBooks(w, l, op);
  }

  predicate AllowedRun(w: World, l: Ledger, events: seq<Event>)
    decreases |events|
  {
    events == [] || (Allowed(w, l, events[0]) && AllowedRun(w, After(w, l, events[0]), events[1..]))
  }

  function RunAll(w: World, l: Ledger, events: seq<Event>): Ledger
    requires AllowedRun(w, l, events)
    decreases |events|
  {
    if events == [] then l else RunAll(w, After(w, l, events[0]), events[1..])
  }

  const OPENED := Ledger(D.EMPTY, W.EMPTY, 0, map[], map[])

  lemma {:induction false} RunKeepsBooks(w: World, l: Ledger, events: seq<Event>)
    requires Books(w, l) && AllowedRun(w, l, events)
    ensures Books(w, RunAll(w, l, events))
    decreases |events|
  {
    hide Books, Allowed, After;
    if events != [] {
      EventKeepsBooks(w, l, events[0]);
      RunKeepsBooks(w, After(w, l, events[0]), events[1..]);
    }
  }

  // ------------------------------------------------------ what the check says

  /** Under the executor's rules what was paid out is what was burned. */
  lemma PaidIsBurned(s: W.State)
    requires WI.Consistent(s) && WC.Settled(s)
    ensures Sum(Amounts(s)) == Sum(PaidOut(s)) + Sum(Owed(s))
  {
    hide Sum, WI.Consistent;
    forall i | i in s.withdrawals && s.withdrawals[i].state == W.Completed
      ensures i in s.payouts && s.payouts[i].terms.payout == s.withdrawals[i].amount
    {
      assert WC.StateJustified(s, i) && WC.PayoutJustified(s, i);
    }
    assert PaidOut(s) + Owed(s) == Amounts(s);
    Union(PaidOut(s), Owed(s));
  }

  /** What each outpoint with a minted row minted: the first such row's amount. */
  function FirstMints(deposits: seq<D.Deposit>): map<O.ClaimKey, nat> {
    if deposits == [] then map[] else
      var last := deposits[|deposits| - 1];
      var before := FirstMints(deposits[..|deposits| - 1]);
      if last.state == DS.Minted && O.KeyOf(last) !in before then before[O.KeyOf(last) := last.amount] else before
  }

  /** The amounts of minted rows whose outpoint an earlier minted row has, as
      when its transaction was mined again in another block. */
  function Repeats(deposits: seq<D.Deposit>): nat {
    if deposits == [] then 0 else
      var last, before := deposits[|deposits| - 1], deposits[..|deposits| - 1];
      Repeats(before) + if last.state == DS.Minted && O.KeyOf(last) in FirstMints(before) then last.amount else 0
  }

  lemma {:induction false} MintedSumSplits(deposits: seq<D.Deposit>)
    ensures D.MintedSum(deposits) == Sum(FirstMints(deposits)) + Repeats(deposits)
  {
    if deposits == [] {
      EmptySum<O.ClaimKey>();
    } else {
      var last, before := deposits[|deposits| - 1], deposits[..|deposits| - 1];
      MintedSumSplits(before);
      hide Sum;
      if last.state == DS.Minted && O.KeyOf(last) !in FirstMints(before) {
        Inserted(FirstMints(before), O.KeyOf(last), last.amount);
      }
    }
  }

  predicate MintedAs(d: D.Deposit, key: O.ClaimKey, amount: nat) { d.state == DS.Minted && Names(d, key, amount) }

  lemma {:induction false} FirstMintsExactly(deposits: seq<D.Deposit>, key: O.ClaimKey)
    ensures key in FirstMints(deposits) <==> Marked(deposits, key)
    ensures key in FirstMints(deposits) ==>
              exists id :: 0 <= id < |deposits| && MintedAs(deposits[id], key, FirstMints(deposits)[key])
  {
    if deposits != [] {
      var n := |deposits| - 1;
      FirstMintsExactly(deposits[..n], key);
      assert Marked(deposits[..n], key) ==> Marked(deposits, key);
      assert Marked(deposits, key) <==>
               Marked(deposits[..n], key) || (deposits[n].state == DS.Minted && O.KeyOf(deposits[n]) == key);
      if key in FirstMints(deposits[..n]) {
        var id :| 0 <= id < n && MintedAs(deposits[..n][id], key, FirstMints(deposits[..n])[key]);
        assert MintedAs(deposits[id], key, FirstMints(deposits)[key]);
      } else if key in FirstMints(deposits) {
        assert MintedAs(deposits[n], key, FirstMints(deposits)[key]);
      }
    }
  }

  /** Two minted rows share an outpoint, and the later one has an amount. */
  predicate Repeated(deposits: seq<D.Deposit>, j: int, k: int) {
    && 0 <= j < k < |deposits| && deposits[j].state == DS.Minted && deposits[k].state == DS.Minted
    && O.KeyOf(deposits[j]) == O.KeyOf(deposits[k]) && deposits[k].amount > 0
  }

  lemma {:induction false} NoRepeatsExactly(deposits: seq<D.Deposit>)
    ensures Repeats(deposits) == 0 <==> forall j, k :: !Repeated(deposits, j, k)
  {
    if deposits != [] {
      var n := |deposits| - 1;
      var before := deposits[..n];
      NoRepeatsExactly(before);
      FirstMintsExactly(before, O.KeyOf(deposits[n]));
      hide FirstMints;
      forall j, k ensures Repeated(deposits, j, k) <==> Repeated(before, j, k) || (k == n && Repeated(deposits, j, n)) {
      }
      forall j ensures Repeated(deposits, j, n) ==> Marked(before, O.KeyOf(deposits[n])) {
        if Repeated(deposits, j, n) {
          assert before[j].state == DS.Minted && O.KeyOf(before[j]) == O.KeyOf(deposits[n]);
        }
      }
      if deposits[n].state == DS.Minted && deposits[n].amount > 0 && Marked(before, O.KeyOf(deposits[n])) {
        var j :| 0 <= j < n && before[j].state == DS.Minted && O.KeyOf(before[j]) == O.KeyOf(deposits[n]);
        assert Repeated(deposits, j, n);
      }
    }
  }

  /** A transaction id and an output number name one amount, in whatever block
      the transaction is mined. */
  ghost predicate OneAmount(w: DR.World) {
    forall b, c, tx, ux, o, p :: PaidAlike(w, b, c, tx, ux, o, p)
  }

  predicate PaidAlike(w: DR.World, b: Hash32, c: Hash32, tx: DS.Tx, ux: DS.Tx, o: DS.TxOut, p: DS.TxOut) {
    tx in w.tree.txs(b) && ux in w.tree.txs(c) && DS.Pays(tx, o, w.scan) && DS.Pays(ux, p, w.scan)
    && tx.txid == ux.txid && o.n == p.n
    ==> o.amount == p.amount
  }

  lemma SameOutpointSameAmount(w: DR.World, s: D.State, j: nat, k: nat)
    requires OneAmount(w) && DI.Inv(w.tree, w.scan, s) && j < |s.deposits| && k < |s.deposits|
    requires O.KeyOf(s.deposits[j]) == O.KeyOf(s.deposits[k])
    ensures s.deposits[j].amount == s.deposits[k].amount
  {
    var d, e := s.deposits[j], s.deposits[k];
    DR.InvSourced(w.tree, w.scan, s, j);
    DR.InvSourced(w.tree, w.scan, s, k);
    hide DI.Inv, DS.Pays, DS.Initial, DS.Binding;
    var tx, o :| DI.SourcedBy(w.tree, w.scan, d, tx, o);
    var ux, p :| DI.SourcedBy(w.tree, w.scan, e, ux, p);
    assert PaidAlike(w, d.blockHash, e.blockHash, tx, ux, o, p);
  }

  /** A marked outpoint's rows record what its claim minted. */
  lemma MarkedAtPrice(w: DR.World, s: D.State, claims: map<O.ClaimKey, nat>, key: O.ClaimKey)
    requires OneAmount(w) && DI.Inv(w.tree, w.scan, s) && O.Backed(s.deposits, claims.Keys) && Priced(s.deposits, claims)
    requires key in FirstMints(s.deposits)
    ensures key in claims && FirstMints(s.deposits)[key] == claims[key]
  {
    FirstMintsExactly(s.deposits, key);
    hide OneAmount, DI.Inv, FirstMints;
    var j :| 0 <= j < |s.deposits| && MintedAs(s.deposits[j], key, FirstMints(s.deposits)[key]);
    assert key in claims;
    var k :| 0 <= k < |s.deposits| && Names(s.deposits[k], key, claims[key]);
    SameOutpointSameAmount(w, s, j, k);
  }

  /** The total of minted rows is what the chain minted, less the mints no row
      is marked for, and the rows that repeat an outpoint on top. */
  lemma MintedSumExactly(w: DR.World, s: D.State, claims: map<O.ClaimKey, nat>)
    requires OneAmount(w) && DI.Inv(w.tree, w.scan, s) && O.Backed(s.deposits, claims.Keys) && Priced(s.deposits, claims)
    ensures D.MintedSum(s.deposits) + Sum(Unmarked(s.deposits, claims)) == Sum(claims) + Repeats(s.deposits)
  {
    MintedSumSplits(s.deposits);
    hide Sum, OneAmount, DI.Inv, O.Backed, Priced, FirstMints, Marked;
    var marked, rest := FirstMints(s.deposits), Unmarked(s.deposits, claims);
    forall key ensures key in marked <==> Marked(s.deposits, key) {
      FirstMintsExactly(s.deposits, key);
    }
    forall key | key in marked ensures key in claims && marked[key] == claims[key] {
      MarkedAtPrice(w, s, claims, key);
    }
    assert marked + rest == claims;
    Union(marked, rest);
  }

  /** What completed payouts paid, whatever state their withdrawal is in now. */
  function EverPaid(s: W.State): map<i64, nat> {
    map i | i in s.payouts && s.payouts[i].completedAt.Some? :: s.payouts[i].terms.payout
  }

  /** Completed payouts whose withdrawal has left `Completed`, as the signing
      guard can make it. */
  function Reopened(s: W.State): map<i64, nat> {
    map i | i in s.payouts && s.payouts[i].completedAt.Some? && !Finished(s, i) :: s.payouts[i].terms.payout
  }

  /** The total keys on the withdrawal's state, so it misses exactly the
      reopened ones: it is what was ever paid if and only if no completed
      payout with an amount has had its withdrawal leave `Completed`. */
  lemma TotalMissesReopened(s: W.State)
    requires WI.Consistent(s) && WC.Settled(s)
    ensures Sum(EverPaid(s)) == Sum(PaidOut(s)) + Sum(Reopened(s))
    ensures Sum(PaidOut(s)) == Sum(EverPaid(s)) <==>
              forall i :: i in s.payouts && s.payouts[i].completedAt.Some? && s.payouts[i].terms.payout > 0 ==> Finished(s, i)
  {
    hide Sum, WI.Consistent;
    forall i | i in s.payouts && Finished(s, i) ensures s.payouts[i].completedAt.Some? {
      assert WC.StateJustified(s, i);
    }
    hide WC.Settled;
    assert PaidOut(s) + Reopened(s) == EverPaid(s);
    Union(PaidOut(s), Reopened(s));
    ZeroExactly(Reopened(s));
    NoneReopened(s);
  }

  lemma NoneReopened(s: W.State)
    ensures (forall i :: i in Reopened(s) ==> Reopened(s)[i] == 0) <==>
              forall i :: i in s.payouts && s.payouts[i].completedAt.Some? && s.payouts[i].terms.payout > 0 ==> Finished(s, i)
  {
    forall i | i in s.payouts && s.payouts[i].completedAt.Some? && !Finished(s, i)
      ensures i in Reopened(s) && Reopened(s)[i] == s.payouts[i].terms.payout
    {
    }
  }

  /** What completed payouts spent in fees, whatever state their withdrawal is
      in now, and the part of it the total misses. */
  function EverFees(s: W.State): map<i64, nat> {
    map i | i in s.payouts && s.payouts[i].completedAt.Some? :: s.payouts[i].terms.fee
  }

  function ReopenedFees(s: W.State): map<i64, nat> {
    map i | i in s.payouts && s.payouts[i].completedAt.Some? && !Finished(s, i) :: s.payouts[i].terms.fee
  }

  predicate ReopenedAt(s: W.State, i: i64) { i in s.payouts && s.payouts[i].completedAt.Some? && !Finished(s, i) }

  lemma FeesMissReopened(s: W.State)
    requires WI.Consistent(s) && WC.Settled(s)
    ensures Sum(EverFees(s)) == Sum(FeesPaid(s)) + Sum(ReopenedFees(s))
  {
    hide Sum, WI.Consistent;
    forall i | i in s.payouts && Finished(s, i) ensures s.payouts[i].completedAt.Some? {
      assert WC.StateJustified(s, i);
    }
    hide WC.Settled;
    assert FeesPaid(s) + ReopenedFees(s) == EverFees(s);
    Union(FeesPaid(s), ReopenedFees(s));
  }

  lemma NothingForgotten(s: W.State)
    ensures Sum(Reopened(s)) + Sum(ReopenedFees(s)) == 0 <==>
              forall i :: ReopenedAt(s, i) ==> s.payouts[i].terms.payout == 0 && s.payouts[i].terms.fee == 0
  {
    hide Sum;
    ZeroExactly(Reopened(s));
    ZeroExactly(ReopenedFees(s));
    forall i ensures ReopenedAt(s, i) <==> i in ReopenedFees(s) && i in Reopened(s) {
    }
  }

  /** A vault that received each marked outpoint once, and from which exactly
      the completed payouts and their fees have left. */
  predicate VaultKept(t: Snapshot, repeats: nat, paid: nat, fees: nat) {
    t.deposits >= repeats + paid + fees && t.balance == Some(t.deposits - repeats - paid - fees)
  }

  lemma DriftOf(t: Snapshot, repeats: nat, paid: nat, fees: nat)
    requires VaultKept(t, repeats, paid, fees) && t.payouts <= paid && t.fees <= fees
    ensures var forgotten := repeats + (paid - t.payouts) + (fees - t.fees);
            && t.FeeDrift() == Some(forgotten + t.fees) && t.UnexplainedDrift() == Some(forgotten)
            && (t.DriftIsExplainedByFees() == Some(true) <==> forgotten == 0)
  {
    AlarmsAgree(t);
  }

  /** On such a vault the drift the snapshot cannot explain is exactly what its
      totals get wrong: the rows that repeat an outpoint, and the payouts and
      the fees of reopened withdrawals. */
  lemma UnexplainedExactly(rows: seq<D.Deposit>, s: W.State, t: Snapshot)
    requires WI.Consistent(s) && WC.Settled(s)
    requires VaultKept(t, Repeats(rows), Sum(EverPaid(s)), Sum(EverFees(s)))
    requires t.deposits == D.MintedSum(rows) && t.payouts == Sum(PaidOut(s)) && t.fees == Sum(FeesPaid(s))
    ensures t.FeeDrift() == Some(Repeats(rows) + Sum(Reopened(s)) + Sum(EverFees(s)))
    ensures t.UnexplainedDrift() == Some(Repeats(rows) + Sum(Reopened(s)) + Sum(ReopenedFees(s)))
    ensures t.DriftIsExplainedByFees() == Some(true) <==>
              && (forall j, k :: !Repeated(rows, j, k))
              && forall i :: ReopenedAt(s, i) ==> s.payouts[i].terms.payout == 0 && s.payouts[i].terms.fee == 0
  {
    hide Sum, WI.Consistent, WC.Settled, EverPaid, EverFees, Reopened, ReopenedFees, ReopenedAt, PaidOut, FeesPaid, Finished;
    hide VaultKept, t.FeeDrift, t.UnexplainedDrift, t.DriftIsExplainedByFees, Repeats, Repeated;
    TotalMissesReopened(s);
    FeesMissReopened(s);
    NothingForgotten(s);
    NoRepeatsExactly(rows);
    DriftOf(t, Repeats(rows), Sum(EverPaid(s)), Sum(EverFees(s)));
  }

  /** In every reachable state the books say exactly how far the supply is from
      its bound. */
  lemma SlackExactly(w: World, events: seq<Event>)
    requires OneAmount(w.deposits) && AllowedRun(w, OPENED, events)
    ensures var l := RunAll(w, OPENED, events);
            D.MintedSum(l.deposits.deposits) - Sum(PaidOut(l.withdrawals)) - l.supply
            == Sum(Owed(l.withdrawals)) + Sum(l.unobserved) + Repeats(l.deposits.deposits)
               - Sum(Unmarked(l.deposits.deposits, l.claims))
  {
    BooksOpen(w);
    RunKeepsBooks(w, OPENED, events);
    hide AllowedRun, RunAll, Sum, DI.Inv, WI.Consistent, WC.Settled, D.MintedSum, OneAmount, O.Backed, Priced;
    var l := RunAll(w, OPENED, events);
    PaidIsBurned(l.withdrawals);
    MintedSumExactly(w.deposits, l.deposits, l.claims);
  }

  lemma EmptyStores(w: World)
    ensures DI.Inv(w.deposits.tree, w.deposits.scan, D.EMPTY)
    ensures WI.Consistent(W.EMPTY) && WC.Settled(W.EMPTY)
  {
  }

  lemma EmptyTotals()
    ensures Amounts(W.EMPTY) == map[] && O.Backed([], {}) && Priced([], map[])
    ensures Sum<i64>(map[]) == 0 && Sum<O.ClaimKey>(map[]) == 0
  {
    hide Sum;
    EmptySum<i64>();
    EmptySum<O.ClaimKey>();
  }

  lemma EmptyBalance()
    ensures O.Backed(OPENED.deposits.deposits, OPENED.claims.Keys) && Priced(OPENED.deposits.deposits, OPENED.claims)
    ensures Conserved(OPENED)
  {
    hide Sum, Amounts, O.Backed, Priced;
    EmptyTotals();
    assert OPENED.claims.Keys == {};
  }

  lemma BooksOpen(w: World)
    ensures Books(w, OPENED)
  {
    hide DI.Inv, WI.Consistent, WC.Settled, Conserved, O.Backed, Priced;
    EmptyStores(w);
    EmptyBalance();
  }

  lemma CheckOf(s: Snapshot, unmarked: nat, due: nat, repeats: nat)
    requires s.deposits - s.payouts - s.supply == due + repeats - unmarked
    ensures s.InvariantHolds() <==> unmarked <= due + repeats || s.supply == 0
    ensures s.Breach() == if unmarked <= due + repeats then 0 else Min(s.supply, unmarked - due - repeats)
    ensures unmarked == 0 ==> s.InvariantHolds() && s.BackingBound() - s.supply == due + repeats
  {
    AlarmsAgree(s);
  }

  /** The check passes exactly when the mints not yet marked are covered by
      what is still owed and burned and by rows that repeat an outpoint, or
      nothing is in circulation. Once every mint is marked it always passes,
      and its slack is what is owed and burned if and only if no two minted
      rows with an amount share an outpoint. */
  lemma CheckPassesExactly(w: World, events: seq<Event>, s: Snapshot)
    requires OneAmount(w.deposits) && AllowedRun(w, OPENED, events)
    requires var l := RunAll(w, OPENED, events);
             s.supply == l.supply && s.deposits == D.MintedSum(l.deposits.deposits) && s.payouts == Sum(PaidOut(l.withdrawals))
    ensures var l := RunAll(w, OPENED, events);
            var rows := l.deposits.deposits;
            var unmarked := Sum(Unmarked(rows, l.claims));
            var due := Sum(Owed(l.withdrawals)) + Sum(l.unobserved);
            && (s.InvariantHolds() <==> unmarked <= due + Repeats(rows) || l.supply == 0)
            && s.Breach() == (if unmarked <= due + Repeats(rows) then 0 else Min(l.supply, unmarked - due - Repeats(rows)))
            && (Unmarked(rows, l.claims) == map[] ==>
                  && s.InvariantHolds() && s.BackingBound() - s.supply == due + Repeats(rows)
                  && (s.BackingBound() - s.supply == due <==> forall j, k :: !Repeated(rows, j, k)))
  {
    hide AllowedRun, RunAll, Sum, D.MintedSum, Unmarked, Repeats, Owed, PaidOut, OneAmount, Repeated, Amounts;
    hide s.InvariantHolds, s.BackingBound, s.Breach;
    SlackExactly(w, events);
    var l := RunAll(w, OPENED, events);
    NoRepeatsExactly(l.deposits.deposits);
    CheckOf(s, Sum(Unmarked(l.deposits.deposits, l.claims)), Sum(Owed(l.withdrawals)) + Sum(l.unobserved),
            Repeats(l.deposits.deposits));
    EmptySum<O.ClaimKey>();
  }

  function Min(a: nat, b: nat): nat { if a < b then a else b }
}
