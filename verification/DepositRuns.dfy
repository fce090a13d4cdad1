/** What holds at every commit of any run of the deposit store, whatever
    chain the node reports and however often it changes its mind. */
module DepositRuns {
  import opened Bytes
  import opened Wrappers
  import opened DepositScan
  import opened BlockTree
  import opened DepositStore
  import opened DepositInvariants
  import opened SignedMessages

  // ---------------------------------------------------------------- actions

  /** One commit. Indexer actions come from a tick; the last four from the
      mint pipeline, whose tick is taken as atomic, and the operator. */
  datatype Action =
    | Ingest(height: int, block: Block)
    | RollbackTo(fork: int, at: int)
    | Advance(id: nat, at: int)
    | MarkSpent(id: nat, at: int)
    | Promote(id: nat, at: int, artifact: Artifact, checkedAt: int)
    | GuardClaim(id: nat, at: int)
    | Submit(id: nat, signature: string, at: int)
    | Mint(id: nat, at: int)
    | Operator(id: nat, to: DepositState, note: string, at: int)

  datatype Window = Window(seconds: nat, cap: u64)

  datatype World = World(tree: Tree, scan: ScanConfig, sha: seq<byte> -> Hash32, window: Option<Window>)

  function SaturatingAdd(a: nat, b: nat): nat { if a + b > U64_MAX then U64_MAX else a + b }

  /** The rolling cap as the promotion checks it, against the total it read
      for the window ending at `now`. */
  predicate FitsCap(window: Option<Window>, deposits: seq<Deposit>, amount: u64, now: int) {
    window.Some? ==>
      SaturatingAdd(ReadySum(deposits, now - window.value.seconds), amount) <= window.value.cap
  }

  predicate InState(s: State, id: nat, states: set<DepositState>) { id < |s.deposits| && s.deposits[id].state in states }

  predicate Enabled(w: World, s: State, a: Action) {
    match a
    case Ingest(height, b) => Extends(w.tree, s, height, b)
    case RollbackTo(fork, _) => s.tip.Some? && 0 <= fork <= s.tip.value.height && fork in s.blocks
    case Advance(id, _) => InState(s, id, {Candidate})
    case MarkSpent(id, _) => InState(s, id, {Confirming})
    case Promote(id, at, artifact, checkedAt) =>
      && InState(s, id, {Confirming}) && checkedAt <= at
      && ClaimIntact(w.sha, s.deposits[id], artifact)
      && FitsCap(w.window, s.deposits, s.deposits[id].amount, checkedAt)
    case GuardClaim(id, _) => InState(s, id, {ReadyForSignature, Submitted})
    case Submit(id, _, _) => InState(s, id, {ReadyForSignature, Submitted})
    case Mint(id, _) => InState(s, id, {ReadyForSignature, Submitted})
    case Operator(id, to, _, _) =>
      id < |s.deposits| && s.deposits[id].state == IntegrityHalted && to == ReadyForSignature ==> Indexed(s.blocks, s.deposits[id])
  }

  function Next(w: World, s: State, a: Action): State {
    match a
    case Ingest(height, b) => IngestBlock(s, height, b, CandidatesOf(w.tree, w.scan, height, b))
    case RollbackTo(fork, at) =>
      if s.tip.Some? && fork in s.blocks then Rollback(s, Tip(fork, s.blocks[fork].hash), s.tip.value, at) else s
    case Advance(id, at) => Transition(s, id, Confirming, at, None, None).0
    case MarkSpent(id, at) => Transition(s, id, Failed, at, Some("vault_output_spent"), None).0
    case Promote(id, at, artifact, _) => Transition(s, id, ReadyForSignature, at, None, Some(artifact)).0
    case GuardClaim(id, at) => VerifyAndLoadClaim(w.sha, s, id, at).0
    case Submit(id, signature, at) => MarkSubmitted(s, id, signature, at).0
    case Mint(id, at) => MarkMinted(s, id, at).0
    case Operator(id, to, note, at) => OperatorClear(s, id, to, note, at).0
  }

  predicate TouchesOneRow(a: Action) { !a.Ingest? && !a.RollbackTo? }

  /** The state a one-row action can put its row in, given where it was. */
  predicate Moves(a: Action, from: DepositState, to: DepositState) {
    match a
    case Advance(_, _) => from == Candidate && to == Confirming
    case MarkSpent(_, _) => from == Confirming && to == Failed
    case Promote(_, _, _, _) => from == Confirming && to == ReadyForSignature
    case GuardClaim(_, _) => from in {ReadyForSignature, Submitted} && to == IntegrityHalted
    case Submit(_, _, _) => from in {ReadyForSignature, Submitted} && to == Submitted
    case Mint(_, _) => from in {ReadyForSignature, Submitted} && to == Minted
    case Operator(_, _, _, _) => from == IntegrityHalted && to in {ReadyForSignature, Failed}
    case _ => false
  }

  /** A row and its artifact after a change to that row alone. */
  predicate OneRowChanged(s: State, u: State, id: nat) {
    && u.blocks == s.blocks && u.tip == s.tip && |u.deposits| == |s.deposits| && id < |s.deposits|
    && u.deposits == s.deposits[id := u.deposits[id]] && SameRecord(s.deposits[id], u.deposits[id])
  }

  lemma TransitionFrame(s: State, id: nat, to: DepositState, at: int, reason: Option<string>, artifact: Option<Artifact>)
    ensures var u := Transition(s, id, to, at, reason, artifact).0;
            u == s || (&& OneRowChanged(s, u, id) && u.deposits[id].state == to
                       && u.deposits[id].readyAt == (if to == ReadyForSignature then Some(at) else s.deposits[id].readyAt)
                       && (artifact.Some? ==> id !in s.artifacts)
                       && u.artifacts == if artifact.Some? then s.artifacts[id := artifact.value] else s.artifacts)
  {
  }

  lemma GuardFrame(w: World, s: State, id: nat, at: int)
    ensures var u := VerifyAndLoadClaim(w.sha, s, id, at).0;
            u == s || (OneRowChanged(s, u, id) && u.deposits[id].state == IntegrityHalted
                       && u.deposits[id].readyAt == s.deposits[id].readyAt && u.artifacts == s.artifacts)
  {
    hide DepositClaimMessage, DiffClaimFields;
  }

  lemma RowFrame(w: World, s: State, a: Action)
    requires TouchesOneRow(a) && Enabled(w, s, a)
    ensures var u := Next(w, s, a);
            && u.blocks == s.blocks && u.tip == s.tip && |u.deposits| == |s.deposits|
            && (u.deposits != s.deposits || u.artifacts != s.artifacts ==>
                  && a.id < |s.deposits|
                  && var d, e := s.deposits[a.id], u.deposits[a.id];
                  && u.deposits == s.deposits[a.id := e] && SameRecord(d, e) && Moves(a, d.state, e.state)
                  && (a.Promote? ==> e.readyAt == Some(a.at) && a.id !in s.artifacts && u.artifacts == s.artifacts[a.id := a.artifact])
                  && (!a.Promote? ==> e.readyAt == d.readyAt && u.artifacts == s.artifacts)
                  && (a.Operator? && e.state == ReadyForSignature ==> Indexed(s.blocks, d)))
  {
    hide FitsCap, ClaimIntact, Transition, VerifyAndLoadClaim, SameRecord;
    match a
    case Advance(id, at) => TransitionFrame(s, id, Confirming, at, None, None);
    case MarkSpent(id, at) => TransitionFrame(s, id, Failed, at, Some("vault_output_spent"), None);
    case Promote(id, at, artifact, _) => TransitionFrame(s, id, ReadyForSignature, at, None, Some(artifact));
    case Mint(id, at) => TransitionFrame(s, id, Minted, at, None, None);
    case GuardClaim(id, at) => GuardFrame(w, s, id, at);
    case Submit(id, signature, at) => SubmitFrame(s, id, signature, at);
    case Operator(id, to, note, at) => OperatorFrame(s, id, to, note, at);
    case _ =>
  }

  lemma SubmitFrame(s: State, id: nat, signature: string, at: int)
    ensures var u := MarkSubmitted(s, id, signature, at).0;
            u == s || (OneRowChanged(s, u, id) && u.deposits[id].state == Submitted
                       && u.deposits[id].readyAt == s.deposits[id].readyAt && u.artifacts == s.artifacts)
  {
  }

  lemma OperatorFrame(s: State, id: nat, to: DepositState, note: string, at: int)
    ensures var u := OperatorClear(s, id, to, note, at).0;
            u == s || (OneRowChanged(s, u, id) && u.deposits[id].state == to && to in {ReadyForSignature, Failed}
                       && s.deposits[id].state == IntegrityHalted
                       && u.deposits[id].readyAt == s.deposits[id].readyAt && u.artifacts == s.artifacts)
  {
  }

  lemma StagedAfter(s: State, u: State, a: Action)
    requires Staged(s.deposits, s.artifacts) && TouchesOneRow(a) && a.id < |s.deposits|
    requires |u.deposits| == |s.deposits| && u.deposits == s.deposits[a.id := u.deposits[a.id]]
    requires Moves(a, s.deposits[a.id].state, u.deposits[a.id].state)
    requires u.artifacts == if a.Promote? then s.artifacts[a.id := a.artifact] else s.artifacts
    requires !a.Promote? ==> u.deposits[a.id].readyAt == s.deposits[a.id].readyAt
    ensures Staged(u.deposits, u.artifacts)
  {
  }

  lemma InvRow(w: World, s: State, id: nat)
    requires Inv(w.tree, w.scan, s) && id < |s.deposits|
    ensures IsActive(s.deposits[id].state) ==> Indexed(s.blocks, s.deposits[id])
    ensures s.deposits[id].state in {Candidate, Confirming} ==> id !in s.artifacts && s.deposits[id].readyAt == None
  {
  }

  lemma OneRowKeeps(w: World, s: State, a: Action)
    requires Inv(w.tree, w.scan, s) && Enabled(w, s, a) && TouchesOneRow(a)
    ensures Inv(w.tree, w.scan, Next(w, s, a)) && RowsKept(s.deposits, Next(w, s, a).deposits)
  {
    assert Staged(s.deposits, s.artifacts);
    hide Inv, Next, Enabled, Staged;
    var u := Next(w, s, a);
    RowFrame(w, s, a);
    if u.deposits == s.deposits && u.artifacts == s.artifacts {
      SameCore(w, s, u);
    } else {
      StagedAfter(s, u, a);
      InvRow(w, s, a.id);
      RowUpdateKeeps(w.tree, w.scan, s, u, a.id);
    }
  }

  lemma SameCore(w: World, s: State, u: State)
    requires Inv(w.tree, w.scan, s) && u.blocks == s.blocks && u.tip == s.tip
    requires u.deposits == s.deposits && u.artifacts == s.artifacts
    ensures Inv(w.tree, w.scan, u) && RowsKept(s.deposits, u.deposits)
  {
    hide ChainOk, Tracks, KeysUnique, Sourced, Complete, Staged;
  }

  lemma NextKeeps(w: World, s: State, a: Action)
    requires Inv(w.tree, w.scan, s) && Enabled(w, s, a)
    ensures Inv(w.tree, w.scan, Next(w, s, a)) && RowsKept(s.deposits, Next(w, s, a).deposits)
  {
    if TouchesOneRow(a) {
      OneRowKeeps(w, s, a);
    } else {
      hide Inv, ReadySum, ClaimIntact, CandidatesOf;
      match a {
        case Ingest(height, b) => IngestKeeps(w.tree, w.scan, s, height, b);
        case RollbackTo(fork, at) => RollbackKeeps(w.tree, w.scan, s, Tip(fork, s.blocks[fork].hash), at);
        case _ =>
      }
    }
  }

  predicate EnabledRun(w: World, s: State, as_: seq<Action>)
    decreases |as_|
  {
    as_ == [] || (Enabled(w, s, as_[0]) && EnabledRun(w, Next(w, s, as_[0]), as_[1..]))
  }

  function Run(w: World, s: State, as_: seq<Action>): State
    decreases |as_|
  {
    if as_ == [] then s else Run(w, Next(w, s, as_[0]), as_[1..])
  }

  /** At every commit the index is a contiguous branch, active rows sit on it,
      every vault output of it has its row, and no row is ever lost. */
  lemma {:induction false} RunKeeps(w: World, s: State, as_: seq<Action>)
    requires Inv(w.tree, w.scan, s) && EnabledRun(w, s, as_)
    ensures Inv(w.tree, w.scan, Run(w, s, as_)) && RowsKept(s.deposits, Run(w, s, as_).deposits)
    decreases |as_|
  {
    hide Inv, Next, Enabled, RowsKept;
    if as_ == [] {
      NothingLost(s.deposits);
    } else {
      var u := Next(w, s, as_[0]);
      NextKeeps(w, s, as_[0]);
      RunKeeps(w, u, as_[1..]);
      RowsKeptTransitive(s.deposits, u.deposits, Run(w, s, as_).deposits);
    }
  }

  lemma NothingLost(deposits: seq<Deposit>)
    ensures RowsKept(deposits, deposits)
  {
  }

  // ------------------------------------------------------ one active row each

  /** A transaction occurs in at most one block of the indexed branch. */
  ghost predicate TxidsOnce(t: Tree, blocks: map<int, Block>) {
    forall g, h, tx, ux ::
      g in blocks && h in blocks && tx in t.txs(blocks[g].hash) && ux in t.txs(blocks[h].hash) && tx.txid == ux.txid ==> g == h
  }

  lemma OneActiveRowPerOutpoint(t: Tree, cfg: ScanConfig, s: State, a: nat, b: nat)
    requires Inv(t, cfg, s) && TxidsOnce(t, s.blocks)
    requires a < |s.deposits| && b < |s.deposits|
    requires IsActive(s.deposits[a].state) && IsActive(s.deposits[b].state)
    requires s.deposits[a].txid == s.deposits[b].txid && s.deposits[a].vout == s.deposits[b].vout
    ensures a == b
  {
    var d, e := s.deposits[a], s.deposits[b];
    InvSourced(t, cfg, s, a);
    InvSourced(t, cfg, s, b);
    hide Inv;
    var tx, o :| SourcedBy(t, cfg, d, tx, o);
    var ux, p :| SourcedBy(t, cfg, e, ux, p);
    assert d.height == e.height;
    KeysDiffer(t, cfg, s, a, b);
  }

  lemma RowOf(t: Tree, cfg: ScanConfig, s: State, h: int, tx: Tx, o: TxOut) returns (id: nat)
    requires Inv(t, cfg, s) && h in s.blocks && h > 0 && tx in t.txs(s.blocks[h].hash) && Pays(tx, o, cfg)
    ensures id < |s.deposits| && Keyed(s.deposits[id], tx.txid, o.n, s.blocks[h].hash)
  {
    assert HasKey(s.deposits, tx.txid, o.n, s.blocks[h].hash);
    hide Inv;
    id :| id < |s.deposits| && Keyed(s.deposits[id], tx.txid, o.n, s.blocks[h].hash);
  }

  /** In every reachable state each vault output of each indexed block above
      genesis owns exactly one row, and every row is owned by a vault output. */
  lemma EveryVaultOutputOwnsOneRow(w: World, as_: seq<Action>)
    requires EnabledRun(w, EMPTY, as_)
    ensures var s := Run(w, EMPTY, as_);
            && (forall h, tx, o :: h in s.blocks && h > 0 && tx in w.tree.txs(s.blocks[h].hash) && Pays(tx, o, w.scan) ==>
                  OwnsOneRow(s.deposits, tx.txid, o.n, s.blocks[h].hash))
            && (forall id :: 0 <= id < |s.deposits| ==> SourcedRow(w.tree, w.scan, s.deposits[id]))
  {
    assert Inv(w.tree, w.scan, EMPTY);
    RunKeeps(w, EMPTY, as_);
    var s := Run(w, EMPTY, as_);
    hide Inv, Run, EnabledRun, SourcedRow, Keyed, Pays;
    forall h, tx, o | h in s.blocks && h > 0 && tx in w.tree.txs(s.blocks[h].hash) && Pays(tx, o, w.scan)
      ensures OwnsOneRow(s.deposits, tx.txid, o.n, s.blocks[h].hash)
    {
      var id := RowOf(w.tree, w.scan, s, h, tx, o);
      OnlyRow(w.tree, w.scan, s, id, tx.txid, o.n, s.blocks[h].hash);
    }
    forall id | 0 <= id < |s.deposits| ensures SourcedRow(w.tree, w.scan, s.deposits[id]) {
      InvSourced(w.tree, w.scan, s, id);
    }
  }

  predicate OwnsOneRow(deposits: seq<Deposit>, txid: Hash32, vout: u32, hash: Hash32) {
    exists id :: 0 <= id < |deposits| && OnlyKeyed(deposits, id, txid, vout, hash)
  }

  predicate OnlyKeyed(deposits: seq<Deposit>, id: nat, txid: Hash32, vout: u32, hash: Hash32)
    requires id < |deposits|
  {
    Keyed(deposits[id], txid, vout, hash)
    && forall k :: 0 <= k < |deposits| && Keyed(deposits[k], txid, vout, hash) ==> k == id
  }

  lemma OnlyRow(t: Tree, cfg: ScanConfig, s: State, id: nat, txid: Hash32, vout: u32, hash: Hash32)
    requires Inv(t, cfg, s) && id < |s.deposits| && Keyed(s.deposits[id], txid, vout, hash)
    ensures OnlyKeyed(s.deposits, id, txid, vout, hash) && OwnsOneRow(s.deposits, txid, vout, hash)
  {
    hide Inv;
    forall k | 0 <= k < |s.deposits| && Keyed(s.deposits[k], txid, vout, hash) ensures k == id {
      KeysDiffer(t, cfg, s, id, k);
    }
    assert OnlyKeyed(s.deposits, id, txid, vout, hash);
  }

  lemma InvSourced(t: Tree, cfg: ScanConfig, s: State, id: nat)
    requires Inv(t, cfg, s) && id < |s.deposits|
    ensures SourcedRow(t, cfg, s.deposits[id])
    ensures IsActive(s.deposits[id].state) ==> Indexed(s.blocks, s.deposits[id])
  {
  }

  lemma KeysDiffer(t: Tree, cfg: ScanConfig, s: State, a: nat, b: nat)
    requires Inv(t, cfg, s) && a < |s.deposits| && b < |s.deposits|
    requires Keyed(s.deposits[b], s.deposits[a].txid, s.deposits[a].vout, s.deposits[a].blockHash)
    ensures a == b
  {
    assert KeysUnique(s.deposits);
    hide Inv;
  }

  /** The guard on the from-state is the pipeline's, not the store's: marking
      a row submitted keeps active rows on indexed blocks exactly when the
      row's own block is still indexed. */
  lemma SubmissionNeedsTheBlock(t: Tree, cfg: ScanConfig, s: State, id: nat, signature: string, at: int)
    requires Inv(t, cfg, s) && id < |s.deposits|
    ensures var u := MarkSubmitted(s, id, signature, at).0;
            Tracks(u.blocks, u.deposits) <==> Indexed(s.blocks, s.deposits[id])
  {
    assert Tracks(s.blocks, s.deposits);
    hide Inv;
    var u := MarkSubmitted(s, id, signature, at).0;
    assert u.deposits[id].state == Submitted && IsActive(u.deposits[id].state);
    if Indexed(s.blocks, s.deposits[id]) {
      forall k | 0 <= k < |u.deposits| && IsActive(u.deposits[k].state) ensures Indexed(u.blocks, u.deposits[k]) {
      }
    } else {
      assert !Indexed(u.blocks, u.deposits[id]);
    }
  }

  /** An input that fails: a rollback truncates the block of an active row,
      and a submission that was already on its way marks the row all the same. */
  lemma LateSubmissionLosesTrack(t: Tree, cfg: ScanConfig, s: State, fork: Tip, id: nat, signature: string, at: int)
    requires Inv(t, cfg, s) && s.tip.Some? && id < |s.deposits| && RolledBack(s.deposits[id], fork.height)
    ensures var u := Rollback(s, fork, s.tip.value, at);
            && u.deposits[id].state == Orphaned
            && var v := MarkSubmitted(u, id, signature, at).0;
            && v.deposits[id].state == Submitted && !Tracks(v.blocks, v.deposits)
  {
    hide Inv, OrphanLog;
    var v := MarkSubmitted(Rollback(s, fork, s.tip.value, at), id, signature, at).0;
    assert v.deposits[id].height !in v.blocks;
    assert !Indexed(v.blocks, v.deposits[id]) && IsActive(v.deposits[id].state);
  }

  // ------------------------------------------------------------ sliding cap

  lemma {:induction false} SumShrinks(deposits: seq<Deposit>, early: int, late: int)
    requires early <= late
    ensures ReadySum(deposits, late) <= ReadySum(deposits, early)
  {
    if deposits != [] {
      SumShrinks(deposits[..|deposits| - 1], early, late);
    }
  }

  predicate SameReadiness(d: Deposit, e: Deposit) { d.readyAt == e.readyAt && d.amount == e.amount }

  lemma {:induction false} SumDependsOnReadiness(before: seq<Deposit>, after: seq<Deposit>, since: int)
    requires |before| <= |after|
    requires forall id :: 0 <= id < |before| ==> SameReadiness(before[id], after[id])
    requires forall id :: |before| <= id < |after| ==> after[id].readyAt == None
    ensures ReadySum(after, since) == ReadySum(before, since)
  {
    if after == [] {
    } else {
      var last := |after| - 1;
      if |before| == |after| {
        SumDependsOnReadiness(before[..last], after[..last], since);
      } else {
        SumDependsOnReadiness(before, after[..last], since);
      }
    }
  }

  lemma {:induction false} SumOfPromoted(deposits: seq<Deposit>, id: nat, d: Deposit, since: int)
    requires id < |deposits| && deposits[id].readyAt == None && d.amount == deposits[id].amount
    ensures ReadySum(deposits[id := d], since) == ReadySum(deposits, since) + (if Ready(d, since) then d.amount else 0)
  {
    var last := |deposits| - 1;
    var after := deposits[id := d];
    if id == last {
      assert after[..last] == deposits[..last];
    } else {
      assert after[..last] == deposits[..last][id := d];
      SumOfPromoted(deposits[..last], id, d, since);
    }
  }

  predicate CapHolds(window: Option<Window>, deposits: seq<Deposit>, now: int) {
    window.Some? ==> ReadySum(deposits, now - window.value.seconds) <= window.value.cap
  }

  function TimeOf(a: Action, now: int): int {
    match a
    case Promote(_, at, _, checkedAt) => at
    case _ => now
  }

  /** Whatever passes the saturating check really fits, exactly when the cap
      is not the largest representable amount. */
  lemma SaturationIsSoundBelowMax(cap: u64)
    ensures (forall sum: nat, amount: u64 :: SaturatingAdd(sum, amount) <= cap ==> sum + amount <= cap) <==> cap < U64_MAX
  {
    if cap == U64_MAX {
      assert SaturatingAdd(U64_MAX, 1) <= cap;
    }
  }

  lemma PromotedAt(w: World, s: State, a: Action)
    requires Enabled(w, s, a) && a.Promote? && a.id !in s.artifacts
    ensures var u := Next(w, s, a);
            && a.id < |s.deposits| == |u.deposits| && u.deposits == s.deposits[a.id := u.deposits[a.id]]
            && u.deposits[a.id].readyAt == Some(a.at) && a.at >= a.checkedAt && u.deposits[a.id].amount == s.deposits[a.id].amount
  {
    hide ClaimIntact, FitsCap;
  }

  /** The check passes exactly when the row still fits beside what is already
      in the window, or the cap is the largest representable amount. */
  lemma FitsCapExactly(w: Window, deposits: seq<Deposit>, amount: u64, now: int)
    ensures FitsCap(Some(w), deposits, amount, now) <==>
              ReadySum(deposits, now - w.seconds) + amount <= w.cap || w.cap == U64_MAX
    ensures FitsCap(None, deposits, amount, now)
  {
  }

  /** The promotion the check let through keeps the cap at the instant of the
      check if and only if the exact total is representable: a cap of the
      largest amount is no cap. */
  lemma PromotionFitsExactly(w: World, s: State, a: Action)
    requires Inv(w.tree, w.scan, s) && Enabled(w, s, a) && a.Promote? && w.window.Some?
    ensures CapHolds(w.window, Next(w, s, a).deposits, a.checkedAt) <==>
              ReadySum(s.deposits, a.checkedAt - w.window.value.seconds) + s.deposits[a.id].amount <= U64_MAX
  {
    hide Inv, Next, Enabled, ReadySum, ClaimIntact;
    PromotionChecked(w, s, a);
    InvRow(w, s, a.id);
    PromotedAt(w, s, a);
    SumOfPromoted(s.deposits, a.id, Next(w, s, a).deposits[a.id], a.checkedAt - w.window.value.seconds);
  }

  lemma PromotionChecked(w: World, s: State, a: Action)
    requires a.Promote? && Enabled(w, s, a)
    ensures a.id < |s.deposits| && s.deposits[a.id].state == Confirming && ClaimIntact(w.sha, s.deposits[a.id], a.artifact)
    ensures FitsCap(w.window, s.deposits, s.deposits[a.id].amount, a.checkedAt)
  {
  }

  lemma PromoteKeepsCap(w: World, s: State, a: Action, later: int)
    requires Inv(w.tree, w.scan, s) && Enabled(w, s, a) && a.Promote? && a.checkedAt <= later
    requires w.window.Some? && w.window.value.cap < U64_MAX
    requires ReadySum(s.deposits, later - w.window.value.seconds) <= w.window.value.cap
    ensures ReadySum(Next(w, s, a).deposits, later - w.window.value.seconds) <= w.window.value.cap
  {
    hide Inv, Next, Enabled, ReadySum, ClaimIntact;
    var u, since := Next(w, s, a), later - w.window.value.seconds;
    PromotionChecked(w, s, a);
    InvRow(w, s, a.id);
    RowFrame(w, s, a);
    SumShrinks(s.deposits, a.checkedAt - w.window.value.seconds, since);
    SumOfPromoted(s.deposits, a.id, u.deposits[a.id], since);
  }

  lemma NextKeepsCap(w: World, s: State, a: Action, now: int, later: int)
    requires Inv(w.tree, w.scan, s) && Enabled(w, s, a)
    requires w.window.Some? ==> w.window.value.cap < U64_MAX
    requires CapHolds(w.window, s.deposits, now)
    requires now <= later && (a.Promote? ==> a.checkedAt <= later)
    ensures CapHolds(w.window, Next(w, s, a).deposits, later)
  {
    hide Inv, Next, Enabled, ReadySum;
    if w.window.Some? {
      var since := later - w.window.value.seconds;
      SumShrinks(s.deposits, now - w.window.value.seconds, since);
      if a.Promote? {
        PromoteKeepsCap(w, s, a, later);
      } else {
        ReadinessFrame(w, s, a);
        SumDependsOnReadiness(s.deposits, Next(w, s, a).deposits, since);
      }
    }
  }

  /** Only a promotion sets a ready time. */
  lemma ReadinessFrame(w: World, s: State, a: Action)
    requires Inv(w.tree, w.scan, s) && Enabled(w, s, a) && !a.Promote?
    ensures var u := Next(w, s, a);
            && |s.deposits| <= |u.deposits|
            && (forall id :: 0 <= id < |s.deposits| ==> SameReadiness(s.deposits[id], u.deposits[id]))
            && (forall id :: |s.deposits| <= id < |u.deposits| ==> u.deposits[id].readyAt == None)
  {
    var u := Next(w, s, a);
    if TouchesOneRow(a) {
      hide Next, Enabled, Inv;
      RowFrame(w, s, a);
    } else if a.Ingest? {
      hide Inv, CandidatesOf, ReadySum, ClaimIntact;
      IngestKeeps(w.tree, w.scan, s, a.height, a.block);
      forall id | |s.deposits| <= id < |u.deposits| ensures u.deposits[id].readyAt == None {
        assert StartsAs(u.deposits[id], CandidatesOf(w.tree, w.scan, a.height, a.block));
      }
    } else {
      hide Inv, ReadySum, ClaimIntact, OrphanLog;
    }
  }

  /** Promotions check the window against a clock that never goes back. */
  predicate Clocked(as_: seq<Action>, now: int) {
    && (forall k :: 0 <= k < |as_| && as_[k].Promote? ==> now <= as_[k].checkedAt <= as_[k].at)
    && (forall j, k :: 0 <= j < k < |as_| && as_[j].Promote? && as_[k].Promote? ==> as_[j].at <= as_[k].checkedAt)
  }

  /** Over a whole run, at every instant not before the last promotion: the
      deposits made ready within the window sum to at most the cap, so the
      unchecked 64-bit total never overflows. */
  lemma {:induction false} CapHoldsThroughout(w: World, s: State, as_: seq<Action>, now: int, later: int)
    requires Inv(w.tree, w.scan, s) && EnabledRun(w, s, as_)
    requires w.window.Some? ==> w.window.value.cap < U64_MAX
    requires CapHolds(w.window, s.deposits, now) && Clocked(as_, now)
    requires now <= later && forall k :: 0 <= k < |as_| && as_[k].Promote? ==> as_[k].at <= later
    ensures CapHolds(w.window, Run(w, s, as_).deposits, later)
    ensures w.window.Some? ==> ReadySum(Run(w, s, as_).deposits, later - w.window.value.seconds) <= U64_MAX
    decreases |as_|
  {
    hide Inv, Next, Enabled, ReadySum;
    if as_ == [] {
      if w.window.Some? { SumShrinks(s.deposits, now - w.window.value.seconds, later - w.window.value.seconds); }
    } else {
      var a := as_[0];
      var then_ := TimeOf(a, now);
      NextKeeps(w, s, a);
      NextKeepsCap(w, s, a, now, then_);
      CapHoldsThroughout(w, Next(w, s, a), as_[1..], then_, later);
    }
  }

  // ---------------------------------------------------- claims stay intact

  ghost predicate ClaimsIntact(w: World, s: State) {
    forall id :: id in s.artifacts ==> id < |s.deposits| && ClaimIntact(w.sha, s.deposits[id], s.artifacts[id])
  }

  lemma NextKeepsClaims(w: World, s: State, a: Action)
    requires Inv(w.tree, w.scan, s) && Enabled(w, s, a) && ClaimsIntact(w, s)
    ensures ClaimsIntact(w, Next(w, s, a))
  {
    hide Inv, Next, Enabled, ClaimIntact, FitsCap;
    var u := Next(w, s, a);
    if a.Promote? { PromotionChecked(w, s, a); }
    NextKeeps(w, s, a);
    ArtifactFrame(w, s, a);
    forall id | id in u.artifacts ensures id < |u.deposits| && ClaimIntact(w.sha, u.deposits[id], u.artifacts[id]) {
      if id in s.artifacts {
        SameClaim(w, s.deposits[id], u.deposits[id], u.artifacts[id]);
      } else {
        SameClaim(w, s.deposits[id], u.deposits[id], a.artifact);
      }
    }
  }

  lemma SameClaim(w: World, d: Deposit, e: Deposit, a: Artifact)
    requires SameRecord(d, e)
    ensures ClaimIntact(w.sha, d, a) <==> ClaimIntact(w.sha, e, a)
  {
    assert ClaimOf(d, a) == ClaimOf(e, a);
  }

  lemma ArtifactFrame(w: World, s: State, a: Action)
    requires Inv(w.tree, w.scan, s) && Enabled(w, s, a)
    ensures var u := Next(w, s, a);
            && (forall id :: id in u.artifacts && id in s.artifacts ==> u.artifacts[id] == s.artifacts[id])
            && (forall id :: id in u.artifacts && id !in s.artifacts ==>
                  a.Promote? && id == a.id && id < |s.deposits| && u.artifacts[id] == a.artifact)
  {
    if TouchesOneRow(a) {
      hide Next, Enabled, Inv;
      RowFrame(w, s, a);
    } else {
      hide Inv, CandidatesOf, ReadySum, ClaimIntact, OrphanLog;
      if a.Ingest? { IngestKeeps(w.tree, w.scan, s, a.height, a.block); }
    }
  }

  /** In every reachable state every frozen claim still matches its row, so
      the claim guard never halts one. */
  lemma {:induction false} RunKeepsClaims(w: World, s: State, as_: seq<Action>)
    requires Inv(w.tree, w.scan, s) && EnabledRun(w, s, as_) && ClaimsIntact(w, s)
    ensures ClaimsIntact(w, Run(w, s, as_))
    decreases |as_|
  {
    hide Inv, Next, Enabled, ClaimsIntact;
    if as_ != [] {
      NextKeeps(w, s, as_[0]);
      NextKeepsClaims(w, s, as_[0]);
      RunKeepsClaims(w, Next(w, s, as_[0]), as_[1..]);
    }
  }
}
