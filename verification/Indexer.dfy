/** The indexer's tick: walk back to the fork, roll back, index forward,
    promote. The node's branch is fixed during a tick and arbitrary between
    ticks; any call to an unreliable node may fail. */
module Indexer {
  import opened Bytes
  import opened Wrappers
  import opened DepositScan
  import opened BlockTree
  import opened DepositStore
  import opened DepositInvariants
  import opened DepositRuns
  import opened SignedMessages
  import DepositDb
  import DE = DepositEffects

  /** The node during one tick: a branch of the block tree and the outputs it
      reports unspent. A reliable node answers every call it can answer. */
  datatype Node = Node(tree: Tree, chain: seq<Hash32>, unspent: (Hash32, u32) -> bool, reliable: bool)

  datatype RpcError = RpcError

  datatype ReorgSummary = ReorgSummary(fork: int, oldTip: int, orphaned: nat)

  datatype TickOutcome =
    | Progressed(indexed: int, reorg: Option<ReorgSummary>)
    | HaltedAt(attempted: nat)
    | Unavailable

  datatype Config = Config(
    maxReorgDepth: u32, confirmationDepth: u32, scan: ScanConfig, maxDeposit: Option<u64>, window: Option<Window>,
    version: byte, program: Hash32, epoch: u64, mint: Hash32)

  /** The local index and the node name the same block at this height. */
  predicate Agrees(s: State, chain: seq<Hash32>, h: int) {
    0 <= h < |chain| && h in s.blocks && s.blocks[h].hash == chain[h]
  }

  /** The fork point is the highest height of agreement. */
  predicate ForksAt(s: State, chain: seq<Hash32>, from: int, fork: int) {
    Agrees(s, chain, fork) && fork <= from && forall h :: fork < h <= from ==> !Agrees(s, chain, h)
  }

  /** No agreement within `depth` blocks of the recorded tip. */
  predicate DeepFork(s: State, chain: seq<Hash32>, depth: nat) {
    s.tip.Some? && forall h :: s.tip.value.height - depth <= h <= s.tip.value.height ==> !Agrees(s, chain, h)
  }

  /** The node's branch is at least as long as the index. */
  predicate ReachesTip(s: State, chain: seq<Hash32>) { s.tip.Some? ==> s.tip.value.height < |chain| }

  /** What every commit of the store satisfies. */
  ghost predicate Sound(w: World, s: State, now: int) {
    Inv(w.tree, w.scan, s) && ClaimsIntact(w, s) && CapHolds(w.window, s.deposits, now)
  }

  ghost predicate CapSane(w: World) { w.window.Some? ==> w.window.value.cap < U64_MAX }

  ghost predicate Committed(w: World, s: State) { Inv(w.tree, w.scan, s) && ClaimsIntact(w, s) }

  /** The claim frozen for a row is for the configured program, mint and epoch,
      and says what the row says. */
  predicate Configured(cfg: Config, d: Deposit, a: Artifact) {
    && a.version == cfg.version && a.program == cfg.program && a.epoch == cfg.epoch && a.mint == cfg.mint
    && a.message == DepositClaimMessage(
                      Claim(cfg.version, cfg.program, cfg.epoch, d.txid, d.vout, d.amount, d.recipient, cfg.mint))
  }

  predicate Readied(before: seq<Deposit>, after: seq<Deposit>, id: int) {
    Changed(before, after, id) && after[id].state == ReadyForSignature
  }

  /** From `s` to `u` frozen claims were kept, those added are as configured,
      and each row made ready has one of its own. */
  ghost predicate Froze(cfg: Config, s: State, u: State) {
    && ArtifactsKept(s.artifacts, u.artifacts)
    && (forall id :: id in u.artifacts && id !in s.artifacts ==>
          id < |u.deposits| && Configured(cfg, u.deposits[id], u.artifacts[id]))
    && (forall id :: Readied(s.deposits, u.deposits, id) ==> id in u.artifacts && id !in s.artifacts)
  }

  /** From `s` to `u` rows and frozen claims were kept, and every commit in
      between is sound. */
  ghost predicate Advanced(w: World, cfg: Config, s: State, before: seq<State>, u: State, after: seq<State>) {
    && RowsKept(s.deposits, u.deposits) && Froze(cfg, s, u) && before <= after
    && forall k :: |before| <= k < |after| ==> Committed(w, after[k])
  }

  predicate OnBranch(chain: seq<Hash32>, d: Deposit) { 0 <= d.height < |chain| && chain[d.height] == d.blockHash }

  predicate DeepEnough(node: Node, cfg: Config, d: Deposit) {
    OnBranch(node.chain, d) && |node.chain| - d.height >= cfg.confirmationDepth
  }

  /** A row the promotion may make ready: on the node's branch, deep enough,
      still unspent, within the flat cap. */
  predicate Promotable(node: Node, cfg: Config, d: Deposit) {
    DeepEnough(node, cfg, d) && node.unspent(d.txid, d.vout) && (cfg.maxDeposit.Some? ==> d.amount <= cfg.maxDeposit.value)
  }

  /** A row the promotion must give up: as deep, and its output gone. */
  predicate Spent(node: Node, cfg: Config, d: Deposit) {
    DeepEnough(node, cfg, d) && !node.unspent(d.txid, d.vout)
  }

  /** The row records a vault output that binds no recipient or is too small. */
  ghost predicate Unclaimable(t: Tree, cfg: ScanConfig, d: Deposit) {
    exists tx, o :: SourcedBy(t, cfg, d, tx, o) && Rejected(tx, o, cfg)
  }

  predicate Rejected(tx: Tx, o: TxOut, cfg: ScanConfig) { Initial(Binding(tx), o.amount, cfg.minDeposit).0 == Failed }

  predicate Changed(before: seq<Deposit>, after: seq<Deposit>, id: int) {
    0 <= id < |after| && !(id < |before| && before[id].state == after[id].state)
  }

  /** Why the row may be in the state it has reached: ready only if promotable,
      failed only if spent or rejected when it was found, orphaned only if off
      the node's branch, confirming only from a candidate; the states of the
      mint pipeline are never entered. */
  ghost predicate MoveJustified(before: seq<Deposit>, after: seq<Deposit>, id: nat, node: Node, cfg: Config)
    requires id < |after|
  {
    match after[id].state
    case ReadyForSignature => Promotable(node, cfg, after[id])
    case Failed => Spent(node, cfg, after[id]) || (id >= |before| && Unclaimable(node.tree, cfg.scan, after[id]))
    case Orphaned => !OnBranch(node.chain, after[id])
    case Confirming => id < |before| ==> before[id].state == Candidate
    case Candidate => id >= |before|
    case _ => false
  }

  ghost predicate Justified(before: seq<Deposit>, after: seq<Deposit>, node: Node, cfg: Config) {
    forall id :: Changed(before, after, id) ==> MoveJustified(before, after, id, node, cfg)
  }

  predicate NoneIn(deposits: seq<Deposit>, state: DepositState) {
    forall id :: 0 <= id < |deposits| ==> deposits[id].state != state
  }

  predicate OverFlatCap(cfg: Config, d: Deposit) { cfg.maxDeposit.Some? && d.amount > cfg.maxDeposit.value }

  /** At some instant in between, the rolling window had no room for the row. */
  ghost predicate WindowFull(cfg: Config, seen: seq<Deposit>, d: Deposit, from: int, to: int) {
    exists t :: from <= t <= to && !FitsCap(cfg.window, seen, d.amount, t)
  }

  /** The only reasons for a confirming row to wait: it is not deep enough, or
      it is unspent and a cap holds it back. */
  ghost predicate MayWait(node: Node, cfg: Config, seen: seq<Deposit>, d: Deposit, from: int, to: int) {
    DeepEnough(node, cfg, d) ==>
      node.unspent(d.txid, d.vout) && (OverFlatCap(cfg, d) || WindowFull(cfg, seen, d, from, to))
  }

  /** The table as the evaluation of row `id` saw it: rows are taken in id
      order, so those before it are done and the rest are as they were. */
  function SeenBy(before: seq<Deposit>, after: seq<Deposit>, id: nat): (seen: seq<Deposit>)
    requires id <= |after|
  {
    after[..id] + if id <= |before| then before[id..] else []
  }

  /** Every row still waiting has its reason. */
  ghost predicate NoneOverdue(before: seq<Deposit>, after: seq<Deposit>, node: Node, cfg: Config, from: int, to: int) {
    forall id :: 0 <= id < |after| && after[id].state == Confirming ==>
      MayWait(node, cfg, SeenBy(before, after, id), after[id], from, to)
  }

  /** No ready time was set: earlier rows have the one they had, new rows none. */
  predicate NoneTimed(before: seq<Deposit>, after: seq<Deposit>) {
    && |before| <= |after|
    && (forall id :: 0 <= id < |before| ==> SameReadiness(before[id], after[id]))
    && (forall id :: |before| <= id < |after| ==> after[id].readyAt == None)
  }

  /** The index is the node's branch, block for block. */
  ghost predicate Mirrors(s: State, chain: seq<Hash32>) {
    && (|chain| > 0 ==> s.tip == Some(Tip(|chain| - 1, chain[|chain| - 1])))
    && (|chain| == 0 ==> s.tip == None)
    && (forall h :: h in s.blocks <==> 0 <= h < |chain|)
    && (forall h :: 0 <= h < |chain| ==> s.blocks[h].hash == chain[h])
  }

  // ------------------------------------------------------ one commit of a tick

  lemma ActionKeepsSound(w: World, s: State, a: Action, now: int, later: int)
    requires Sound(w, s, now) && CapSane(w) && Enabled(w, s, a)
    requires now <= later && (a.Promote? ==> a.checkedAt <= later)
    ensures Sound(w, Next(w, s, a), later) && Committed(w, Next(w, s, a))
    ensures RowsKept(s.deposits, Next(w, s, a).deposits)
  {
    hide Inv, Next, Enabled, ClaimsIntact, CapHolds, RowsKept;
    NextKeeps(w, s, a);
    NextKeepsClaims(w, s, a);
    NextKeepsCap(w, s, a, now, later);
  }

  lemma SoundLater(w: World, s: State, now: int, later: int)
    requires Sound(w, s, now) && now <= later
    ensures Sound(w, s, later)
  {
    hide Inv, ClaimsIntact, ReadySum;
    if w.window.Some? {
      SumShrinks(s.deposits, now - w.window.value.seconds, later - w.window.value.seconds);
    }
  }

  lemma AdvancedTransitive(w: World, cfg: Config, s: State, a: seq<State>, v: State, b: seq<State>, u: State, c: seq<State>)
    requires Advanced(w, cfg, s, a, v, b) && Advanced(w, cfg, v, b, u, c)
    ensures Advanced(w, cfg, s, a, u, c) && |s.deposits| <= |v.deposits|
  {
    assert |s.deposits| <= |v.deposits|;
    FrozeTransitive(cfg, s, v, u);
    hide Committed, RowsKept, Froze;
    RowsKeptTransitive(s.deposits, v.deposits, u.deposits);
    forall k | |a| <= k < |c| ensures Committed(w, c[k]) {
      if k < |b| { assert c[k] == b[k]; }
    }
  }

  lemma FrozeTransitive(cfg: Config, s: State, v: State, u: State)
    requires Froze(cfg, s, v) && Froze(cfg, v, u) && RowsKept(v.deposits, u.deposits) && |s.deposits| <= |v.deposits|
    ensures Froze(cfg, s, u)
  {
    hide Configured, SameRecord, Changed;
    forall id | id in u.artifacts && id !in s.artifacts ensures id < |u.deposits| && Configured(cfg, u.deposits[id], u.artifacts[id]) {
      if id in v.artifacts {
        ConfiguredStill(cfg, v.deposits[id], u.deposits[id], v.artifacts[id]);
      }
    }
    forall id | Readied(s.deposits, u.deposits, id) ensures id in u.artifacts && id !in s.artifacts {
      ReadiedBetween(s.deposits, v.deposits, u.deposits, id);
    }
  }

  lemma ConfiguredStill(cfg: Config, d: Deposit, e: Deposit, a: Artifact)
    requires Configured(cfg, d, a) && SameRecord(d, e)
    ensures Configured(cfg, e, a)
  {
  }

  lemma ReadiedBetween(s: seq<Deposit>, v: seq<Deposit>, u: seq<Deposit>, id: int)
    requires Readied(s, u, id) && |s| <= |v| <= |u|
    ensures Readied(v, u, id) || Readied(s, v, id)
  {
  }

  /** No claim was frozen and no row made ready. */
  lemma FrozeNothing(cfg: Config, s: State, u: State)
    requires u.artifacts == s.artifacts && forall id :: !Readied(s.deposits, u.deposits, id)
    ensures Froze(cfg, s, u)
  {
  }

  lemma FrozeOne(cfg: Config, s: State, u: State, id: nat, to: DepositState, a: Option<Artifact>)
    requires OneRowMoved(s, u, id, to) && u.artifacts == (if a.Some? then s.artifacts[id := a.value] else s.artifacts)
    requires a.Some? <==> to == ReadyForSignature
    requires a.Some? ==> id !in s.artifacts && Configured(cfg, s.deposits[id], a.value)
    ensures Froze(cfg, s, u)
  {
    hide DepositClaimMessage;
    assert forall k :: Readied(s.deposits, u.deposits, k) ==> k == id && to == ReadyForSignature;
  }

  lemma FrozeBy(cfg: Config, s: State, u: State, a: Action, to: DepositState)
    requires (a.Advance? && to == Confirming) || (a.MarkSpent? && to == Failed) || (a.Promote? && to == ReadyForSignature)
    requires OneRowMoved(s, u, a.id, to) && FrozenBy(s, u, a)
    requires a.Promote? ==> a.id < |s.deposits| && Configured(cfg, s.deposits[a.id], a.artifact)
    ensures Froze(cfg, s, u)
  {
    hide Configured, Froze;
    FrozeOne(cfg, s, u, a.id, to, if a.Promote? then Some(a.artifact) else None);
  }

  lemma RowsNotLost(w: World, cfg: Config, s: State, a: seq<State>, u: State, b: seq<State>)
    requires Advanced(w, cfg, s, a, u, b)
    ensures |s.deposits| <= |u.deposits|
  {
  }

  lemma AdvancedNowhere(w: World, cfg: Config, s: State, a: seq<State>)
    ensures Advanced(w, cfg, s, a, s, a)
  {
  }

  lemma JustifiedTransitive(before: seq<Deposit>, mid: seq<Deposit>, after: seq<Deposit>, node: Node, cfg: Config)
    requires Justified(before, mid, node, cfg) && Justified(mid, after, node, cfg)
    requires |before| <= |mid| && RowsKept(mid, after)
    ensures Justified(before, after, node, cfg)
  {
    hide Promotable, Spent, Unclaimable, SameRecord;
    forall id | Changed(before, after, id) ensures MoveJustified(before, after, id, node, cfg) {
      if Changed(mid, after, id) {
        assert MoveJustified(mid, after, id, node, cfg);
        assert Changed(before, mid, id) ==> MoveJustified(before, mid, id, node, cfg);
      } else {
        assert Changed(before, mid, id) && MoveJustified(before, mid, id, node, cfg);
        SameVerdict(mid[id], after[id], node, cfg);
      }
    }
  }

  lemma NoneTimedTransitive(before: seq<Deposit>, mid: seq<Deposit>, after: seq<Deposit>)
    requires NoneTimed(before, mid) && NoneTimed(mid, after)
    ensures NoneTimed(before, after)
  {
  }

  lemma SameVerdict(d: Deposit, e: Deposit, node: Node, cfg: Config)
    requires SameRecord(d, e)
    ensures Promotable(node, cfg, d) == Promotable(node, cfg, e) && Spent(node, cfg, d) == Spent(node, cfg, e)
    ensures OnBranch(node.chain, d) == OnBranch(node.chain, e)
    ensures Unclaimable(node.tree, cfg.scan, d) ==> Unclaimable(node.tree, cfg.scan, e)
  {
    hide Initial, Binding, Rejected;
    if Unclaimable(node.tree, cfg.scan, d) {
      var tx, o :| SourcedBy(node.tree, cfg.scan, d, tx, o) && Rejected(tx, o, cfg.scan);
      assert SourcedBy(node.tree, cfg.scan, e, tx, o);
    }
  }

  /** Indexing the node's next block, given the index mirrors the branch so far. */
  lemma IndexStep(w: World, s: State, node: Node, cfg: Config, height: nat, b: Block, now: int, later: int)
    requires Sound(w, s, now) && CapSane(w) && now <= later
    requires IsChain(w.tree, node.chain) && height < |node.chain| && b.hash == node.chain[height]
    requires node.tree == w.tree && cfg.scan == w.scan && Mirrors(s, node.chain[..height])
    ensures var u := IngestBlock(s, height, b, CandidatesOf(w.tree, w.scan, height, b));
            && Sound(w, u, later) && Committed(w, u) && RowsKept(s.deposits, u.deposits)
            && Mirrors(u, node.chain[..height + 1]) && Justified(s.deposits, u.deposits, node, cfg)
            && NoneTimed(s.deposits, u.deposits) && Froze(cfg, s, u) && u.blocks == s.blocks[height := b]
  {
    SoundInv(w, s, now);
    hide Inv, CandidatesOf, Sound, Committed, RowsKept, IngestBlock, Justified, NoneTimed, Mirrors, Extends, IsChain, Froze;
    NextBlock(w, s, node.chain, height, b);
    IngestTimesNone(w, s, height, b);
    ActionKeepsSound(w, s, Ingest(height, b), now, later);
    IndexedBlock(w, s, node, cfg, height, b, now);
    MirrorsOneMore(s, IngestBlock(s, height, b, CandidatesOf(w.tree, w.scan, height, b)), node.chain, height, b);
  }

  lemma IngestTimesNone(w: World, s: State, height: int, b: Block)
    requires Inv(w.tree, w.scan, s) && Enabled(w, s, Ingest(height, b))
    ensures NoneTimed(s.deposits, IngestBlock(s, height, b, CandidatesOf(w.tree, w.scan, height, b)).deposits)
  {
    hide Inv, CandidatesOf, IngestBlock;
    ReadinessFrame(w, s, Ingest(height, b));
  }

  lemma MirrorsOneMore(s: State, u: State, chain: seq<Hash32>, height: nat, b: Block)
    requires height < |chain| && b.hash == chain[height] && Mirrors(s, chain[..height])
    requires u.blocks == s.blocks[height := b] && u.tip == Some(Tip(height, b.hash))
    ensures Mirrors(u, chain[..height + 1])
  {
  }

  lemma NextBlock(w: World, s: State, chain: seq<Hash32>, height: nat, b: Block)
    requires IsChain(w.tree, chain) && height < |chain| && b.hash == chain[height] && Mirrors(s, chain[..height])
    ensures Enabled(w, s, Ingest(height, b)) && Extends(w.tree, s, height, b)
  {
  }

  lemma IndexedBlock(w: World, s: State, node: Node, cfg: Config, height: nat, b: Block, now: int)
    requires Sound(w, s, now) && Extends(w.tree, s, height, b) && node.tree == w.tree && cfg.scan == w.scan
    ensures var u := IngestBlock(s, height, b, CandidatesOf(w.tree, w.scan, height, b));
            && u.blocks == s.blocks[height := b] && u.tip == Some(Tip(height, b.hash))
            && Justified(s.deposits, u.deposits, node, cfg) && Froze(cfg, s, u)
  {
    hide Inv, CandidatesOf, ClaimsIntact, CapHolds, Froze, IngestBlock, FromBlock, Extends, Unclaimable, Promotable, Spent, OnBranch;
    IngestKeeps(w.tree, w.scan, s, height, b);
    CandidatesFromBlock(w.tree, w.scan, height, b);
    var cs, p := CandidatesOf(w.tree, w.scan, height, b), Place(height, b.hash, b.at);
    var u := IngestBlock(s, height, b, cs);
    forall id | Changed(s.deposits, u.deposits, id)
      ensures MoveJustified(s.deposits, u.deposits, id, node, cfg) && u.deposits[id].state != ReadyForSignature
    {
      assert StartsAs(u.deposits[id], cs);
      var c :| c in cs && u.deposits[id] == FreshRow(c);
      StartsJustified(w.tree, w.scan, c, p);
    }
    FrozeNothing(cfg, s, u);
  }

  lemma StartsJustified(t: Tree, cfg: ScanConfig, c: NewCandidate, p: Place)
    requires FromBlock(t, cfg, c, p)
    ensures FreshRow(c).state == Candidate || (FreshRow(c).state == Failed && Unclaimable(t, cfg, FreshRow(c)))
  {
    hide Binding, VaultOutputs;
    StartsWaiting(t, cfg, c, p);
    var tx, o :| OfBlock(t, cfg, c, p, tx, o);
    assert SourcedBy(t, cfg, FreshRow(c), tx, o);
  }

  /** Agreement at the fork is agreement below it, so after the rollback the
      index mirrors the node's branch up to the fork. */
  lemma MirrorsToFork(w: World, s: State, chain: seq<Hash32>, fork: int)
    requires ChainOk(w.tree, s.blocks, s.tip) && IsChain(w.tree, chain) && s.tip.Some? && Agrees(s, chain, fork)
    ensures fork <= s.tip.value.height && forall h :: h in s.blocks ==> h >= 0
    ensures forall h :: 0 <= h <= fork ==> h in s.blocks && s.blocks[h].hash == chain[h]
  {
    var local := LocalChain(s);
    AgreementGoesDown(w.tree, local, chain, fork);
    forall h | 0 <= h <= fork ensures s.blocks[h].hash == chain[h] {
      assert local[..fork + 1][h] == chain[..fork + 1][h];
    }
  }

  lemma SoundInv(w: World, s: State, now: int)
    requires Sound(w, s, now)
    ensures Inv(w.tree, w.scan, s)
  {
  }

  lemma SoundChain(w: World, s: State, now: int)
    requires Sound(w, s, now)
    ensures ChainOk(w.tree, s.blocks, s.tip)
  {
  }

  lemma RollbackStep(w: World, s: State, node: Node, cfg: Config, fork: int, now: int, at: int)
    requires Sound(w, s, now) && CapSane(w) && now <= at && IsChain(w.tree, node.chain)
    requires s.tip.Some? && ForksAt(s, node.chain, s.tip.value.height, fork)
    ensures fork <= s.tip.value.height
    ensures var u := Rollback(s, Tip(fork, node.chain[fork]), s.tip.value, at);
            && Sound(w, u, at) && Committed(w, u) && RowsKept(s.deposits, u.deposits)
            && Mirrors(u, node.chain[..fork + 1]) && Justified(s.deposits, u.deposits, node, cfg)
            && NoneTimed(s.deposits, u.deposits) && Froze(cfg, s, u)
  {
    SoundInv(w, s, now);
    SoundChain(w, s, now);
    MirrorsToFork(w, s, node.chain, fork);
    SoundTracks(w, s, now);
    hide Inv, Sound, Committed, ChainOk, RowsKept, IsChain, Tracks, Froze;
    RolledBackTo(s, node, cfg, fork, at);
    hide Mirrors, Justified, Rollback;
    ReadinessFrame(w, s, RollbackTo(fork, at));
    ActionKeepsSound(w, s, RollbackTo(fork, at), now, at);
  }

  lemma RolledBackTo(s: State, node: Node, cfg: Config, fork: int, at: int)
    requires s.tip.Some? && ForksAt(s, node.chain, s.tip.value.height, fork)
    requires Tracks(s.blocks, s.deposits) && forall h :: h in s.blocks ==> h <= s.tip.value.height
    requires forall h :: 0 <= h <= fork ==> h in s.blocks && s.blocks[h].hash == node.chain[h]
    requires forall h :: h in s.blocks ==> h >= 0
    ensures var u := Rollback(s, Tip(fork, node.chain[fork]), s.tip.value, at);
            Mirrors(u, node.chain[..fork + 1]) && Justified(s.deposits, u.deposits, node, cfg) && Froze(cfg, s, u)
  {
    hide Promotable, Spent, Unclaimable, OrphanLog, Froze;
    var u := Rollback(s, Tip(fork, node.chain[fork]), s.tip.value, at);
    forall id | Changed(s.deposits, u.deposits, id) ensures MoveJustified(s.deposits, u.deposits, id, node, cfg) {
      assert RolledBack(s.deposits[id], fork) && Indexed(s.blocks, s.deposits[id]);
      assert !Agrees(s, node.chain, s.deposits[id].height);
    }
    FrozeNothing(cfg, s, u);
  }

  lemma SoundTracks(w: World, s: State, now: int)
    requires Sound(w, s, now) && s.tip.Some?
    ensures Tracks(s.blocks, s.deposits) && forall h :: h in s.blocks ==> h <= s.tip.value.height
  {
  }

  /** At the fork itself nothing needs rolling back. */
  lemma AgreesAtTip(w: World, s: State, node: Node, now: int)
    requires Sound(w, s, now) && IsChain(w.tree, node.chain)
    requires s.tip.Some? && Agrees(s, node.chain, s.tip.value.height)
    ensures Mirrors(s, node.chain[..s.tip.value.height + 1])
  {
    SoundChain(w, s, now);
    MirrorsToFork(w, s, node.chain, s.tip.value.height);
    hide Inv, Sound;
  }

  lemma EmptyMirrors(w: World, s: State, node: Node, now: int)
    requires Sound(w, s, now) && s.tip == None
    ensures Mirrors(s, node.chain[..0])
  {
    SoundChain(w, s, now);
    hide Inv, Sound;
  }

  predicate OneRowMoved(s: State, u: State, id: nat, to: DepositState) {
    && id < |s.deposits| && |u.deposits| == |s.deposits|
    && u.deposits == s.deposits[id := u.deposits[id]] && u.deposits[id].state == to
    && SameRecord(s.deposits[id], u.deposits[id]) && u.blocks == s.blocks && u.tip == s.tip
    && (to == Failed ==> u.deposits[id].failure == Some("vault_output_spent"))
    && (to == Confirming ==> u.deposits[id] == s.deposits[id].(state := Confirming) && u.artifacts == s.artifacts)
  }

  /** A deposit-state transition of the tick: advance, spent, or promote. */
  lemma RowStep(w: World, s: State, a: Action, to: DepositState, now: int, later: int)
    requires Sound(w, s, now) && CapSane(w) && now <= later && Enabled(w, s, a)
    requires (a.Advance? && to == Confirming) || (a.MarkSpent? && to == Failed) || (a.Promote? && to == ReadyForSignature)
    requires a.Promote? ==> a.checkedAt <= later
    ensures var u := Next(w, s, a);
            && Sound(w, u, later) && Committed(w, u) && RowsKept(s.deposits, u.deposits) && OneRowMoved(s, u, a.id, to)
            && FrozenBy(s, u, a)
  {
    EnabledRow(w, s, a);
    StagedRow(w, s, a.id, now);
    MovedExactly(w, s, a, to);
    hide Inv, Next, Enabled, Sound, Committed, RowsKept, OneRowMoved, FrozenBy;
    ActionKeepsSound(w, s, a, now, later);
  }

  lemma EnabledRow(w: World, s: State, a: Action)
    requires Enabled(w, s, a) && (a.Advance? || a.MarkSpent? || a.Promote?)
    ensures a.id < |s.deposits| && s.deposits[a.id].state in {Candidate, Confirming}
  {
    hide ClaimIntact, FitsCap;
  }

  lemma StagedRow(w: World, s: State, id: nat, now: int)
    requires Sound(w, s, now) && id < |s.deposits|
    ensures s.deposits[id].state in {Candidate, Confirming} ==> id !in s.artifacts
    ensures IsActive(s.deposits[id].state) ==> Indexed(s.blocks, s.deposits[id])
  {
    InvRow(w, s, id);
  }

  lemma MovedExactly(w: World, s: State, a: Action, to: DepositState)
    requires (a.Advance? && to == Confirming) || (a.MarkSpent? && to == Failed) || (a.Promote? && to == ReadyForSignature)
    requires a.id < |s.deposits| && a.id !in s.artifacts
    ensures OneRowMoved(s, Next(w, s, a), a.id, to) && FrozenBy(s, Next(w, s, a), a)
  {
  }

  /** A row action freezes the claim of a promotion, and no other. */
  predicate FrozenBy(s: State, u: State, a: Action) {
    && (a.Promote? ==> a.id !in s.artifacts && u.artifacts == s.artifacts[a.id := a.artifact])
    && (!a.Promote? ==> u.artifacts == s.artifacts)
  }

  class Indexer {
    const config: Config
    ghost const world: World
    const db: DepositDb.Db
    var halted: bool
    /** The clock's last reading. */
    var now: int

    ghost predicate Valid()
      reads this, db
    {
      && world.scan == config.scan && world.window == config.window && world.sha == db.sha
      && CapSane(world)
      && Sound(world, db.Contents(), now)
    }

    constructor (config: Config, ghost tree: Tree, sha: seq<byte> -> Hash32, db: DepositDb.Db, now: int)
      requires db.Contents() == EMPTY && db.sha == sha
      requires config.window.Some? ==> config.window.value.cap < U64_MAX
      ensures Valid() && !halted && this.db == db && this.config == config && this.now == now && world.tree == tree
    {
      this.config, this.db, this.halted, this.now := config, db, false, now;
      this.world := World(tree, config.scan, sha, config.window);
    }

    /** Everything a step of a tick may do, whether or not it succeeds: rows and
        frozen claims are kept, each claim frozen is for the configured program
        and mint, each row made ready has one, and every commit is sound. */
    twostate predicate Stepped()
      reads this, db
    {
      && now >= old(now)
      && Valid()
      && Advanced(world, config, old(db.Contents()), old(db.commits), db.Contents(), db.commits)
    }

    method NowUnix() returns (t: int)
      requires Valid()
      modifies this`now
      ensures t == now && now >= old(now) && Valid()
    {
      t := *;
      if t < now {
        t := now;
      }
      SoundLater(world, db.Contents(), now, t);
      hide Sound;
      now := t;
    }

    method GetBlockHash(node: Node, h: int) returns (r: Result<Hash32, RpcError>)
      ensures r.Ok? ==> 0 <= h < |node.chain| && r.value == node.chain[h]
      ensures node.reliable && 0 <= h < |node.chain| ==> r.Ok?
    {
      var answers: bool := *;
      r := if (node.reliable || answers) && 0 <= h < |node.chain| then Ok(node.chain[h]) else Err(RpcError.RpcError);
    }

    method GetTxOut(node: Node, txid: Hash32, vout: u32) returns (r: Result<bool, RpcError>)
      ensures r.Ok? ==> r.value == node.unspent(txid, vout)
      ensures node.reliable ==> r.Ok?
    {
      var answers: bool := *;
      r := if node.reliable || answers then Ok(node.unspent(txid, vout)) else Err(RpcError.RpcError);
    }

    /** Whether a call that reads the block or its transactions goes through. */
    method CallSucceeds(node: Node) returns (ok: bool)
      ensures node.reliable ==> ok
    {
      ok := *;
      ok := ok || node.reliable;
    }

    method FindForkPoint(node: Node, from: int) returns (r: Result<Option<int>, RpcError>)
      requires from >= 0
      ensures r.Ok? && r.value.Some? ==>
                from - r.value.value <= config.maxReorgDepth && ForksAt(db.Contents(), node.chain, from, r.value.value)
      ensures r == Ok(None) ==>
                forall h :: from - config.maxReorgDepth <= h <= from ==> !Agrees(db.Contents(), node.chain, h)
      ensures node.reliable && from < |node.chain| ==> r.Ok?
    {
      var h := from;
      while true
        invariant -1 <= h <= from && from - h <= config.maxReorgDepth
        invariant forall k :: h < k <= from ==> !Agrees(db.Contents(), node.chain, k)
        decreases h
      {
        if h < 0 {
          return Ok(None);
        }
        var live := GetBlockHash(node, h);
        if live.Err? {
          return Err(live.error);
        }
        if h in db.blocks && db.blocks[h].hash == live.value {
          return Ok(Some(h));
        }
        var depth := from - (h - 1);
        if depth > config.maxReorgDepth {
          return Ok(None);
        }
        h := h - 1;
      }
    }

    method IndexBlock(node: Node, height: nat) returns (ok: bool)
      requires Valid() && node.tree == world.tree && IsChain(world.tree, node.chain) && height < |node.chain|
      requires Mirrors(db.Contents(), node.chain[..height])
      modifies this`now, db
      ensures Stepped() && Justified(old(db.deposits), db.deposits, node, config)
      ensures NoneTimed(old(db.deposits), db.deposits)
      ensures ok ==> Mirrors(db.Contents(), node.chain[..height + 1])
      ensures ok ==>
                && height in db.blocks && db.blocks == old(db.blocks)[height := db.blocks[height]]
                && db.blocks[height].hash == node.chain[height] && old(now) <= db.blocks[height].at <= now
                && db.blocks[height].prev == if height == 0 then ZERO32 else node.tree.parent(node.chain[height])
      ensures !ok ==> db.Contents() == old(db.Contents()) && db.commits == old(db.commits)
      ensures node.reliable ==> ok
    {
      hide Inv, Sound, Mirrors, IsChain, BlockCandidates, Committed, Justified, IngestBlock;
      var hash := GetBlockHash(node, height);
      var answered := CallSucceeds(node);
      AdvancedNowhere(world, config, db.Contents(), db.commits);
      NothingChanged(db.deposits, node, config);
      if hash.Err? || !answered {
        return false;
      }
      var prev := if height == 0 then ZERO32 else node.tree.parent(hash.value);
      var at := NowUnix();
      var found: seq<NewCandidate> := [];
      if height != 0 {
        found := ScanBlock(node.tree.txs(hash.value), Place(height, hash.value, at), config.scan);
      }
      var b := Block(hash.value, prev, at);
      IndexStep(world, db.Contents(), node, config, height, b, at, at);
      db.IngestBlock(height, b, found);
      ok := true;
    }

    /** One committed transition of one waiting row. */
    method MoveRow(id: nat, to: DepositState, at: int, reason: Option<string>, artifact: Option<Artifact>, ghost a: Action)
      requires Valid() && Performs(a, id, to, at, reason, artifact) && Enabled(world, db.Contents(), a)
      requires a.Promote? ==> a.checkedAt <= now && id < |db.deposits| && Configured(config, db.deposits[id], a.artifact)
      modifies db
      ensures Stepped() && OneRowMoved(old(db.Contents()), db.Contents(), id, to)
    {
      hide Inv, Sound, Committed, RowsKept, OneRowMoved, Enabled, Next, Transition, Performs, Froze, FrozenBy, Configured;
      PerformedIsNext(world, db.Contents(), a, id, to, at, reason, artifact);
      RowStep(world, db.Contents(), a, to, now, now);
      FrozeBy(config, db.Contents(), Next(world, db.Contents(), a), a, to);
      var e := db.TransitionState(id, to, at, reason, artifact);
    }

    method AdvanceRow(id: nat, at: int)
      requires Valid() && id < |db.deposits| && db.deposits[id].state == Candidate
      modifies db
      ensures Stepped() && OneRowMoved(old(db.Contents()), db.Contents(), id, Confirming)
    {
      hide Inv, Sound, Committed, RowsKept, Advanced, OneRowMoved;
      ghost var a := Advance(id, at);
      assert Enabled(world, db.Contents(), a);
      MoveRow(id, Confirming, at, None, None, a);
    }

    method AdvanceNewCandidates(node: Node)
      requires Valid() && Mirrors(db.Contents(), node.chain)
      modifies this`now, db
      ensures Stepped() && Justified(old(db.deposits), db.deposits, node, config)
      ensures Mirrors(db.Contents(), node.chain) && NoneIn(db.deposits, Candidate)
      ensures db.deposits == AllConfirming(old(db.deposits)) && db.artifacts == old(db.artifacts)
    {
      var rows := db.CandidatesByState(Candidate);
      hide Inv, Sound, Mirrors, Committed, Promotable, RowsKept, Advanced, Advancing, OneRowMoved, NoneIn, AllConfirming;
      hide Justified;
      ghost var start, log := db.Contents(), db.commits;
      assert Snapshot(start.deposits, rows, Candidate);
      hide Snapshot;
      AdvancedNowhere(world, config, start, log);
      AdvancingFrom(start.deposits, rows);
      var at := NowUnix();
      var k := 0;
      while k < |rows|
        invariant 0 <= k <= |rows|
        invariant Valid() && old(now) <= now
        invariant Advanced(world, config, start, log, db.Contents(), db.commits)
        invariant Mirrors(db.Contents(), node.chain) && Advancing(start.deposits, db.deposits, rows, k)
        invariant db.artifacts == start.artifacts
        decreases |rows| - k
      {
        ghost var s, sofar := db.Contents(), db.commits;
        AdvancingRow(start.deposits, s.deposits, rows, k);
        AdvanceRow(rows[k].0, at);
        AdvancingOn(start.deposits, s, db.Contents(), rows, k, node);
        AdvancedTransitive(world, config, start, log, s, sofar, db.Contents(), db.commits);
        k := k + 1;
      }
      AllAdvanced(start.deposits, db.deposits, rows, node, config);
    }

    /** The claim commitment frozen with a promotion. */
    method BuildArtifact(d: Deposit) returns (artifact: Artifact)
      requires Valid()
      modifies this`now
      ensures ClaimIntact(world.sha, d, artifact) && Configured(config, d, artifact)
      ensures Valid() && old(now) <= artifact.at <= now
    {
      hide Sound;
      var message := BuildDepositClaim(
        Claim(config.version, config.program, config.epoch, d.txid, d.vout, d.amount, d.recipient, config.mint));
      var at := NowUnix();
      artifact := Artifact(message[..], db.sha(message[..]), config.version, config.epoch, config.program, config.mint, at);
    }

    /** One confirming row against the node's answers and the caps. */
    method PromoteRow(node: Node, id: nat) returns (ok: bool)
      requires Valid() && Mirrors(db.Contents(), node.chain)
      requires id < |db.deposits| && db.deposits[id].state == Confirming
      modifies this`now, db
      ensures Stepped() && Mirrors(db.Contents(), node.chain)
      ensures Evaluated(old(db.deposits), db.deposits, id, node, config, ok, old(now), now)
      ensures node.reliable ==> ok
    {
      hide Inv, Sound, Mirrors, Committed, RowsKept, Advanced, Enabled, OneRowMoved, Next, Performs, DepositClaimMessage, ReadySum;
      ghost var s := db.Contents();
      AdvancedNowhere(world, config, s, db.commits);
      ActiveOnBranch(world, s, node, id, now);
      var d := db.deposits[id];
      var depth := |node.chain| - 1 - d.height + 1;
      if depth < config.confirmationDepth {
        return true;
      }
      var unspent := GetTxOut(node, d.txid, d.vout);
      if unspent.Err? {
        return false;
      }
      ok := true;
      if !unspent.value {
        var at := NowUnix();
        ghost var a := MarkSpent(id, at);
        SpentEnabled(world, s, id, at);
        MoveRow(id, Failed, at, Some("vault_output_spent"), None, a);
        MovedRow(s, db.Contents(), id, Failed, node.chain);
        return;
      }
      if config.maxDeposit.Some? && d.amount > config.maxDeposit.value {
        return;
      }
      var checkedAt := NowUnix();
      if config.window.Some? {
        var sum := db.ReadyAmountSumSince(checkedAt - config.window.value.seconds);
        if SaturatingAdd(sum, d.amount) > config.window.value.cap {
          assert !FitsCap(config.window, db.deposits, d.amount, checkedAt);
          assert WindowFull(config, db.deposits, d, old(now), now);
          return;
        }
      }
      var artifact := BuildArtifact(d);
      var at := NowUnix();
      ghost var a := Promote(id, at, artifact, checkedAt);
      PromoteEnabled(world, s, id, at, artifact, checkedAt);
      MoveRow(id, ReadyForSignature, at, None, Some(artifact), a);
      MovedRow(s, db.Contents(), id, ReadyForSignature, node.chain);
    }

    method PromoteConfirming(node: Node) returns (ok: bool)
      requires Valid() && Mirrors(db.Contents(), node.chain) && NoneIn(db.deposits, Candidate)
      modifies this`now, db
      ensures Stepped() && Justified(old(db.deposits), db.deposits, node, config)
      ensures Mirrors(db.Contents(), node.chain) && NoneIn(db.deposits, Candidate)
      ensures ok ==> NoneOverdue(old(db.deposits), db.deposits, node, config, old(now), now)
      ensures OnlyEvaluated(old(db.deposits), db.deposits, node, config, ok, old(now), now)
      ensures node.reliable ==> ok
    {
      var rows := db.CandidatesByState(Confirming);
      hide Inv, Sound, Mirrors, Committed, Promotable, RowsKept, Advanced, Promoting, Evaluated, NoneIn, NoneOverdue, OnlyEvaluated;
      hide Justified;
      ghost var start, log := db.Contents(), db.commits;
      assert Snapshot(start.deposits, rows, Confirming);
      hide Snapshot;
      AdvancedNowhere(world, config, start, log);
      ghost var from := now;
      PromotingFrom(start.deposits, rows, node, config, from);
      var k := 0;
      ok := true;
      while ok && k < |rows|
        invariant 0 <= k <= |rows| && (ok || !node.reliable)
        invariant Valid() && old(now) <= now
        invariant Advanced(world, config, start, log, db.Contents(), db.commits)
        invariant Mirrors(db.Contents(), node.chain)
        invariant Promoting(start.deposits, db.deposits, rows, k, ok, node, config, from, now)
        decreases |rows| - k
      {
        ghost var s, sofar := db.Contents(), db.commits;
        ghost var mid := now;
        PromotingRow(start.deposits, s.deposits, rows, k, node, config, from, mid);
        ok := PromoteRow(node, rows[k].0);
        PromotingOn(start.deposits, s.deposits, db.deposits, rows, k, ok, node, config, from, mid, now);
        AdvancedTransitive(world, config, start, log, s, sofar, db.Contents(), db.commits);
        k := k + 1;
      }
      AllEvaluated(start.deposits, db.deposits, rows, k, ok, node, config, from, now);
      EvaluatedIsJustified(start.deposits, db.deposits, node, config, ok, from, now);
    }

    method RollBackTo(node: Node, tip: Tip, fork: int, hash: Hash32) returns (orphaned: nat)
      requires Valid() && IsChain(world.tree, node.chain) && db.tip == Some(tip)
      requires ForksAt(db.Contents(), node.chain, tip.height, fork) && hash == node.chain[fork]
      modifies this`now, db
      ensures Stepped() && Justified(old(db.deposits), db.deposits, node, config)
      ensures Mirrors(db.Contents(), node.chain[..fork + 1]) && NoneTimed(old(db.deposits), db.deposits)
      ensures orphaned == |DE.AboveIds(old(db.deposits), fork)|
    {
      hide Inv, Sound, Mirrors, Committed, Justified, IsChain, RowsKept, Rollback;
      var at := NowUnix();
      AdvancedNowhere(world, config, db.Contents(), db.commits);
      RollbackStep(world, db.Contents(), node, config, fork, now, at);
      DE.OrphanLogExactly(db.deposits, fork, at);
      orphaned := db.RollbackReorg(Tip(fork, hash), tip, at);
    }

    method IndexForward(node: Node, start: int) returns (indexed: int, ok: bool)
      requires Valid() && node.tree == world.tree && IsChain(world.tree, node.chain)
      requires 0 <= start <= |node.chain| && Mirrors(db.Contents(), node.chain[..start])
      modifies this`now, db
      ensures Stepped() && Justified(old(db.deposits), db.deposits, node, config)
      ensures NoneTimed(old(db.deposits), db.deposits)
      ensures ok ==> Mirrors(db.Contents(), node.chain) && indexed == |node.chain| - start
      ensures node.reliable ==> ok
    {
      hide Inv, Sound, Mirrors, Committed, Justified, IsChain, RowsKept, Advanced;
      hide NoneTimed;
      SameTimes(db.deposits);
      ghost var first, log := db.Contents(), db.commits;
      AdvancedNowhere(world, config, first, log);
      NothingChanged(db.deposits, node, config);
      var height := start;
      indexed, ok := 0, true;
      while ok && height < |node.chain|
        invariant start <= height <= |node.chain| && (ok || !node.reliable) && indexed == height - start
        invariant Valid() && old(now) <= now
        invariant Advanced(world, config, first, log, db.Contents(), db.commits)
        invariant Justified(first.deposits, db.deposits, node, config) && NoneTimed(first.deposits, db.deposits)
        invariant ok ==> Mirrors(db.Contents(), node.chain[..height])
        decreases |node.chain| - height, ok
      {
        ghost var s, sofar := db.Contents(), db.commits;
        ok := IndexBlock(node, height);
        AdvancedTransitive(world, config, first, log, s, sofar, db.Contents(), db.commits);
        JustifiedOn(world, first.deposits, s, sofar, db.Contents(), db.commits, node, config);
        NoneTimedTransitive(first.deposits, s.deposits, db.deposits);
        if ok {
          height, indexed := height + 1, indexed + 1;
        }
      }
      assert height == |node.chain| ==> node.chain[..height] == node.chain;
    }

    /** The three steps after the fork is settled. */
    method CatchUp(node: Node, start: int) returns (indexed: int, ok: bool)
      requires Valid() && node.tree == world.tree && IsChain(world.tree, node.chain)
      requires 0 <= start <= |node.chain| && Mirrors(db.Contents(), node.chain[..start])
      modifies this`now, db
      ensures Stepped() && Justified(old(db.deposits), db.deposits, node, config)
      ensures ok ==> CaughtUp(old(db.deposits), db.Contents(), node, config, old(now), now) && indexed == |node.chain| - start
      ensures node.reliable ==> ok
    {
      hide Inv, Sound, Mirrors, Committed, Justified, IsChain, RowsKept, Advanced, NoneIn, NoneOverdue, NoneTimed, OnlyEvaluated;
      ghost var from := now;
      ghost var s, a := db.Contents(), db.commits;
      indexed, ok := IndexForward(node, start);
      if !ok {
        return;
      }
      ghost var v, b := db.Contents(), db.commits;
      AdvanceNewCandidates(node);
      AdvancedTransitive(world, config, s, a, v, b, db.Contents(), db.commits);
      JustifiedOn(world, s.deposits, v, b, db.Contents(), db.commits, node, config);
      AdvancingTimesNone(v.deposits);
      NoneTimedTransitive(s.deposits, v.deposits, db.deposits);
      v, b := db.Contents(), db.commits;
      ghost var mid := now;
      ok := PromoteConfirming(node);
      SameRowCount(v.deposits, db.deposits, node, config, ok, mid, now);
      if ok {
        OverdueFromTheStart(s.deposits, v.deposits, db.deposits, node, config, mid, now, from);
      }
      AdvancedTransitive(world, config, s, a, v, b, db.Contents(), db.commits);
      JustifiedOn(world, s.deposits, v, b, db.Contents(), db.commits, node, config);
    }

    /** One tick. Whatever the node answers and wherever it fails, every commit
        made satisfies the store's invariants, no row is lost and none changes
        state without its reason; a finished tick mirrors the node's branch; the indexer halts, writing nothing,
        exactly when the fork is too deep, and then stays halted. */
    method Tick(node: Node) returns (outcome: TickOutcome)
      requires Valid() && node.tree == world.tree && IsChain(world.tree, node.chain)
      modifies this, db
      ensures Stepped() && Justified(old(db.deposits), db.deposits, node, config)
      ensures outcome.Progressed? ==>
                && CaughtUp(old(db.deposits), db.Contents(), node, config, old(now), now)
                && Reported(old(db.Contents()), node.chain, outcome)
      ensures halted <==> outcome.HaltedAt?
      ensures old(halted) ==> halted
      ensures outcome.HaltedAt? ==>
                && db.Contents() == old(db.Contents()) && db.commits == old(db.commits)
                && outcome.attempted == config.maxReorgDepth + 1
      ensures outcome.HaltedAt? && !old(halted) ==> DeepFork(old(db.Contents()), node.chain, config.maxReorgDepth)
      ensures !old(halted) && node.reliable && ReachesTip(old(db.Contents()), node.chain) ==>
                && (outcome.HaltedAt? <==> DeepFork(old(db.Contents()), node.chain, config.maxReorgDepth))
                && !outcome.Unavailable?
    {
      hide Inv, Sound, Mirrors, Committed, Justified, IsChain, RowsKept, Advanced, CaughtUp, NoneTimed;
      ghost var from := now;
      SameTimes(db.deposits);
      ghost var s, a := db.Contents(), db.commits;
      AdvancedNowhere(world, config, s, a);
      NothingChanged(db.deposits, node, config);
      if halted {
        return HaltedAt(config.maxReorgDepth + 1);
      }
      var answered := CallSucceeds(node);
      if !answered {
        return Unavailable;
      }
      var start, reorg := 0, None;
      if db.tip.Some? {
        TipNotNegative(world, s, now);
        var tip := db.tip.value;
        var found := FindForkPoint(node, tip.height);
        if found.Err? {
          return Unavailable;
        }
        if found.value == None {
          halted := true;
          return HaltedAt(config.maxReorgDepth + 1);
        }
        var fork := found.value.value;
        start := fork + 1;
        if fork == tip.height {
          AgreesAtTip(world, s, node, now);
        } else {
          var hash := GetBlockHash(node, fork);
          if hash.Err? {
            return Unavailable;
          }
          var orphaned := RollBackTo(node, tip, fork, hash.value);
          reorg := Some(ReorgSummary(fork, tip.height, orphaned));
        }
      } else {
        EmptyMirrors(world, s, node, now);
      }
      ghost var v, b, mid := db.Contents(), db.commits, now;
      assert NoneTimed(s.deposits, v.deposits);
      var indexed, ok := CatchUp(node, start);
      if ok {
        RowsNotLost(world, config, v, b, db.Contents(), db.commits);
        CaughtUpFromTheStart(s.deposits, v.deposits, db.Contents(), node, config, mid, now, from);
      }
      AdvancedTransitive(world, config, s, a, v, b, db.Contents(), db.commits);
      JustifiedOn(world, s.deposits, v, b, db.Contents(), db.commits, node, config);
      outcome := if ok then Progressed(indexed, reorg) else Unavailable;
    }
  }

  /** What a finished tick leaves: the index is the node's branch, no row is
      left unadvanced, and every waiting row has its reason. */
  ghost predicate CaughtUp(before: seq<Deposit>, s: State, node: Node, cfg: Config, from: int, to: int) {
    Mirrors(s, node.chain) && NoneIn(s.deposits, Candidate) && NoneOverdue(before, s.deposits, node, cfg, from, to)
  }

  lemma SameTimes(deposits: seq<Deposit>)
    ensures NoneTimed(deposits, deposits)
  {
  }

  lemma CaughtUpFromTheStart(
      before: seq<Deposit>, mid: seq<Deposit>, s: State, node: Node, cfg: Config, from: int, to: int, from': int)
    requires CaughtUp(mid, s, node, cfg, from, to) && NoneTimed(before, mid) && |mid| <= |s.deposits| && from' <= from
    ensures CaughtUp(before, s, node, cfg, from', to)
  {
    hide Mirrors, NoneIn;
    OverdueFromTheStart(before, mid, s.deposits, node, cfg, from, to, from');
  }

  /** The summary tells the truth: a reorganisation is reported exactly when
      the recorded tip was not on the node's branch, with its fork point. */
  ghost predicate Reported(s: State, chain: seq<Hash32>, outcome: TickOutcome)
    requires outcome.Progressed?
  {
    match s.tip
    case None => outcome.reorg == None && outcome.indexed == |chain|
    case Some(tip) =>
      if Agrees(s, chain, tip.height) then
        outcome.reorg == None && outcome.indexed == |chain| - (tip.height + 1)
      else
        && outcome.reorg.Some?
        && var r := outcome.reorg.value;
        && r.oldTip == tip.height && ForksAt(s, chain, tip.height, r.fork)
        && r.orphaned == |DE.AboveIds(s.deposits, r.fork)| && outcome.indexed == |chain| - (r.fork + 1)
  }

  lemma TipNotNegative(w: World, s: State, now: int)
    requires Sound(w, s, now) && s.tip.Some?
    ensures s.tip.value.height >= 0
  {
    SoundChain(w, s, now);
  }

  lemma JustifiedOn(
      w: World, before: seq<Deposit>, s: State, a: seq<State>, u: State, b: seq<State>, node: Node, cfg: Config)
    requires Advanced(w, cfg, s, a, u, b) && |before| <= |s.deposits|
    requires Justified(before, s.deposits, node, cfg) && Justified(s.deposits, u.deposits, node, cfg)
    ensures Justified(before, u.deposits, node, cfg)
  {
    hide Justified, RowsKept;
    JustifiedTransitive(before, s.deposits, u.deposits, node, cfg);
  }

  lemma ActiveOnBranch(w: World, s: State, node: Node, id: nat, now: int)
    requires Sound(w, s, now) && Mirrors(s, node.chain) && id < |s.deposits| && IsActive(s.deposits[id].state)
    ensures var d := s.deposits[id]; 0 <= d.height < |node.chain| && node.chain[d.height] == d.blockHash
  {
    StagedRow(w, s, id, now);
  }

  lemma SpentEnabled(w: World, s: State, id: nat, at: int)
    requires id < |s.deposits| && s.deposits[id].state == Confirming
    ensures Enabled(w, s, MarkSpent(id, at)) && Performs(MarkSpent(id, at), id, Failed, at, Some("vault_output_spent"), None)
  {
  }

  lemma PromoteEnabled(w: World, s: State, id: nat, at: int, a: Artifact, checkedAt: int)
    requires id < |s.deposits| && s.deposits[id].state == Confirming && checkedAt <= at
    requires ClaimIntact(w.sha, s.deposits[id], a) && FitsCap(w.window, s.deposits, s.deposits[id].amount, checkedAt)
    ensures Enabled(w, s, Promote(id, at, a, checkedAt))
    ensures Performs(Promote(id, at, a, checkedAt), id, ReadyForSignature, at, None, Some(a))
  {
    hide ClaimIntact, FitsCap;
  }

  lemma MovedRow(s: State, u: State, id: nat, to: DepositState, chain: seq<Hash32>)
    requires OneRowMoved(s, u, id, to)
    ensures u.deposits[id].state == to && u.deposits == s.deposits[id := u.deposits[id]]
    ensures SameRecord(s.deposits[id], u.deposits[id])
    ensures to == Failed ==> u.deposits[id].failure == Some("vault_output_spent")
    ensures Mirrors(s, chain) ==> Mirrors(u, chain)
  {
  }

  /** What the evaluation of a confirming row may make of it, on the table it
      saw: waiting for a reason, failed and spent, or ready and promotable. */
  ghost predicate Verdict(seen: seq<Deposit>, d: Deposit, e: Deposit, node: Node, cfg: Config, ok: bool, from: int, to: int) {
    && SameRecord(d, e)
    && match e.state
       case Confirming => ok ==> MayWait(node, cfg, seen, e, from, to)
       case Failed => Spent(node, cfg, e) && e.failure == Some("vault_output_spent")
       case ReadyForSignature => Promotable(node, cfg, e)
       case _ => false
  }

  ghost predicate Evaluated(
      before: seq<Deposit>, after: seq<Deposit>, id: nat, node: Node, cfg: Config, ok: bool, from: int, to: int)
  {
    && id < |before| && |after| == |before| && after == before[id := after[id]]
    && Verdict(before, before[id], after[id], node, cfg, ok, from, to)
  }

  /** The first `k` rows of the snapshot are evaluated; all else is as it was. */
  ghost predicate Promoting(
      start: seq<Deposit>, cur: seq<Deposit>, rows: seq<(nat, Deposit)>, k: nat, ok: bool, node: Node, cfg: Config,
      from: int, to: int)
  {
    && Snapshot(start, rows, Confirming) && k <= |rows| && |cur| == |start|
    && (forall id :: 0 <= id < |start| && (forall j :: 0 <= j < k ==> rows[j].0 != id) ==> cur[id] == start[id])
    && (forall j :: 0 <= j < k ==>
          Verdict(SeenBy(start, cur, rows[j].0), start[rows[j].0], cur[rows[j].0], node, cfg, ok, from, to))
  }

  lemma LongerWait(
      seen: seq<Deposit>, d: Deposit, e: Deposit, node: Node, cfg: Config, ok: bool, from: int, to: int, from': int, to': int)
    requires Verdict(seen, d, e, node, cfg, ok, from, to) && from' <= from && to <= to'
    ensures Verdict(seen, d, e, node, cfg, ok, from', to') && Verdict(seen, d, e, node, cfg, false, from', to')
  {
    hide SameRecord, Spent, Promotable, DeepEnough, FitsCap;
    if WindowFull(cfg, seen, e, from, to) {
      var t :| from <= t <= to && !FitsCap(cfg.window, seen, e.amount, t);
      assert WindowFull(cfg, seen, e, from', to');
    }
  }

  lemma PromotingFrom(start: seq<Deposit>, rows: seq<(nat, Deposit)>, node: Node, cfg: Config, from: int)
    requires Snapshot(start, rows, Confirming)
    ensures Promoting(start, start, rows, 0, true, node, cfg, from, from)
  {
  }

  lemma PromotingRow(
      start: seq<Deposit>, cur: seq<Deposit>, rows: seq<(nat, Deposit)>, k: nat, node: Node, cfg: Config, from: int, to: int)
    requires Promoting(start, cur, rows, k, true, node, cfg, from, to) && k < |rows|
    ensures rows[k].0 < |cur| && cur[rows[k].0] == start[rows[k].0] && cur[rows[k].0].state == Confirming
    ensures cur == SeenBy(start, cur, rows[k].0)
  {
    hide Verdict;
    forall id | rows[k].0 <= id < |start| ensures cur[id] == start[id] {
    }
  }

  lemma PromotingOn(
      start: seq<Deposit>, before: seq<Deposit>, after: seq<Deposit>, rows: seq<(nat, Deposit)>, k: nat, ok: bool,
      node: Node, cfg: Config, from: int, mid: int, to: int)
    requires Promoting(start, before, rows, k, true, node, cfg, from, mid) && k < |rows| && from <= mid <= to
    requires Evaluated(before, after, rows[k].0, node, cfg, ok, mid, to)
    ensures Promoting(start, after, rows, k + 1, ok, node, cfg, from, to)
  {
    PromotingRow(start, before, rows, k, node, cfg, from, mid);
    hide Verdict;
    var last := rows[k].0;
    assert SeenBy(start, after, last) == before;
    forall j | 0 <= j < k + 1
      ensures Verdict(SeenBy(start, after, rows[j].0), start[rows[j].0], after[rows[j].0], node, cfg, ok, from, to)
    {
      var id := rows[j].0;
      if j < k {
        assert id < last && after[id] == before[id];
        assert SeenBy(start, after, id) == SeenBy(start, before, id);
        LongerWait(SeenBy(start, before, id), start[id], before[id], node, cfg, true, from, mid, from, to);
      } else {
        LongerWait(before, before[id], after[id], node, cfg, ok, mid, to, from, to);
      }
    }
    forall id | 0 <= id < |start| && (forall j :: 0 <= j < k + 1 ==> rows[j].0 != id) ensures after[id] == start[id] {
      assert rows[k].0 != id;
    }
  }

  /** Only confirming rows were touched, each as its evaluation may leave it,
      and when no call failed every one of them was evaluated. */
  ghost predicate OnlyEvaluated(
      start: seq<Deposit>, cur: seq<Deposit>, node: Node, cfg: Config, ok: bool, from: int, to: int)
  {
    && |cur| == |start|
    && forall id :: 0 <= id < |start| ==>
         && (cur[id] != start[id] ==> start[id].state == Confirming)
         && (start[id].state == Confirming && (ok || cur[id] != start[id]) ==>
               Verdict(SeenBy(start, cur, id), start[id], cur[id], node, cfg, ok, from, to))
  }

  lemma AllEvaluated(
      start: seq<Deposit>, cur: seq<Deposit>, rows: seq<(nat, Deposit)>, k: nat, ok: bool, node: Node, cfg: Config,
      from: int, to: int)
    requires Promoting(start, cur, rows, k, ok, node, cfg, from, to) && (ok ==> k == |rows|)
    ensures OnlyEvaluated(start, cur, node, cfg, ok, from, to)
  {
    hide Verdict;
    forall id | 0 <= id < |cur|
      ensures cur[id] != start[id] ==> start[id].state == Confirming
      ensures start[id].state == Confirming && (ok || cur[id] != start[id]) ==>
                Verdict(SeenBy(start, cur, id), start[id], cur[id], node, cfg, ok, from, to)
    {
      if j :| 0 <= j < k && rows[j].0 == id {
        assert Verdict(SeenBy(start, cur, rows[j].0), start[rows[j].0], cur[rows[j].0], node, cfg, ok, from, to);
      } else if start[id].state == Confirming {
        var j :| 0 <= j < |rows| && rows[j] == (id, start[id]);
      }
    }
  }

  lemma EvaluatedIsJustified(
      start: seq<Deposit>, cur: seq<Deposit>, node: Node, cfg: Config, ok: bool, from: int, to: int)
    requires OnlyEvaluated(start, cur, node, cfg, ok, from, to)
    ensures Justified(start, cur, node, cfg)
    ensures NoneIn(start, Candidate) ==> NoneIn(cur, Candidate)
    ensures ok ==> NoneOverdue(start, cur, node, cfg, from, to)
  {
    hide Promotable, Spent, SameRecord, Unclaimable, OnBranch, MayWait;
    forall id | 0 <= id < |cur|
      ensures cur[id] == start[id] || Verdict(SeenBy(start, cur, id), start[id], cur[id], node, cfg, ok, from, to)
    {
    }
    if ok {
      forall id | 0 <= id < |cur| && cur[id].state == Confirming
        ensures MayWait(node, cfg, SeenBy(start, cur, id), cur[id], from, to)
      {
        assert Verdict(SeenBy(start, cur, id), start[id], cur[id], node, cfg, ok, from, to);
      }
    }
  }

  /** Before promotion no ready time was set, so the window looks the same
      counted from the start of the tick. */
  lemma OverdueFromTheStart(
      before: seq<Deposit>, mid: seq<Deposit>, after: seq<Deposit>, node: Node, cfg: Config, from: int, to: int, from': int)
    requires NoneTimed(before, mid) && |mid| <= |after| && from' <= from
    requires NoneOverdue(mid, after, node, cfg, from, to)
    ensures NoneOverdue(before, after, node, cfg, from', to)
  {
    forall id | 0 <= id < |after| && after[id].state == Confirming
      ensures MayWait(node, cfg, SeenBy(before, after, id), after[id], from', to)
    {
      hide DeepEnough;
      var seen, seen' := SeenBy(mid, after, id), SeenBy(before, after, id);
      assert MayWait(node, cfg, seen, after[id], from, to);
      if WindowFull(cfg, seen, after[id], from, to) {
        var t :| from <= t <= to && !FitsCap(cfg.window, seen, after[id].amount, t);
        SeenAlike(before, mid, after, id);
        SumDependsOnReadiness(seen', seen, t - cfg.window.value.seconds);
        assert !FitsCap(cfg.window, seen', after[id].amount, t);
        assert WindowFull(cfg, seen', after[id], from', to);
      }
    }
  }

  lemma SeenAlike(before: seq<Deposit>, mid: seq<Deposit>, after: seq<Deposit>, id: nat)
    requires NoneTimed(before, mid) && |mid| <= |after| && id <= |after|
    ensures NoneTimed(SeenBy(before, after, id), SeenBy(mid, after, id))
  {
  }

  /** The store call that carries out a tick's row action. */
  predicate Performs(a: Action, id: nat, to: DepositState, at: int, reason: Option<string>, artifact: Option<Artifact>) {
    match a
    case Advance(k, t) => (id, to, at, reason, artifact) == (k, Confirming, t, None, None)
    case MarkSpent(k, t) => (id, to, at, reason, artifact) == (k, Failed, t, Some("vault_output_spent"), None)
    case Promote(k, t, art, _) => (id, to, at, reason, artifact) == (k, ReadyForSignature, t, None, Some(art))
    case _ => false
  }

  lemma PerformedIsNext(
      w: World, s: State, a: Action, id: nat, to: DepositState, at: int, reason: Option<string>, artifact: Option<Artifact>)
    requires Performs(a, id, to, at, reason, artifact)
    ensures Transition(s, id, to, at, reason, artifact).0 == Next(w, s, a)
    ensures (a.Advance? && to == Confirming) || (a.MarkSpent? && to == Failed) || (a.Promote? && to == ReadyForSignature)
    ensures a.id == id
  {
    hide Transition;
  }

  /** The snapshot of the rows in one state. */
  predicate Snapshot(deposits: seq<Deposit>, rows: seq<(nat, Deposit)>, state: DepositState) {
    && (forall k :: 0 <= k < |rows| ==>
          rows[k].0 < |deposits| && rows[k].1 == deposits[rows[k].0] && rows[k].1.state == state)
    && (forall j, k :: 0 <= j < k < |rows| ==> rows[j].0 < rows[k].0)
    && (forall id :: 0 <= id < |deposits| && deposits[id].state == state ==> (id, deposits[id]) in rows)
  }

  /** The first `k` rows of the snapshot are confirming; all else is as it was. */
  ghost predicate Advancing(start: seq<Deposit>, cur: seq<Deposit>, rows: seq<(nat, Deposit)>, k: nat) {
    && Snapshot(start, rows, Candidate) && k <= |rows| && |cur| == |start|
    && (forall j :: 0 <= j < k ==> cur[rows[j].0] == start[rows[j].0].(state := Confirming))
    && (forall id :: 0 <= id < |start| && (forall j :: 0 <= j < k ==> rows[j].0 != id) ==> cur[id] == start[id])
  }

  lemma AdvancingFrom(start: seq<Deposit>, rows: seq<(nat, Deposit)>)
    requires Snapshot(start, rows, Candidate)
    ensures Advancing(start, start, rows, 0)
  {
  }

  lemma AdvancingRow(start: seq<Deposit>, cur: seq<Deposit>, rows: seq<(nat, Deposit)>, k: nat)
    requires Advancing(start, cur, rows, k) && k < |rows|
    ensures rows[k].0 < |cur| && cur[rows[k].0].state == Candidate
  {
    assert cur[rows[k].0] == start[rows[k].0];
  }

  lemma AdvancingOn(start: seq<Deposit>, s: State, u: State, rows: seq<(nat, Deposit)>, k: nat, node: Node)
    requires Advancing(start, s.deposits, rows, k) && k < |rows| && OneRowMoved(s, u, rows[k].0, Confirming)
    ensures Advancing(start, u.deposits, rows, k + 1) && u.artifacts == s.artifacts
    ensures Mirrors(s, node.chain) ==> Mirrors(u, node.chain)
  {
    forall id | 0 <= id < |start| && (forall j :: 0 <= j < k + 1 ==> rows[j].0 != id) ensures u.deposits[id] == start[id] {
      assert rows[k].0 != id;
    }
  }

  /** Every candidate confirming, every other row as it was. */
  function AllConfirming(deposits: seq<Deposit>): (r: seq<Deposit>)
    ensures |r| == |deposits|
  {
    seq(|deposits|, k requires 0 <= k < |deposits| =>
      if deposits[k].state == Candidate then deposits[k].(state := Confirming) else deposits[k])
  }

  lemma AdvancingTimesNone(deposits: seq<Deposit>)
    ensures NoneTimed(deposits, AllConfirming(deposits))
  {
  }

  lemma SameRowCount(start: seq<Deposit>, cur: seq<Deposit>, node: Node, cfg: Config, ok: bool, from: int, to: int)
    requires OnlyEvaluated(start, cur, node, cfg, ok, from, to)
    ensures |cur| == |start|
  {
  }

  lemma AllAdvanced(start: seq<Deposit>, cur: seq<Deposit>, rows: seq<(nat, Deposit)>, node: Node, cfg: Config)
    requires Advancing(start, cur, rows, |rows|)
    ensures NoneIn(cur, Candidate) && Justified(start, cur, node, cfg) && cur == AllConfirming(start)
  {
    assert forall j :: 0 <= j < |rows| ==> start[rows[j].0].state == Candidate;
    forall id | 0 <= id < |cur| ensures cur[id] == AllConfirming(start)[id] {
      if start[id].state == Candidate {
        var j :| 0 <= j < |rows| && rows[j] == (id, start[id]);
      }
    }
  }

  lemma NothingChanged(deposits: seq<Deposit>, node: Node, cfg: Config)
    ensures Justified(deposits, deposits, node, cfg)
  {
  }
}
