/** What each deposit operation leaves in each column, what the log says of it,
    and what becomes of a deposit whose block leaves the branch. */
module DepositEffects {
  import opened Bytes
  import opened Wrappers
  import opened Sums
  import opened DepositScan
  import opened BlockTree
  import opened DepositStore
  import opened DepositInvariants
  import opened DepositRuns
  import SignedMessages

  // --------------------------------------------------------------- ingestion

  /** The row a candidate starts as, column by column. */
  predicate RowRecords(d: Deposit, c: NewCandidate) {
    && d.txid == c.txid && d.vout == c.vout && d.amount == c.amount && d.recipient == c.recipient
    && d.height == c.height && d.blockHash == c.blockHash && d.discoveredAt == c.at
    && d.state == c.initial && d.failure == c.failure && d.readyAt == None && d.signature == None
  }

  /** The row stands for a vault output of the block. */
  ghost predicate StandsFor(t: Tree, cfg: ScanConfig, height: int, b: Block, d: Deposit, c: NewCandidate, tx: Tx, o: TxOut) {
    RowRecords(d, c) && Reports(t.txs(b.hash), Place(height, b.hash, b.at), cfg, c, tx, o) && SameText(o.script, cfg.vaultHex)
  }

  ghost predicate IsSourced(t: Tree, cfg: ScanConfig, height: int, b: Block, d: Deposit) {
    exists c, tx, o :: StandsFor(t, cfg, height, b, d, c, tx, o)
  }

  ghost predicate AllRecorded(t: Tree, cfg: ScanConfig, b: Block, deposits: seq<Deposit>) {
    forall tx, o :: tx in t.txs(b.hash) && o in tx.outs && SameText(o.script, cfg.vaultHex) ==>
      HasKey(deposits, tx.txid, o.n, b.hash)
  }

  /** Indexing a block records the block and its hash as the tip, adds rows only
      for its vault outputs, each saying what its output says and when it was
      found, and leaves every vault output of the block with a row. */
  lemma IngestsExactly(t: Tree, cfg: ScanConfig, s: State, height: int, b: Block)
    requires Inv(t, cfg, s) && Extends(t, s, height, b)
    ensures var u := IngestBlock(s, height, b, CandidatesOf(t, cfg, height, b));
            && u.blocks == s.blocks[height := b] && u.tip == Some(Tip(height, b.hash))
            && u.artifacts == s.artifacts && s.deposits <= u.deposits
            && (height == 0 ==> u.deposits == s.deposits)
            && (forall id :: |s.deposits| <= id < |u.deposits| ==> IsSourced(t, cfg, height, b, u.deposits[id]))
            && (height > 0 ==> AllRecorded(t, cfg, b, u.deposits))
  {
    hide Inv, IngestBlock, CandidatesOf, AllRecorded, IsSourced, Extends;
    IngestKeeps(t, cfg, s, height, b);
    var cs, u := CandidatesOf(t, cfg, height, b), IngestBlock(s, height, b, CandidatesOf(t, cfg, height, b));
    if height > 0 {
      IngestComplete(t, cfg, u, height, b);
    }
    forall id | |s.deposits| <= id < |u.deposits| ensures height != 0 && IsSourced(t, cfg, height, b, u.deposits[id]) {
      assert StartsAs(u.deposits[id], cs);
      StartSourced(t, cfg, height, b, u.deposits[id]);
    }
    if |u.deposits| > |s.deposits| {
      assert StartsAs(u.deposits[|s.deposits|], cs);
      StartSourced(t, cfg, height, b, u.deposits[|s.deposits|]);
    }
  }

  lemma StartSourced(t: Tree, cfg: ScanConfig, height: int, b: Block, d: Deposit)
    requires StartsAs(d, CandidatesOf(t, cfg, height, b))
    ensures height != 0
    ensures IsSourced(t, cfg, height, b, d)
  {
    hide SameText, Reports, BlockCandidates;
    var c :| c in CandidatesOf(t, cfg, height, b) && d == FreshRow(c);
    var p := Place(height, b.hash, b.at);
    ScanFindsExactly(t.txs(b.hash), p, cfg, c);
    var tx, o :| Reports(t.txs(b.hash), p, cfg, c, tx, o) && SameText(o.script, cfg.vaultHex);
    assert StandsFor(t, cfg, height, b, d, c, tx, o);
  }

  lemma IngestComplete(t: Tree, cfg: ScanConfig, u: State, height: int, b: Block)
    requires Inv(t, cfg, u) && height > 0 && height in u.blocks && u.blocks[height] == b
    ensures AllRecorded(t, cfg, b, u.deposits)
  {
    assert Complete(t, cfg, u.blocks, u.deposits);
    hide Inv, SameText, PaysVault, HasKey;
    forall tx, o | tx in t.txs(b.hash) && o in tx.outs && SameText(o.script, cfg.vaultHex)
      ensures HasKey(u.deposits, tx.txid, o.n, b.hash)
    {
      PaysVaultLetters(o, cfg.vaultHex);
      assert Pays(tx, o, cfg);
    }
  }

  // ---------------------------------------------------------------- rollback

  /** The row is above the fork and still on its way to a mint. */
  predicate Above(d: Deposit, fork: int) {
    d.height > fork
    && (d.state == Candidate || d.state == Confirming || d.state == ReadyForSignature || d.state == Submitted)
  }

  function AboveIds(deposits: seq<Deposit>, fork: int): (ids: set<nat>) {
    set id: nat | id < |deposits| && Above(deposits[id], fork)
  }

  /** The row that says deposit `id` was orphaned, and what it was before. */
  predicate OrphanRowFor(deposits: seq<Deposit>, row: LogRow, at: int) {
    && row.id < |deposits| && row.from == Some(deposits[row.id].state) && row.to == Orphaned && row.at == at
    && row.reason == Some("reorg_rollback") && row.blockHash == deposits[row.id].blockHash
    && row.expected == None && row.recomputed == None && row.differing == None
  }

  /** One log row for each deposit orphaned, in the order of their ids. */
  ghost predicate LogsOrphans(deposits: seq<Deposit>, ids: set<nat>, rows: seq<LogRow>, at: int) {
    && |rows| == |ids|
    && (forall k :: 0 <= k < |rows| ==> OrphanRowFor(deposits, rows[k], at) && rows[k].id in ids)
    && (forall j, k :: 0 <= j < k < |rows| ==> rows[j].id < rows[k].id)
    && (forall id :: id in ids ==> Mentions(rows, id))
  }

  predicate Mentions(rows: seq<LogRow>, id: nat) { exists k :: 0 <= k < |rows| && rows[k].id == id }

  lemma LogsLater(deposits: seq<Deposit>, d: Deposit, ids: set<nat>, rows: seq<LogRow>, at: int)
    requires LogsOrphans(deposits, ids, rows, at)
    ensures LogsOrphans(deposits + [d], ids, rows, at)
  {
  }

  lemma LogsOneMore(deposits: seq<Deposit>, d: Deposit, ids: set<nat>, rows: seq<LogRow>, at: int, row: LogRow)
    requires LogsOrphans(deposits, ids, rows, at) && row.id == |deposits| && OrphanRowFor(deposits + [d], row, at)
    ensures LogsOrphans(deposits + [d], ids + {row.id}, rows + [row], at)
  {
    LogsLater(deposits, d, ids, rows, at);
    hide OrphanRowFor;
    assert forall k :: 0 <= k < |rows| ==> rows[k].id < |deposits| by { IdsInRange(deposits, ids, rows, at); }
    forall id | id in ids + {row.id} ensures Mentions(rows + [row], id) {
      if id in ids {
        assert Mentions(rows, id);
        var k :| 0 <= k < |rows| && rows[k].id == id;
        assert (rows + [row])[k].id == id;
      } else {
        assert (rows + [row])[|rows|].id == id;
      }
    }
  }

  lemma IdsInRange(deposits: seq<Deposit>, ids: set<nat>, rows: seq<LogRow>, at: int)
    requires LogsOrphans(deposits, ids, rows, at)
    ensures forall k :: 0 <= k < |rows| ==> rows[k].id < |deposits|
    ensures |deposits| !in ids
  {
    assert forall k :: 0 <= k < |rows| ==> OrphanRowFor(deposits, rows[k], at);
    assert |deposits| in ids ==> Mentions(rows, |deposits|);
  }

  lemma AboveGrow(before: seq<Deposit>, d: Deposit, fork: int)
    ensures AboveIds(before + [d], fork) == if Above(d, fork) then AboveIds(before, fork) + {|before|} else AboveIds(before, fork)
  {
  }

  lemma OrphanLogGrows(before: seq<Deposit>, d: Deposit, fork: int, at: int)
    ensures OrphanLog(before + [d], fork, at) ==
              if Above(d, fork) then OrphanLog(before, fork, at) + [OrphanMove(|before|, d, at)] else OrphanLog(before, fork, at)
    ensures OrphanRowFor(before + [d], OrphanMove(|before|, d, at), at)
  {
    assert (before + [d])[..|before|] == before;
  }

  function OrphanMove(id: nat, d: Deposit, at: int): (row: LogRow) {
    LogRow(id, Some(d.state), Orphaned, at, Some("reorg_rollback"), d.blockHash, None, None, None)
  }

  lemma NoOrphans(fork: int, at: int)
    ensures LogsOrphans([], AboveIds([], fork), OrphanLog([], fork, at), at)
  {
    assert AboveIds([], fork) == {};
  }

  lemma {:induction false} OrphanLogExactly(deposits: seq<Deposit>, fork: int, at: int)
    ensures LogsOrphans(deposits, AboveIds(deposits, fork), OrphanLog(deposits, fork, at), at)
  {
    hide LogsOrphans, AboveIds, OrphanLog, OrphanRowFor, Above;
    if deposits == [] {
      NoOrphans(fork, at);
    } else {
      var last := |deposits| - 1;
      var before, d := deposits[..last], deposits[last];
      OrphanLogExactly(before, fork, at);
      assert deposits == before + [d];
      AboveGrow(before, d, fork);
      OrphanLogGrows(before, d, fork, at);
      if Above(d, fork) {
        LogsOneMore(before, d, AboveIds(before, fork), OrphanLog(before, fork, at), at, OrphanMove(last, d, at));
      } else {
        LogsLater(before, d, AboveIds(before, fork), OrphanLog(before, fork, at), at);
      }
    }
  }

  /** A rollback orphans exactly the rows above the fork that are on their way
      to a mint, forgets exactly the blocks above it, and puts both on record. */
  lemma RollsBackExactly(s: State, newTip: Tip, oldTip: Tip, at: int)
    ensures var u := Rollback(s, newTip, oldTip, at);
            && |u.deposits| == |s.deposits| && u.artifacts == s.artifacts && u.tip == Some(newTip)
            && (forall id :: 0 <= id < |s.deposits| ==>
                  u.deposits[id] == if Above(s.deposits[id], newTip.height) then s.deposits[id].(state := Orphaned) else s.deposits[id])
            && (forall h :: h in u.blocks <==> h in s.blocks && h <= newTip.height)
            && (forall h :: h in u.blocks ==> u.blocks[h] == s.blocks[h])
            && |u.reorgs| == |s.reorgs| + 1 && s.reorgs <= u.reorgs
            && var e := u.reorgs[|s.reorgs|];
            && e.at == at && e.fork == newTip.height && e.oldTip == oldTip && e.newTip == newTip
            && e.orphaned == |AboveIds(s.deposits, newTip.height)|
            && s.log <= u.log && LogsOrphans(s.deposits, AboveIds(s.deposits, newTip.height), u.log[|s.log|..], at)
  {
    OrphanLogExactly(s.deposits, newTip.height, at);
    hide OrphanLog;
    assert Rollback(s, newTip, oldTip, at).log[|s.log|..] == OrphanLog(s.deposits, newTip.height, at);
    assert |OrphanLog(s.deposits, newTip.height, at)| == |AboveIds(s.deposits, newTip.height)|;
    hide LogsOrphans;
  }

  // --------------------------------------------------------------- lifecycle

  /** The log row of a plain move. */
  predicate MoveRow(row: LogRow, id: nat, from: DepositState, to: DepositState, at: int, reason: Option<string>, hash: Hash32) {
    && row.id == id && row.from == Some(from) && row.to == to && row.at == at && row.reason == reason && row.blockHash == hash
    && row.expected == None && row.recomputed == None && row.differing == None
  }

  /** Only row `id` changed, and one log row was added. */
  predicate OneRowLogged(s: State, u: State, id: nat) {
    && id < |s.deposits| && |u.deposits| == |s.deposits|
    && (forall k :: 0 <= k < |s.deposits| && k != id ==> u.deposits[k] == s.deposits[k])
    && u.blocks == s.blocks && u.tip == s.tip && u.reorgs == s.reorgs
    && |u.log| == |s.log| + 1 && s.log <= u.log
  }

  /** A transition writes the state; the ready time if it makes the row ready;
      the reason if there is one; the claim if there is one and none yet. */
  lemma MovesExactly(s: State, id: nat, to: DepositState, at: int, reason: Option<string>, artifact: Option<Artifact>)
    ensures var (u, e) := Transition(s, id, to, at, reason, artifact);
            && (e == None <==> id < |s.deposits| && (artifact.Some? ==> id !in s.artifacts))
            && (e.Some? ==> u == s)
            && (e == None ==>
                  && OneRowLogged(s, u, id) && SameRecord(s.deposits[id], u.deposits[id])
                  && var d, v := s.deposits[id], u.deposits[id];
                  && v.state == to && v.signature == d.signature
                  && v.readyAt == (if to == ReadyForSignature then Some(at) else d.readyAt)
                  && v.failure == (if reason.Some? then reason else d.failure)
                  && u.artifacts.Keys == s.artifacts.Keys + (if artifact.Some? then {id} else {})
                  && ArtifactsKept(s.artifacts, u.artifacts) && (artifact.Some? ==> u.artifacts[id] == artifact.value)
                  && MoveRow(u.log[|s.log|], id, d.state, to, at, reason, d.blockHash))
  {
  }

  /** A submission writes the state and the signature, whatever the state was. */
  lemma SubmitsExactly(s: State, id: nat, signature: string, at: int)
    ensures var (u, e) := MarkSubmitted(s, id, signature, at);
            && (e == None <==> id < |s.deposits|) && (e.Some? ==> u == s)
            && (e == None ==>
                  && OneRowLogged(s, u, id) && u.artifacts == s.artifacts
                  && var d, v := s.deposits[id], u.deposits[id];
                  && SameRecord(d, v) && v.state == Submitted && v.signature == Some(signature)
                  && v.readyAt == d.readyAt && v.failure == d.failure
                  && MoveRow(u.log[|s.log|], id, d.state, Submitted, at, Some(signature), d.blockHash))
  {
  }

  /** Recovery moves exactly a halted row, with a note, to one of two states. */
  lemma RecoversExactly(s: State, id: nat, to: DepositState, note: string, at: int)
    ensures var (u, e) := OperatorClear(s, id, to, note, at);
            && (e == None <==>
                  && id < |s.deposits| && s.deposits[id].state == IntegrityHalted && to in {ReadyForSignature, Failed}
                  && exists k :: 0 <= k < |note| && note[k] !in {' ', '\t', '\n', '\r'})
            && (e.Some? ==> u == s)
            && (e == None ==>
                  && OneRowLogged(s, u, id) && u.artifacts == s.artifacts
                  && var d, v := s.deposits[id], u.deposits[id];
                  && SameRecord(d, v) && v.state == to && v.failure == Some(note)
                  && v.readyAt == d.readyAt && v.signature == d.signature
                  && MoveRow(u.log[|s.log|], id, IntegrityHalted, to, at, Some("operator_recovery: " + note), d.blockHash))
  {
    if !Blank(note) {
      var c :| c in note && c !in {' ', '\t', '\n', '\r'};
      var k :| 0 <= k < |note| && note[k] == c;
    } else {
      assert forall k :: 0 <= k < |note| ==> note[k] in note;
    }
  }

  /** Which error a refused recovery answers with, by what is wrong first. */
  lemma RecoveryRefusals(s: State, id: nat, to: DepositState, note: string, at: int)
    ensures var e := OperatorClear(s, id, to, note, at).1;
            var says := exists k :: 0 <= k < |note| && note[k] !in {' ', '\t', '\n', '\r'};
            var target := to == ReadyForSignature || to == Failed;
            && (e == Some(OperatorNoteRequired) <==> !says)
            && (e == Some(InvalidRecoveryTarget) <==> says && !target)
            && (e == Some(MissingClaimArtifact) <==> says && target && id >= |s.deposits|)
            && (e == Some(NotIntegrityHalted) <==>
                  says && target && id < |s.deposits| && s.deposits[id].state != IntegrityHalted)
  {
    if !Blank(note) {
      var c :| c in note && c !in {' ', '\t', '\n', '\r'};
      var k :| 0 <= k < |note| && note[k] == c;
    } else {
      assert forall k :: 0 <= k < |note| ==> note[k] in note;
    }
  }

  /** A claim that does not pass is halted, and the log says for which of the two
      disagreements, between which hashes and in which fields. */
  lemma ClaimHaltsExactly(sha: seq<byte> -> Hash32, s: State, id: nat, at: int)
    requires id < |s.deposits| && id in s.artifacts && !ClaimIntact(sha, s.deposits[id], s.artifacts[id])
    ensures var u := VerifyAndLoadClaim(sha, s, id, at).0;
            && OneRowLogged(s, u, id) && u.artifacts == s.artifacts
            && var d, v, a, row := s.deposits[id], u.deposits[id], s.artifacts[id], u.log[|s.log|];
            var recomputed := SignedMessages.DepositClaimMessage(
              SignedMessages.Claim(a.version, a.program, a.epoch, d.txid, d.vout, d.amount, d.recipient, a.mint));
            && SameRecord(d, v) && v.state == IntegrityHalted && v.readyAt == d.readyAt && v.signature == d.signature
            && v.failure == Some(if sha(a.message) != a.hash then "claim_artifact_self_inconsistent"
                                 else "claim_message_recomputed_mismatch")
            && row.id == id && row.from == Some(d.state) && row.to == IntegrityHalted && row.at == at
            && row.reason == v.failure && row.blockHash == d.blockHash
            && row.expected == Some(a.hash) && row.recomputed == Some(sha(recomputed))
            && row.differing == SignedMessages.DiffClaimFields(recomputed, a.message)
  {
    hide SignedMessages.DepositClaimMessage, SignedMessages.DiffClaimFields;
  }

  // ------------------------------------------------------------------ totals

  function ReadyAmounts(deposits: seq<Deposit>, since: int): (m: map<nat, nat>) {
    map id: nat | id < |deposits| && deposits[id].readyAt.Some? && deposits[id].readyAt.value >= since :: deposits[id].amount
  }

  lemma ReadyAmountsGrow(deposits: seq<Deposit>, since: int, last: nat)
    requires |deposits| == last + 1
    ensures last !in ReadyAmounts(deposits[..last], since)
    ensures ReadyAmounts(deposits, since) ==
              if deposits[last].readyAt.Some? && deposits[last].readyAt.value >= since then ReadyAmounts(deposits[..last], since)[last := deposits[last].amount]
              else ReadyAmounts(deposits[..last], since)
  {
  }

  /** The window's total is the sum over the rows made ready in it. */
  lemma {:induction false} ReadySumExactly(deposits: seq<Deposit>, since: int)
    ensures ReadySum(deposits, since) == Sum(ReadyAmounts(deposits, since))
  {
    hide Sum, ReadyAmounts;
    if deposits == [] {
      assert ReadyAmounts(deposits, since) == map[] by { ReadyAmountsEmpty(since); }
      EmptySum<nat>();
    } else {
      var last: nat := |deposits| - 1;
      ReadySumExactly(deposits[..last], since);
      ReadyAmountsGrow(deposits, since, last);
      if deposits[last].readyAt.Some? && deposits[last].readyAt.value >= since {
        Inserted<nat>(ReadyAmounts(deposits[..last], since), last, deposits[last].amount);
      }
    }
  }

  lemma ReadyAmountsEmpty(since: int)
    ensures ReadyAmounts([], since) == map[]
  {
  }

  function MintedAmounts(deposits: seq<Deposit>): (m: map<nat, nat>) {
    map id: nat | id < |deposits| && deposits[id].state == Minted :: deposits[id].amount
  }

  lemma MintedAmountsGrow(deposits: seq<Deposit>, last: nat)
    requires |deposits| == last + 1
    ensures last !in MintedAmounts(deposits[..last])
    ensures MintedAmounts(deposits) ==
              if deposits[last].state == Minted then MintedAmounts(deposits[..last])[last := deposits[last].amount]
              else MintedAmounts(deposits[..last])
  {
  }

  /** The minted total is the sum over the minted rows. */
  lemma {:induction false} MintedTotalExactly(deposits: seq<Deposit>)
    ensures MintedSum(deposits) == Sum(MintedAmounts(deposits))
  {
    hide Sum, MintedAmounts;
    if deposits == [] {
      assert MintedAmounts(deposits) == map[] by { MintedAmountsEmpty(); }
      EmptySum<nat>();
    } else {
      var last: nat := |deposits| - 1;
      MintedTotalExactly(deposits[..last]);
      MintedAmountsGrow(deposits, last);
      if deposits[last].state == Minted {
        Inserted<nat>(MintedAmounts(deposits[..last]), last, deposits[last].amount);
      }
    }
  }

  lemma MintedAmountsEmpty()
    ensures MintedAmounts([]) == map[]
  {
  }

  // --------------------------------------------------- a block that comes back

  predicate IsOrphan(s: State, id: nat) { id < |s.deposits| && s.deposits[id].state == Orphaned }

  lemma OrphanStays(w: World, s: State, a: Action, id: nat)
    requires Inv(w.tree, w.scan, s) && Enabled(w, s, a) && IsOrphan(s, id)
    ensures IsOrphan(Next(w, s, a), id)
  {
    if TouchesOneRow(a) {
      hide Next, Enabled, Inv;
      RowFrame(w, s, a);
    } else if a.Ingest? {
      hide Inv, IngestBlock, CandidatesOf;
      IngestKeeps(w.tree, w.scan, s, a.height, a.block);
    } else {
      hide Inv, OrphanLog;
    }
  }

  /** An orphaned row stays orphaned in every run of the relayer's rules. */
  lemma {:induction false} OrphanedIsFinal(w: World, s: State, as_: seq<Action>, id: nat)
    requires Inv(w.tree, w.scan, s) && EnabledRun(w, s, as_) && IsOrphan(s, id)
    ensures IsOrphan(Run(w, s, as_), id)
    decreases |as_|
  {
    hide Inv, Next, Enabled, IsOrphan;
    if as_ != [] {
      OrphanStays(w, s, as_[0], id);
      NextKeeps(w, s, as_[0]);
      OrphanedIsFinal(w, Next(w, s, as_[0]), as_[1..], id);
    }
  }

  /** So a deposit is lost to the relayer when its block leaves the branch and
      comes back: the block is indexed again, but the one row its output has
      there is the orphaned one, and no run makes another. */
  lemma ReturnedBlockStaysOrphaned(w: World, s: State, as_: seq<Action>, id: nat)
    requires Inv(w.tree, w.scan, s) && EnabledRun(w, s, as_) && IsOrphan(s, id)
    ensures var d, u := s.deposits[id], Run(w, s, as_);
            && IsOrphan(u, id) && SameRecord(d, u.deposits[id])
            && OnlyKeyed(u.deposits, id, d.txid, d.vout, d.blockHash)
  {
    hide EnabledRun, Run;
    OrphanedIsFinal(w, s, as_, id);
    RunKeeps(w, s, as_);
    var d, u := s.deposits[id], Run(w, s, as_);
    assert SameRecord(d, u.deposits[id]);
    DepositRuns.OnlyRow(w.tree, w.scan, u, id, d.txid, d.vout, d.blockHash);
  }

  // ----------------------------------------------------------------- the log

  /** The state the log last says deposit `id` moved to. */
  function LastTo(log: seq<LogRow>, id: nat): (r: Option<DepositState>) {
    if log == [] then None else
      var row := log[|log| - 1];
      if row.id == id then Some(row.to) else LastTo(log[..|log| - 1], id)
  }

  function StateOf(deposits: seq<Deposit>, id: nat): (r: Option<DepositState>) {
    if id < |deposits| then Some(deposits[id].state) else None
  }

  ghost predicate LogTells(s: State) { forall id: nat :: LastTo(s.log, id) == StateOf(s.deposits, id) }

  lemma LastToMore(log: seq<LogRow>, row: LogRow, id: nat)
    ensures LastTo(log + [row], id) == if row.id == id then Some(row.to) else LastTo(log, id)
  {
    assert (log + [row])[..|log|] == log;
  }

  /** One more row that names a row's new state keeps the log faithful. */
  lemma OneMoveTells(s: State, u: State, id: nat)
    requires LogTells(s) && |u.log| == |s.log| + 1 && s.log <= u.log && u.log[|s.log|].id == id
    requires id < |u.deposits| && u.log[|s.log|].to == u.deposits[id].state
    requires forall k: nat :: k != id ==> StateOf(u.deposits, k) == StateOf(s.deposits, k)
    ensures LogTells(u)
  {
    var row := u.log[|s.log|];
    assert u.log == s.log + [row];
    forall k: nat ensures LastTo(u.log, k) == StateOf(u.deposits, k) {
      LastToMore(s.log, row, k);
      assert LastTo(s.log, k) == StateOf(s.deposits, k);
    }
  }

  /** Scanning an output keeps the log faithful if and only if its row is new,
      or is still in the state the scan would start it in: the log row is
      written although the insertion is ignored. */
  lemma ScanTellsExactly(s: State, c: NewCandidate)
    requires LogTells(s)
    ensures LogTells(InsertCandidate(s, c)) <==>
              !HasKey(s.deposits, c.txid, c.vout, c.blockHash) || s.deposits[IdOf(s.deposits, c)].state == c.initial
  {
    var id, u := IdOf(s.deposits, c), InsertCandidate(s, c);
    var row := Plain(id, None, c.initial, c.at, c.failure, c.blockHash);
    hide HasKey, IdOf, LogTells;
    if id == |s.deposits| || s.deposits[id].state == c.initial {
      OneMoveTells(s, u, id);
    } else {
      LastToMore(s.log, row, id);
      NotTold(u, id);
    }
  }

  lemma NotTold(u: State, id: nat)
    requires LastTo(u.log, id) != StateOf(u.deposits, id)
    ensures !LogTells(u)
  {
  }

  predicate SameKey(a: NewCandidate, b: NewCandidate) { a.txid == b.txid && a.vout == b.vout && a.blockHash == b.blockHash }

  /** None of the candidates has a row yet, and no two are one output. */
  predicate Newcomers(deposits: seq<Deposit>, cs: seq<NewCandidate>) {
    && (forall k :: 0 <= k < |cs| ==> !HasKey(deposits, cs[k].txid, cs[k].vout, cs[k].blockHash))
    && forall j, k :: 0 <= j < k < |cs| ==> !SameKey(cs[j], cs[k])
  }

  predicate Holds(deposits: seq<Deposit>, c: NewCandidate) { HasKey(deposits, c.txid, c.vout, c.blockHash) }

  lemma OneKeyAdded(s: State, x: NewCandidate, c: NewCandidate)
    ensures Holds(InsertCandidate(s, x).deposits, c) ==> Holds(s.deposits, c) || SameKey(x, c)
  {
    hide IdOf;
    var u := InsertCandidate(s, x);
    if Holds(u.deposits, c) {
      var id :| 0 <= id < |u.deposits| && Keyed(u.deposits[id], c.txid, c.vout, c.blockHash);
      assert id < |s.deposits| ==> Keyed(s.deposits[id], c.txid, c.vout, c.blockHash);
    }
  }

  lemma {:induction false} KeysAdded(s: State, cs: seq<NewCandidate>, c: NewCandidate)
    requires !Holds(s.deposits, c) && forall k :: 0 <= k < |cs| ==> !SameKey(cs[k], c)
    ensures !Holds(InsertAll(s, cs).deposits, c)
  {
    hide Holds, InsertCandidate;
    if cs != [] {
      var n := |cs| - 1;
      KeysAdded(s, cs[..n], c);
      OneKeyAdded(InsertAll(s, cs[..n]), cs[n], c);
    }
  }

  lemma {:induction false} InsertAllTells(s: State, cs: seq<NewCandidate>)
    requires LogTells(s) && Newcomers(s.deposits, cs)
    ensures LogTells(InsertAll(s, cs))
  {
    hide LogTells, InsertCandidate, SameKey;
    if cs != [] {
      var n := |cs| - 1;
      InsertAllTells(s, cs[..n]);
      KeysAdded(s, cs[..n], cs[n]);
      ScanTellsExactly(InsertAll(s, cs[..n]), cs[n]);
    }
  }

  lemma MentionsMore(rows: seq<LogRow>, row: LogRow, id: nat)
    ensures Mentions(rows + [row], id) <==> row.id == id || Mentions(rows, id)
  {
    if k :| 0 <= k < |rows| && rows[k].id == id {
      assert (rows + [row])[k].id == id;
    }
    if row.id == id {
      assert (rows + [row])[|rows|].id == id;
    }
  }

  lemma {:induction false} OrphansTell(log: seq<LogRow>, rows: seq<LogRow>, id: nat)
    requires forall k :: 0 <= k < |rows| ==> rows[k].to == Orphaned
    ensures LastTo(log + rows, id) == if Mentions(rows, id) then Some(Orphaned) else LastTo(log, id)
  {
    hide Mentions, LastTo;
    if rows == [] {
      assert log + rows == log;
      assert !Mentions(rows, id) by { NoMentions(id); }
    } else {
      var n := |rows| - 1;
      OrphansTell(log, rows[..n], id);
      LastToMore(log + rows[..n], rows[n], id);
      MentionsMore(rows[..n], rows[n], id);
      assert rows == rows[..n] + [rows[n]] && log + rows == log + rows[..n] + [rows[n]];
    }
  }

  lemma NoMentions(id: nat)
    ensures !Mentions([], id)
  {
  }

  lemma RollbackTells(s: State, newTip: Tip, oldTip: Tip, at: int)
    requires LogTells(s)
    ensures LogTells(Rollback(s, newTip, oldTip, at))
  {
    RollsBackExactly(s, newTip, oldTip, at);
    var u := Rollback(s, newTip, oldTip, at);
    var ids, rows := AboveIds(s.deposits, newTip.height), u.log[|s.log|..];
    assert u.log == s.log + rows;
    hide Rollback;
    forall id: nat ensures LastTo(u.log, id) == StateOf(u.deposits, id) {
      OrphansTell(s.log, rows, id);
      assert LastTo(s.log, id) == StateOf(s.deposits, id);
      assert Mentions(rows, id) <==> id in ids by {
        if k :| 0 <= k < |rows| && rows[k].id == id {
          assert rows[k].id in ids;
        }
      }
    }
  }

  lemma RowActionTells(w: World, s: State, a: Action)
    requires Enabled(w, s, a) && TouchesOneRow(a) && LogTells(s)
    ensures LogTells(Next(w, s, a))
  {
    hide LogTells, ClaimIntact, FitsCap, SignedMessages.DepositClaimMessage, SignedMessages.DiffClaimFields, Blank;
    var u := Next(w, s, a);
    if u != s {
      OneMoveTells(s, u, a.id);
    }
  }

  predicate NewBlocksOnly(w: World, s: State, as_: seq<Action>)
    decreases |as_|
  {
    as_ != [] ==>
      && (as_[0].Ingest? ==> Newcomers(s.deposits, CandidatesOf(w.tree, w.scan, as_[0].height, as_[0].block)))
      && NewBlocksOnly(w, Next(w, s, as_[0]), as_[1..])
  }

  /** As long as no block comes back, the log is faithful: in every reachable
      state the last row about a deposit names the state it is in. */
  lemma {:induction false} LogTellsState(w: World, s: State, as_: seq<Action>)
    requires EnabledRun(w, s, as_) && NewBlocksOnly(w, s, as_) && LogTells(s)
    ensures LogTells(Run(w, s, as_))
    decreases |as_|
  {
    if as_ != [] {
      var a, u := as_[0], Next(w, s, as_[0]);
      hide LogTells, Newcomers, Enabled, CandidatesOf;
      if TouchesOneRow(a) {
        hide Next;
        RowActionTells(w, s, a);
      } else if a.Ingest? {
        assert LogTells(WithBlock(s, a.height, a.block)) by { SameLogTells(s, WithBlock(s, a.height, a.block)); }
        InsertAllTells(WithBlock(s, a.height, a.block), CandidatesOf(w.tree, w.scan, a.height, a.block));
      } else if u != s {
        RollbackTells(s, Tip(a.fork, s.blocks[a.fork].hash), s.tip.value, a.at);
      }
      hide Next;
      LogTellsState(w, u, as_[1..]);
    }
  }

  lemma SameLogTells(s: State, u: State)
    requires LogTells(s) && u.log == s.log && u.deposits == s.deposits
    ensures LogTells(u)
  {
  }

  /** When a block does come back, the log reports its outputs as freshly
      found while their rows keep the state the rollback left them in. */
  lemma ReturnedRowIsMisreported(s: State, c: NewCandidate)
    requires HasKey(s.deposits, c.txid, c.vout, c.blockHash)
    ensures var id, u := IdOf(s.deposits, c), InsertCandidate(s, c);
            id < |s.deposits| && u.deposits == s.deposits && LastTo(u.log, id) == Some(c.initial)
  {
    hide HasKey;
    var id := IdOf(s.deposits, c);
    LastToMore(s.log, Plain(id, None, c.initial, c.at, c.failure, c.blockHash), id);
  }
}
