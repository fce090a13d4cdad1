/** The deposit store as the relayer runs it: tables updated in place, one
    transaction a call. */
module DepositDb {
  import opened Bytes
  import opened Wrappers
  import opened DepositScan
  import opened DepositStore
  import opened SignedMessages

  class Db {
    const sha: seq<byte> -> Hash32
    var blocks: map<int, Block>
    var tip: Option<Tip>
    var deposits: seq<Deposit>
    var artifacts: map<nat, Artifact>
    var log: seq<LogRow>
    var reorgs: seq<ReorgEvent>
    /** Every state a transaction of this store has committed, in order. */
    ghost var commits: seq<State>

    ghost function Contents(): State
      reads this
    {
      State(blocks, tip, deposits, artifacts, log, reorgs)
    }

    constructor (sha: seq<byte> -> Hash32)
      ensures this.sha == sha && Contents() == EMPTY && commits == []
    {
      this.sha := sha;
      blocks, tip, deposits, artifacts, log, reorgs := map[], None, [], map[], [], [];
      commits := [];
    }

    method IngestBlock(height: int, b: Block, cs: seq<NewCandidate>)
      modifies this
      ensures Contents() == DepositStore.IngestBlock(old(Contents()), height, b, cs)
      ensures commits == old(commits) + [Contents()]
    {
      if height !in blocks && !HashIndexed(blocks, b.hash) {
        blocks := blocks[height := b];
      }
      tip := Some(Tip(height, b.hash));
      ghost var start := Contents();
      assert start == WithBlock(old(Contents()), height, b);
      for k := 0 to |cs|
        invariant Contents() == InsertAll(start, cs[..k]) && commits == old(commits)
      {
        var c := cs[k];
        var id := IdOf(deposits, c);
        if id == |deposits| {
          deposits := deposits + [FreshRow(c)];
        }
        log := log + [Plain(id, None, c.initial, c.at, c.failure, c.blockHash)];
        assert cs[..k + 1][..k] == cs[..k];
      }
      assert cs[..|cs|] == cs;
      commits := commits + [Contents()];
    }

    method RollbackReorg(newTip: Tip, oldTip: Tip, at: int) returns (orphaned: nat)
      modifies this
      ensures Contents() == Rollback(old(Contents()), newTip, oldTip, at)
      ensures commits == old(commits) + [Contents()]
      ensures orphaned == |OrphanLog(old(deposits), newTip.height, at)|
    {
      var rows: seq<LogRow> := [];
      var table := deposits;
      for k := 0 to |deposits|
        invariant |table| == |deposits| && rows == OrphanLog(deposits[..k], newTip.height, at)
        invariant forall j :: 0 <= j < |table| ==> table[j] == if j < k then OrphanRow(deposits[j], newTip.height) else deposits[j]
      {
        var d := deposits[k];
        if RolledBack(d, newTip.height) {
          table := table[k := d.(state := Orphaned)];
          rows := rows + [Plain(k, Some(d.state), Orphaned, at, Some("reorg_rollback"), d.blockHash)];
        }
        assert deposits[..k + 1][..k] == deposits[..k];
      }
      assert deposits[..|deposits|] == deposits;
      assert table == OrphanAll(deposits, newTip.height);
      orphaned := |rows|;
      blocks := map h | h in blocks && h <= newTip.height :: blocks[h];
      deposits, log, tip := table, log + rows, Some(newTip);
      reorgs := reorgs + [ReorgEvent(at, newTip.height, oldTip, newTip, orphaned)];
      commits := commits + [Contents()];
    }

    method TransitionState(id: nat, to: DepositState, at: int, reason: Option<string>, artifact: Option<Artifact>)
      returns (e: Option<DbError>)
      modifies this
      ensures (Contents(), e) == Transition(old(Contents()), id, to, at, reason, artifact)
      ensures commits == old(commits) + [Contents()]
    {
      if id >= |deposits| {
        e := Some(NoSuchRow);
      } else if artifact.Some? && id in artifacts {
        e := Some(ConstraintViolation);
      } else {
        var d := deposits[id];
        var d' := d.(state := to);
        if to == ReadyForSignature { d' := d'.(readyAt := Some(at)); }
        if reason.Some? { d' := d'.(failure := reason); }
        deposits := deposits[id := d'];
        if artifact.Some? { artifacts := artifacts[id := artifact.value]; }
        log := log + [Plain(id, Some(d.state), to, at, reason, d.blockHash)];
        e := None;
      }
      commits := commits + [Contents()];
    }

    method MarkSubmitted(id: nat, signature: string, at: int) returns (e: Option<DbError>)
      modifies this
      ensures (Contents(), e) == DepositStore.MarkSubmitted(old(Contents()), id, signature, at)
      ensures commits == old(commits) + [Contents()]
    {
      if id >= |deposits| {
        e := Some(NoSuchRow);
      } else {
        var d := deposits[id];
        deposits := deposits[id := d.(state := Submitted, signature := Some(signature))];
        log := log + [Plain(id, Some(d.state), Submitted, at, Some(signature), d.blockHash)];
        e := None;
      }
      commits := commits + [Contents()];
    }

    method MarkMinted(id: nat, at: int) returns (e: Option<DbError>)
      modifies this
      ensures (Contents(), e) == DepositStore.MarkMinted(old(Contents()), id, at)
      ensures commits == old(commits) + [Contents()]
    {
      e := TransitionState(id, Minted, at, None, None);
    }

    method OperatorClearHalt(id: nat, to: DepositState, note: string, at: int) returns (e: Option<DbError>)
      modifies this
      ensures (Contents(), e) == OperatorClear(old(Contents()), id, to, note, at)
      ensures commits == old(commits) + [Contents()]
    {
      if Blank(note) {
        e := Some(OperatorNoteRequired);
      } else if to != ReadyForSignature && to != Failed {
        e := Some(InvalidRecoveryTarget);
      } else if id >= |deposits| {
        e := Some(MissingClaimArtifact);
      } else if deposits[id].state != IntegrityHalted {
        e := Some(NotIntegrityHalted);
      } else {
        var d := deposits[id];
        deposits := deposits[id := d.(state := to, failure := Some(note))];
        log := log + [Plain(id, Some(IntegrityHalted), to, at, Some("operator_recovery: " + note), d.blockHash)];
        e := None;
      }
      commits := commits + [Contents()];
    }

    /** The reload-and-recompute safeguard. */
    method VerifyAndLoadSignable(id: nat, at: int) returns (r: Result<SignableClaim, DbError>)
      modifies this
      ensures (Contents(), r) == VerifyAndLoadClaim(sha, old(Contents()), id, at)
      ensures commits == old(commits) + [Contents()]
    {
      if id >= |deposits| || id !in artifacts {
        r := Err(MissingClaimArtifact);
        commits := commits + [Contents()];
        return;
      }
      var d, a := deposits[id], artifacts[id];
      var selfConsistent := sha(a.message) == a.hash;
      var built := BuildDepositClaim(ClaimOf(d, a));
      var recomputed := built[..];
      if !selfConsistent || recomputed != a.message {
        var reason := if !selfConsistent then "claim_artifact_self_inconsistent" else "claim_message_recomputed_mismatch";
        deposits := deposits[id := d.(state := IntegrityHalted, failure := Some(reason))];
        log := log + [LogRow(id, Some(d.state), IntegrityHalted, at, Some(reason), d.blockHash,
                             Some(a.hash), Some(sha(recomputed)), DiffClaimFields(recomputed, a.message))];
        r := Err(MessageIntegrityMismatch);
      } else {
        r := Ok(SignableClaim(id, ClaimOf(d, a), recomputed));
      }
      commits := commits + [Contents()];
    }

    /** A snapshot of the rows in one state. */
    method CandidatesByState(state: DepositState) returns (rows: seq<(nat, Deposit)>)
      ensures forall k :: 0 <= k < |rows| ==>
                rows[k].0 < |deposits| && rows[k].1 == deposits[rows[k].0] && rows[k].1.state == state
      ensures forall j, k :: 0 <= j < k < |rows| ==> rows[j].0 < rows[k].0
      ensures forall id :: 0 <= id < |deposits| && deposits[id].state == state ==> (id, deposits[id]) in rows
    {
      rows := [];
      for id := 0 to |deposits|
        invariant forall k :: 0 <= k < |rows| ==>
                    rows[k].0 < id && rows[k].1 == deposits[rows[k].0] && rows[k].1.state == state
        invariant forall j, k :: 0 <= j < k < |rows| ==> rows[j].0 < rows[k].0
        invariant forall j :: 0 <= j < id && deposits[j].state == state ==> (j, deposits[j]) in rows
      {
        if deposits[id].state == state {
          rows := rows + [(id, deposits[id])];
        }
      }
    }

    method ReadyAmountSumSince(since: int) returns (sum: nat)
      ensures sum == ReadySum(deposits, since)
    {
      sum := 0;
      for k := 0 to |deposits|
        invariant sum == ReadySum(deposits[..k], since)
      {
        if Ready(deposits[k], since) {
          sum := sum + deposits[k].amount;
        }
        assert deposits[..k + 1][..k] == deposits[..k];
      }
      assert deposits[..|deposits|] == deposits;
    }

    method MintedDepositTotal() returns (sum: nat)
      ensures sum == MintedSum(deposits)
    {
      sum := 0;
      for k := 0 to |deposits|
        invariant sum == MintedSum(deposits[..k])
      {
        if deposits[k].state == Minted {
          sum := sum + deposits[k].amount;
        }
        assert deposits[..k + 1][..k] == deposits[..k];
      }
      assert deposits[..|deposits|] == deposits;
    }
  }
}
