/** The indexed chain and the deposit tables, and what each store operation
    does to them. */
module DepositStore {
  import opened Bytes
  import opened Wrappers
  import opened DepositScan
  import opened SignedMessages

  datatype Block = Block(hash: Hash32, prev: Hash32, at: int)

  datatype Tip = Tip(height: int, hash: Hash32)

  datatype Deposit = Deposit(
    txid: Hash32, vout: u32, amount: u64, recipient: Hash32, height: int, blockHash: Hash32, state: DepositState,
    discoveredAt: int, readyAt: Option<int>, failure: Option<string>, signature: Option<string>)

  /** A frozen claim commitment. */
  datatype Artifact = Artifact(
    message: seq<byte>, hash: Hash32, version: byte, epoch: u64, program: Hash32, mint: Hash32, at: int)

  datatype LogRow = LogRow(
    id: nat, from: Option<DepositState>, to: DepositState, at: int, reason: Option<string>, blockHash: Hash32,
    expected: Option<Hash32>, recomputed: Option<Hash32>, differing: Option<seq<ClaimField>>)

  datatype ReorgEvent = ReorgEvent(at: int, fork: int, oldTip: Tip, newTip: Tip, orphaned: nat)

  /** Deposit rows are never deleted, so a row's id is its position. */
  datatype State = State(
    blocks: map<int, Block>,
    tip: Option<Tip>,
    deposits: seq<Deposit>,
    artifacts: map<nat, Artifact>,
    log: seq<LogRow>,
    reorgs: seq<ReorgEvent>)

  const EMPTY := State(map[], None, [], map[], [], [])

  datatype DbError =
    | NoSuchRow | MissingClaimArtifact | MessageIntegrityMismatch | OperatorNoteRequired
    | InvalidRecoveryTarget | NotIntegrityHalted | ConstraintViolation

  function Plain(id: nat, from: Option<DepositState>, to: DepositState, at: int, reason: Option<string>, hash: Hash32): (r: LogRow) {
    LogRow(id, from, to, at, reason, hash, None, None, None)
  }

  // --------------------------------------------------------------- ingestion

  predicate HasKey(deposits: seq<Deposit>, txid: Hash32, vout: u32, hash: Hash32) {
    exists id :: 0 <= id < |deposits| && Keyed(deposits[id], txid, vout, hash)
  }

  predicate Keyed(d: Deposit, txid: Hash32, vout: u32, hash: Hash32) {
    d.txid == txid && d.vout == vout && d.blockHash == hash
  }

  /** The position of the row with this key, or the next free one. */
  function IdOf(deposits: seq<Deposit>, c: NewCandidate): (id: nat)
    ensures id <= |deposits|
    ensures id < |deposits| ==> Keyed(deposits[id], c.txid, c.vout, c.blockHash)
    ensures id == |deposits| <==> !HasKey(deposits, c.txid, c.vout, c.blockHash)
  {
    if deposits == [] then 0
    else if Keyed(deposits[0], c.txid, c.vout, c.blockHash) then
      0
    else
      var id := IdOf(deposits[1..], c);
      assert HasKey(deposits[1..], c.txid, c.vout, c.blockHash) <==> HasKey(deposits, c.txid, c.vout, c.blockHash) by {
        assert forall k :: 1 <= k < |deposits| ==> deposits[k] == deposits[1..][k - 1];
      }
      id + 1
  }

  function FreshRow(c: NewCandidate): (r: Deposit) {
    Deposit(c.txid, c.vout, c.amount, c.recipient, c.height, c.blockHash, c.initial, c.at, None, c.failure, None)
  }

  /** `INSERT OR IGNORE`, and a log row whether or not anything was inserted. */
  function InsertCandidate(s: State, c: NewCandidate): (t: State) {
    var id := IdOf(s.deposits, c);
    s.(deposits := if id == |s.deposits| then s.deposits + [FreshRow(c)] else s.deposits,
       log := s.log + [Plain(id, None, c.initial, c.at, c.failure, c.blockHash)])
  }

  function InsertAll(s: State, cs: seq<NewCandidate>): (t: State) {
    if cs == [] then s else InsertCandidate(InsertAll(s, cs[..|cs| - 1]), cs[|cs| - 1])
  }

  predicate HashIndexed(blocks: map<int, Block>, hash: Hash32) { exists h :: h in blocks && blocks[h].hash == hash }

  function WithBlock(s: State, height: int, b: Block): (t: State) {
    s.(blocks := if height in s.blocks || HashIndexed(s.blocks, b.hash) then s.blocks else s.blocks[height := b],
       tip := Some(Tip(height, b.hash)))
  }

  function IngestBlock(s: State, height: int, b: Block, cs: seq<NewCandidate>): (t: State) {
    InsertAll(WithBlock(s, height, b), cs)
  }

  // ---------------------------------------------------------------- rollback

  predicate RolledBack(d: Deposit, fork: int) { d.height > fork && IsActive(d.state) }

  function OrphanRow(d: Deposit, fork: int): (r: Deposit) { if RolledBack(d, fork) then d.(state := Orphaned) else d }

  function OrphanAll(deposits: seq<Deposit>, fork: int): (r: seq<Deposit>)
    ensures |r| == |deposits|
  {
    seq(|deposits|, k requires 0 <= k < |deposits| => OrphanRow(deposits[k], fork))
  }

  /** One log row per orphaned deposit, in id order. */
  function OrphanLog(deposits: seq<Deposit>, fork: int, at: int): (rows: seq<LogRow>) {
    if deposits == [] then [] else
      var last := |deposits| - 1;
      var d := deposits[last];
      OrphanLog(deposits[..last], fork, at)
      + (if RolledBack(d, fork) then [Plain(last, Some(d.state), Orphaned, at, Some("reorg_rollback"), d.blockHash)] else [])
  }

  function Rollback(s: State, newTip: Tip, oldTip: Tip, at: int): (t: State) {
    var rows := OrphanLog(s.deposits, newTip.height, at);
    s.(blocks := map h | h in s.blocks && h <= newTip.height :: s.blocks[h],
       tip := Some(newTip),
       deposits := OrphanAll(s.deposits, newTip.height),
       log := s.log + rows,
       reorgs := s.reorgs + [ReorgEvent(at, newTip.height, oldTip, newTip, |rows|)])
  }

  // --------------------------------------------------------------- lifecycle

  function SetState(s: State, id: nat, to: DepositState): (t: State)
    requires id < |s.deposits|
  {
    s.(deposits := s.deposits[id := s.deposits[id].(state := to)])
  }

  function Transition(s: State, id: nat, to: DepositState, at: int, reason: Option<string>, artifact: Option<Artifact>)
    : (r: (State, Option<DbError>))
  {
    if id >= |s.deposits| then (s, Some(NoSuchRow))
    else if artifact.Some? && id in s.artifacts then (s, Some(ConstraintViolation))
    else
      var d := s.deposits[id];
      var d' := d.(state := to, readyAt := if to == ReadyForSignature then Some(at) else d.readyAt,
                   failure := if reason.Some? then reason else d.failure);
      (s.(deposits := s.deposits[id := d'],
          artifacts := if artifact.Some? then s.artifacts[id := artifact.value] else s.artifacts,
          log := s.log + [Plain(id, Some(d.state), to, at, reason, d.blockHash)]),
       None)
  }

  function MarkSubmitted(s: State, id: nat, signature: string, at: int): (r: (State, Option<DbError>)) {
    if id >= |s.deposits| then (s, Some(NoSuchRow)) else
      var d := s.deposits[id];
      (s.(deposits := s.deposits[id := d.(state := Submitted, signature := Some(signature))],
          log := s.log + [Plain(id, Some(d.state), Submitted, at, Some(signature), d.blockHash)]),
       None)
  }

  function MarkMinted(s: State, id: nat, at: int): (r: (State, Option<DbError>)) { Transition(s, id, Minted, at, None, None) }

  predicate Blank(s: string) { forall c :: c in s ==> c in {' ', '\t', '\n', '\r'} }

  function OperatorClear(s: State, id: nat, to: DepositState, note: string, at: int): (r: (State, Option<DbError>)) {
    if Blank(note) then (s, Some(OperatorNoteRequired))
    else if to != ReadyForSignature && to != Failed then (s, Some(InvalidRecoveryTarget))
    else if id >= |s.deposits| then (s, Some(MissingClaimArtifact))
    else if s.deposits[id].state != IntegrityHalted then (s, Some(NotIntegrityHalted))
    else
      var d := s.deposits[id];
      (s.(deposits := s.deposits[id := d.(state := to, failure := Some(note))],
          log := s.log + [Plain(id, Some(IntegrityHalted), to, at, Some("operator_recovery: " + note), d.blockHash)]),
       None)
  }

  // --------------------------------------------------------- the claim guard

  function ClaimOf(d: Deposit, a: Artifact): (r: Claim) {
    Claim(a.version, a.program, a.epoch, d.txid, d.vout, d.amount, d.recipient, a.mint)
  }

  predicate ClaimIntact(sha: seq<byte> -> Hash32, d: Deposit, a: Artifact) {
    sha(a.message) == a.hash && DepositClaimMessage(ClaimOf(d, a)) == a.message
  }

  datatype SignableClaim = SignableClaim(id: nat, claim: Claim, message: seq<byte>)

  /** What is handed out is the row's frozen message, and the claim named beside
      it is the row's own deposit under the terms it was frozen for. */
  predicate Carries(s: State, q: SignableClaim) {
    && q.id < |s.deposits| && q.id in s.artifacts
    && var d, a := s.deposits[q.id], s.artifacts[q.id];
    && q.message == a.message
    && q.claim.txid == d.txid && q.claim.vout == d.vout && q.claim.amount == d.amount && q.claim.recipient == d.recipient
    && q.claim.version == a.version && q.claim.epoch == a.epoch && q.claim.program == a.program && q.claim.mint == a.mint
  }

  /** Reload the row and the frozen commitment, recompute, compare; on any
      disagreement the halt is committed and nothing is handed out. */
  function VerifyAndLoadClaim(sha: seq<byte> -> Hash32, s: State, id: nat, at: int): (r: (State, Result<SignableClaim, DbError>)) {
    if id >= |s.deposits| || id !in s.artifacts then (s, Err(MissingClaimArtifact)) else
      var d, a := s.deposits[id], s.artifacts[id];
      var recomputed := DepositClaimMessage(ClaimOf(d, a));
      if sha(a.message) == a.hash && recomputed == a.message then
        (s, Ok(SignableClaim(id, ClaimOf(d, a), recomputed)))
      else
        var reason := if sha(a.message) != a.hash then "claim_artifact_self_inconsistent" else "claim_message_recomputed_mismatch";
        (s.(deposits := s.deposits[id := d.(state := IntegrityHalted, failure := Some(reason))],
            log := s.log + [LogRow(id, Some(d.state), IntegrityHalted, at, Some(reason), d.blockHash,
                                   Some(a.hash), Some(sha(recomputed)), DiffClaimFields(recomputed, a.message))]),
         Err(MessageIntegrityMismatch))
  }

  /** The claim guard hands out exactly the intact claims, each as it was frozen
      and with nothing written. */
  lemma ClaimGuardReleasesExactly(sha: seq<byte> -> Hash32, s: State, id: nat, at: int)
    ensures var r := VerifyAndLoadClaim(sha, s, id, at);
            && (r.1.Ok? <==> id < |s.deposits| && id in s.artifacts && ClaimIntact(sha, s.deposits[id], s.artifacts[id]))
            && (r.1.Ok? ==>
                  && r.0 == s && r.1.value.id == id && Carries(s, r.1.value)
                  && r.1.value.message == DepositClaimMessage(r.1.value.claim))
            && (r.1.Err? ==> r.1.error == if id < |s.deposits| && id in s.artifacts then MessageIntegrityMismatch else MissingClaimArtifact)
  {
    hide DepositClaimMessage, DiffClaimFields;
  }

  /** Frozen claims stay as they are. */
  predicate ArtifactsKept(before: map<nat, Artifact>, after: map<nat, Artifact>) {
    forall id :: id in before ==> id in after && after[id] == before[id]
  }

  // ------------------------------------------------------------------ totals

  function Ready(d: Deposit, since: int): (r: bool) { d.readyAt.Some? && d.readyAt.value >= since }

  /** The value of every deposit made ready at or after `since`. */
  function ReadySum(deposits: seq<Deposit>, since: int): (r: nat) {
    if deposits == [] then 0 else
      var last := |deposits| - 1;
      ReadySum(deposits[..last], since) + (if Ready(deposits[last], since) then deposits[last].amount else 0)
  }

  function MintedSum(deposits: seq<Deposit>): (r: nat) {
    if deposits == [] then 0 else
      var last := |deposits| - 1;
      MintedSum(deposits[..last]) + (if deposits[last].state == Minted then deposits[last].amount else 0)
  }
}
