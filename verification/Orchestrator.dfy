/** The mint pipeline against a growing set of on-chain claims: whatever runs
    in between its steps, a row is marked minted only if its claim exists, and
    no outpoint is minted twice. */
module Orchestrator {
  import opened Bytes
  import opened Wrappers
  import opened DepositScan
  import opened DepositStore
  import opened DepositInvariants
  import DepositDb

  /** What a claim account's address is derived from. */
  datatype ClaimKey = ClaimKey(txid: Hash32, vout: u32)

  function KeyOf(d: Deposit): ClaimKey { ClaimKey(d.txid, d.vout) }

  /** The claim accounts that exist, and every mint executed, in order. */
  datatype Chain = Chain(claims: set<ClaimKey>, mints: seq<ClaimKey>)

  /** A claim account is created once: executing a mint whose claim exists
      fails and changes nothing. */
  function Execute(c: Chain, key: ClaimKey): Chain {
    if key in c.claims then c else Chain(c.claims + {key}, c.mints + [key])
  }

  ghost predicate MintedOnce(c: Chain) {
    && (forall key :: key in c.claims <==> key in c.mints)
    && (forall j, k :: 0 <= j < k < |c.mints| ==> c.mints[j] != c.mints[k])
  }

  ghost predicate Backed(deposits: seq<Deposit>, claims: set<ClaimKey>) {
    forall id :: 0 <= id < |deposits| && deposits[id].state == Minted ==> KeyOf(deposits[id]) in claims
  }

  // ------------------------------------------------- the interleaved system

  /** How far one worker has come with one row. The row is the snapshot it took. */
  datatype Progress =
    | Idle
    | Took(id: nat, row: Deposit)
    | Looked(id: nat, row: Deposit, claimed: bool)
    | Loaded(id: nat, claim: SignableClaim)
    | Sent(id: nat)

  datatype System = System(db: State, chain: Chain, inFlight: set<SignableClaim>, workers: map<nat, Progress>)

  /** Everything else that writes the deposit tables: indexing, rollback,
      any transition that does not claim a mint, operator recovery. */
  datatype Change =
    | Index(height: int, block: Block, cs: seq<NewCandidate>)
    | RollBack(newTip: Tip, oldTip: Tip, at: int)
    | Move(id: nat, to: DepositState, at: int, reason: Option<string>, artifact: Option<Artifact>)
    | Recover(id: nat, to: DepositState, note: string, at: int)

  datatype Event =
    | Take(worker: nat, id: nat)
    | Look(worker: nat)
    | Mark(worker: nat, at: int)
    | Load(worker: nat, at: int)
    | Send(worker: nat)
    | Record(worker: nat, signature: string, at: int)
    | Crash(worker: nat)
    | Land(sent: SignableClaim)
    | Foreign(key: ClaimKey)
    | Database(change: Change)

  predicate Harmless(c: Change) {
    match c
    case Index(_, _, cs) => forall k :: 0 <= k < |cs| ==> cs[k].initial in {Candidate, Failed}
    case Move(_, to, _, _, _) => to != Minted
    case _ => true
  }

  function Applied(s: State, c: Change): State {
    match c
    case Index(height, b, cs) => IngestBlock(s, height, b, cs)
    case RollBack(newTip, oldTip, at) => Rollback(s, newTip, oldTip, at)
    case Move(id, to, at, reason, artifact) => Transition(s, id, to, at, reason, artifact).0
    case Recover(id, to, note, at) => OperatorClear(s, id, to, note, at).0
  }

  function At(s: System, worker: nat): Progress { if worker in s.workers then s.workers[worker] else Idle }

  predicate Enabled(s: System, e: Event) {
    match e
    case Take(w, id) =>
      At(s, w).Idle? && id < |s.db.deposits| && s.db.deposits[id].state in {ReadyForSignature, Submitted}
    case Look(w) => At(s, w).Took?
    case Mark(w, _) => At(s, w).Looked? && At(s, w).claimed
    case Load(w, _) => At(s, w).Looked? && !At(s, w).claimed
    case Send(w) => At(s, w).Loaded?
    case Record(w, _, _) => At(s, w).Sent?
    case Crash(_) => true
    case Land(sent) => sent in s.inFlight
    case Foreign(_) => true
    case Database(c) => Harmless(c)
  }

  function Moved(s: System, worker: nat, p: Progress): System { s.(workers := s.workers[worker := p]) }

  function After(sha: seq<byte> -> Hash32, s: System, e: Event): System
    requires Enabled(s, e)
  {
    match e
    case Take(w, id) => Moved(s, w, Took(id, s.db.deposits[id]))
    case Look(w) => Moved(s, w, Looked(At(s, w).id, At(s, w).row, KeyOf(At(s, w).row) in s.chain.claims))
    case Mark(w, at) => Moved(s, w, Idle).(db := MarkMinted(s.db, At(s, w).id, at).0)
    case Load(w, at) =>
      var r := VerifyAndLoadClaim(sha, s.db, At(s, w).id, at);
      Moved(s, w, if r.1.Ok? then Loaded(At(s, w).id, r.1.value) else Idle).(db := r.0)
    case Send(w) =>
      Moved(s, w, Sent(At(s, w).id)).(inFlight := s.inFlight + {At(s, w).claim})
    case Record(w, signature, at) => Moved(s, w, Idle).(db := MarkSubmitted(s.db, At(s, w).id, signature, at).0)
    case Crash(w) => Moved(s, w, Idle)
    case Land(sent) => s.(chain := Execute(s.chain, ClaimKey(sent.claim.txid, sent.claim.vout)))
    case Foreign(key) => s.(chain := Execute(s.chain, key))
    case Database(c) => s.(db := Applied(s.db, c))
  }

  /** What a worker knows is still true, however stale its snapshot. */
  ghost predicate Knows(db: State, chain: Chain, p: Progress) {
    match p
    case Took(id, row) => id < |db.deposits| && SameRecord(row, db.deposits[id])
    case Looked(id, row, claimed) =>
      && id < |db.deposits| && SameRecord(row, db.deposits[id]) && (claimed ==> KeyOf(row) in chain.claims)
    case Loaded(id, c) => c.id == id && Carries(db, c)
    case _ => true
  }

  ghost predicate Safe(s: System) {
    && Backed(s.db.deposits, s.chain.claims)
    && MintedOnce(s.chain)
    && (forall w :: w in s.workers ==> Knows(s.db, s.chain, s.workers[w]))
    && (forall c :: c in s.inFlight ==> Carries(s.db, c))
  }

  /** What any other process may do to the tables between two steps. */
  ghost predicate Grows(s: State, u: State, before: Chain, after: Chain) {
    && RowsKept(s.deposits, u.deposits) && ArtifactsKept(s.artifacts, u.artifacts) && before.claims <= after.claims
    && Backed(u.deposits, after.claims) && MintedOnce(after)
  }

  lemma KnowsStill(s: State, u: State, before: Chain, after: Chain, p: Progress)
    requires Knows(s, before, p) && before.claims <= after.claims
    requires RowsKept(s.deposits, u.deposits) && ArtifactsKept(s.artifacts, u.artifacts)
    ensures Knows(u, after, p)
  {
    if p.Loaded? {
      CarriesStill(s, u, p.claim);
    } else if p.Took? || p.Looked? {
      assert SameRecord(s.deposits[p.id], u.deposits[p.id]);
    }
  }

  lemma GrowthKeepsSafe(s: System, u: System, who: nat, p: Progress)
    requires Safe(s) && Grows(s.db, u.db, s.chain, u.chain)
    requires u.workers == s.workers || (u.workers == s.workers[who := p] && Knows(u.db, u.chain, p))
    requires forall c :: c in u.inFlight ==> c in s.inFlight || Carries(u.db, c)
    ensures Safe(u)
  {
    hide Knows, SameRecord, Backed, MintedOnce, RowsKept, ArtifactsKept, Carries;
    forall w | w in u.workers ensures Knows(u.db, u.chain, u.workers[w]) {
      if w in s.workers && s.workers[w] == u.workers[w] {
        KnowsStill(s.db, u.db, s.chain, u.chain, s.workers[w]);
      }
    }
    forall c | c in u.inFlight ensures Carries(u.db, c) {
      if c in s.inFlight {
        CarriesStill(s.db, u.db, c);
      }
    }
  }

  /** What was handed out stays what the row and its frozen claim say. */
  lemma CarriesStill(s: State, u: State, c: SignableClaim)
    requires RowsKept(s.deposits, u.deposits) && ArtifactsKept(s.artifacts, u.artifacts) && Carries(s, c)
    ensures Carries(u, c)
  {
    assert SameRecord(s.deposits[c.id], u.deposits[c.id]);
  }

  lemma ExecuteGrows(s: State, c: Chain, key: ClaimKey)
    requires Backed(s.deposits, c.claims) && MintedOnce(c)
    ensures Grows(s, s, c, Execute(c, key))
  {
  }

  lemma {:induction false} InsertAllGrows(s: State, cs: seq<NewCandidate>, claims: set<ClaimKey>)
    requires Backed(s.deposits, claims) && forall k :: 0 <= k < |cs| ==> cs[k].initial in {Candidate, Failed}
    ensures var u := InsertAll(s, cs);
            RowsKept(s.deposits, u.deposits) && u.artifacts == s.artifacts && Backed(u.deposits, claims)
  {
    if cs != [] {
      InsertAllGrows(s, cs[..|cs| - 1], claims);
    }
  }

  lemma ChangeGrows(s: State, c: Change, chain: Chain)
    requires Backed(s.deposits, chain.claims) && MintedOnce(chain) && Harmless(c)
    ensures Grows(s, Applied(s, c), chain, chain)
  {
    hide MintedOnce, RowsKept, Backed, InsertAll, Rollback, Transition, OperatorClear;
    match c
    case Index(height, b, cs) => InsertAllGrows(WithBlock(s, height, b), cs, chain.claims);
    case RollBack(newTip, oldTip, at) => RollbackGrows(s, newTip, oldTip, at, chain.claims);
    case Move(id, to, at, reason, artifact) => MoveGrows(s, id, to, at, reason, artifact, chain.claims);
    case Recover(id, to, note, at) => RecoverGrows(s, id, to, note, at, chain.claims);
  }

  lemma MoveGrows(
      s: State, id: nat, to: DepositState, at: int, reason: Option<string>, artifact: Option<Artifact>, claims: set<ClaimKey>)
    requires Backed(s.deposits, claims) && to != Minted
    ensures var u := Transition(s, id, to, at, reason, artifact).0;
            RowsKept(s.deposits, u.deposits) && ArtifactsKept(s.artifacts, u.artifacts) && Backed(u.deposits, claims)
  {
  }

  lemma RecoverGrows(s: State, id: nat, to: DepositState, note: string, at: int, claims: set<ClaimKey>)
    requires Backed(s.deposits, claims)
    ensures var u := OperatorClear(s, id, to, note, at).0;
            RowsKept(s.deposits, u.deposits) && u.artifacts == s.artifacts && Backed(u.deposits, claims)
  {
    hide Blank;
  }

  lemma RollbackGrows(s: State, newTip: Tip, oldTip: Tip, at: int, claims: set<ClaimKey>)
    requires Backed(s.deposits, claims)
    ensures var u := Rollback(s, newTip, oldTip, at); RowsKept(s.deposits, u.deposits) && u.artifacts == s.artifacts && Backed(u.deposits, claims)
  {
    hide OrphanLog;
  }

  lemma MarkGrows(s: State, id: nat, at: int, chain: Chain)
    requires Backed(s.deposits, chain.claims) && MintedOnce(chain)
    requires id < |s.deposits| && KeyOf(s.deposits[id]) in chain.claims
    ensures Grows(s, MarkMinted(s, id, at).0, chain, chain)
    ensures MarkMinted(s, id, at).0.deposits[id].state == Minted
  {
  }

  lemma SubmittedGrows(s: State, id: nat, signature: string, at: int, chain: Chain)
    requires Backed(s.deposits, chain.claims) && MintedOnce(chain)
    ensures Grows(s, MarkSubmitted(s, id, signature, at).0, chain, chain)
    ensures id < |s.deposits| ==> MarkSubmitted(s, id, signature, at).0.deposits[id].state == Submitted
  {
  }

  lemma GuardGrows(sha: seq<byte> -> Hash32, s: State, id: nat, at: int, chain: Chain)
    requires Backed(s.deposits, chain.claims) && MintedOnce(chain) && id < |s.deposits|
    ensures var r := VerifyAndLoadClaim(sha, s, id, at);
            && Grows(s, r.0, chain, chain)
            && (r.1.Ok? ==> r.0 == s && r.1.value.id == id && Carries(s, r.1.value))
  {
    ClaimGuardReleasesExactly(sha, s, id, at);
    hide SignedMessages.DepositClaimMessage, SignedMessages.DiffClaimFields;
  }

  lemma EventKeepsSafe(sha: seq<byte> -> Hash32, s: System, e: Event)
    requires Safe(s) && Enabled(s, e)
    ensures Safe(After(sha, s, e))
  {
    hide Backed, MintedOnce, RowsKept, VerifyAndLoadClaim, MarkMinted, MarkSubmitted, Execute, Applied, Harmless;
    var u := After(sha, s, e);
    NothingMoved(s.db, s.chain);
    match e {
      case Take(w, id) => GrowthKeepsSafe(s, u, w, Took(id, s.db.deposits[id]));
      case Look(w) => GrowthKeepsSafe(s, u, w, u.workers[w]);
      case Mark(w, at) =>
        MarkGrows(s.db, At(s, w).id, at, s.chain);
        GrowthKeepsSafe(s, u, w, Idle);
      case Load(w, at) =>
        GuardGrows(sha, s.db, At(s, w).id, at, s.chain);
        GrowthKeepsSafe(s, u, w, u.workers[w]);
      case Send(w) =>
        GrowthKeepsSafe(s, u, w, u.workers[w]);
      case Record(w, signature, at) =>
        SubmittedGrows(s.db, At(s, w).id, signature, at, s.chain);
        GrowthKeepsSafe(s, u, w, Idle);
      case Crash(w) => GrowthKeepsSafe(s, u, w, Idle);
      case Land(sent) =>
        ExecuteGrows(s.db, s.chain, ClaimKey(sent.claim.txid, sent.claim.vout));
        GrowthKeepsSafe(s, u, 0, Idle);
      case Foreign(key) =>
        ExecuteGrows(s.db, s.chain, key);
        GrowthKeepsSafe(s, u, 0, Idle);
      case Database(c) =>
        ChangeGrows(s.db, c, s.chain);
        GrowthKeepsSafe(s, u, 0, Idle);
    }
  }

  lemma NothingMoved(s: State, c: Chain)
    requires Backed(s.deposits, c.claims) && MintedOnce(c)
    ensures Grows(s, s, c, c)
  {
  }

  predicate EnabledRun(sha: seq<byte> -> Hash32, s: System, events: seq<Event>)
    decreases |events|
  {
    events == [] || (Enabled(s, events[0]) && EnabledRun(sha, After(sha, s, events[0]), events[1..]))
  }

  function Run(sha: seq<byte> -> Hash32, s: System, events: seq<Event>): System
    requires EnabledRun(sha, s, events)
    decreases |events|
  {
    if events == [] then s else Run(sha, After(sha, s, events[0]), events[1..])
  }

  lemma {:induction false} RunKeepsSafe(sha: seq<byte> -> Hash32, s: System, events: seq<Event>)
    requires Safe(s) && EnabledRun(sha, s, events)
    ensures Safe(Run(sha, s, events))
    decreases |events|
  {
    hide Safe, Enabled, After;
    if events != [] {
      EventKeepsSafe(sha, s, events[0]);
      RunKeepsSafe(sha, After(sha, s, events[0]), events[1..]);
    }
  }

  /** Under any interleaving of any number of workers on stale rows, indexing,
      recovery, other relayers' mints and crashes: every minted row has its
      claim on-chain, no outpoint was minted twice, and everything this
      relayer ever sent is the frozen message of a deposit it has on record. */
  lemma MintedMeansClaimed(sha: seq<byte> -> Hash32, chain: Chain, events: seq<Event>)
    requires MintedOnce(chain)
    requires EnabledRun(sha, System(EMPTY, chain, {}, map[]), events)
    ensures var s := Run(sha, System(EMPTY, chain, {}, map[]), events);
            && (forall id :: 0 <= id < |s.db.deposits| && s.db.deposits[id].state == Minted ==>
                  KeyOf(s.db.deposits[id]) in s.chain.claims)
            && (forall key :: key in s.chain.claims <==> key in s.chain.mints)
            && (forall j, k :: 0 <= j < k < |s.chain.mints| ==> s.chain.mints[j] != s.chain.mints[k])
            && (forall c :: c in s.inFlight ==>
                  && c.id < |s.db.deposits| && c.id in s.db.artifacts
                  && var d, a := s.db.deposits[c.id], s.db.artifacts[c.id];
                  && c.message == a.message && KeyOf(d) == ClaimKey(c.claim.txid, c.claim.vout)
                  && c.claim.amount == d.amount && c.claim.recipient == d.recipient
                  && c.claim.version == a.version && c.claim.epoch == a.epoch
                  && c.claim.program == a.program && c.claim.mint == a.mint)
  {
    hide EnabledRun, Run;
    RunKeepsSafe(sha, System(EMPTY, chain, {}, map[]), events);
  }

  // ------------------------------------------------------------ the pipeline

  datatype Outcome = Reconciled | Dispatched | InsufficientSignatures | NotSigned

  datatype PipelineError = NodeUnavailable | DatabaseError(error: DbError)

  datatype TickReport = TickReport(minted: nat, submitted: nat, insufficient: nat, halted: nat)

  class Solana {
    var claims: set<ClaimKey>
    var mints: seq<ClaimKey>

    ghost function Contents(): Chain
      reads this
    {
      Chain(claims, mints)
    }

    constructor ()
      ensures claims == {} && mints == []
    {
      claims, mints := {}, [];
    }

    method ExecuteMint(key: ClaimKey)
      modifies this
      ensures Contents() == Execute(old(Contents()), key)
    {
      if key !in claims {
        claims, mints := claims + {key}, mints + [key];
      }
    }
  }

  class Pipeline {
    const db: DepositDb.Db
    const chain: Solana
    const program: Hash32

    constructor (db: DepositDb.Db, chain: Solana, program: Hash32)
      ensures this.db == db && this.chain == chain && this.program == program
    {
      this.db, this.chain, this.program := db, chain, program;
    }

    ghost predicate Valid()
      reads this, db, chain
    {
      Backed(db.deposits, chain.claims) && MintedOnce(chain.Contents())
    }

    twostate predicate Grown()
      reads this, db, chain
    {
      Grows(old(db.Contents()), db.Contents(), old(chain.Contents()), chain.Contents())
    }

    /** Any of the other processes taking any number of steps. */
    method Interfere()
      requires Valid()
      modifies db, chain
      ensures Valid() && Grown()
    {
      hide RowsKept, Backed, MintedOnce, Applied;
      ghost var s, c := db.Contents(), chain.Contents();
      NothingMoved(s, c);
      var steps: int := *;
      for k := 0 to if steps > 0 then steps else 0
        invariant Valid() && Grows(s, db.Contents(), c, chain.Contents())
      {
        ghost var v, d := db.Contents(), chain.Contents();
        OtherStep();
        GrowsTransitive(s, v, db.Contents(), c, d, chain.Contents());
      }
    }

    method OtherStep()
      requires Valid()
      modifies db, chain
      ensures Valid() && Grown()
    {
      hide RowsKept, Backed, MintedOnce, Applied, Execute;
      var onChain: bool := *;
      if onChain {
        var txid: Hash32 := *;
        var vout: u32 := *;
        ExecuteGrows(db.Contents(), chain.Contents(), ClaimKey(txid, vout));
        chain.ExecuteMint(ClaimKey(txid, vout));
      } else {
        var change: Change := *;
        if Harmless(change) {
          ChangeGrows(db.Contents(), change, chain.Contents());
          Write(change);
        } else {
          NothingMoved(db.Contents(), chain.Contents());
        }
      }
    }

    method Write(change: Change)
      modifies db
      ensures db.Contents() == Applied(old(db.Contents()), change)
    {
      match change {
        case Index(height, b, cs) => db.IngestBlock(height, b, cs);
        case RollBack(newTip, oldTip, at) =>
          var n := db.RollbackReorg(newTip, oldTip, at);
        case Move(id, to, at, reason, artifact) =>
          var e := db.TransitionState(id, to, at, reason, artifact);
        case Recover(id, to, note, at) =>
          var e := db.OperatorClearHalt(id, to, note, at);
      }
    }

    /** A Solana RPC call goes through, or does not. */
    method Answers() returns (ok: bool)
    {
      ok := *;
    }

    /** One row of the tick, on a snapshot that may be stale, with other
        processes running between any two steps. Wherever it stops, the tables
        and the chain are left safe; it marks the row minted only after seeing
        its claim, and sends nothing but the guard's message for this program. */
    method ProcessOne(id: nat, row: Deposit) returns (r: Result<Outcome, PipelineError>, ghost sent: Option<SignableClaim>)
      requires Valid() && id < |db.deposits| && SameRecord(row, db.deposits[id])
      modifies db, chain
      ensures Valid() && Grown()
      ensures KeyOf(row) in old(chain.claims) ==> sent == None && (r.Ok? ==> r == Ok(Reconciled))
      ensures r == Ok(Reconciled) ==> sent == None && KeyOf(row) in chain.claims && db.deposits[id].state == Minted
      ensures r == Ok(Dispatched) ==> sent.Some? && db.deposits[id].state == Submitted
      ensures r == Ok(InsufficientSignatures) || r == Ok(NotSigned) ==> sent == None
      ensures sent.Some? ==> SentFor(db.Contents(), id, row, program, sent.value)
    {
      hide RowsKept, ArtifactsKept, SentFor, Backed, MintedOnce, VerifyAndLoadClaim, DepositStore.MarkMinted, DepositStore.MarkSubmitted, SameRecord;
      sent := None;
      ghost var s, c := db.Contents(), chain.Contents();
      Interfere();
      var found := Answers();
      if !found { return Err(NodeUnavailable), sent; }
      var key := KeyOf(row);
      var claimed := key in chain.claims;
      ghost var v, d := db.Contents(), chain.Contents();
      Interfere();
      GrowsTransitive(s, v, db.Contents(), c, d, chain.Contents());
      StillRecorded(s, db.Contents(), id, row);
      v, d := db.Contents(), chain.Contents();
      var at: int := *;
      if claimed {
        MarkGrows(v, id, at, d);
        GrowsTransitive(s, v, MarkMinted(v, id, at).0, c, d, d);
        var e := db.MarkMinted(id, at);
        return Ok(Reconciled), sent;
      }
      GuardGrows(db.sha, v, id, at, d);
      GuardMessage(db.sha, v, id, at, row);
      var loaded := db.VerifyAndLoadSignable(id, at);
      GrowsTransitive(s, v, db.Contents(), c, d, d);
      if loaded.Err? {
        r := if loaded.error == MessageIntegrityMismatch then Ok(NotSigned) else Err(DatabaseError(loaded.error));
        return r, sent;
      }
      if loaded.value.claim.program != program {
        return Ok(NotSigned), sent;
      }
      v := db.Contents();
      Interfere();
      GrowsTransitive(s, v, db.Contents(), c, d, chain.Contents());
      SentStill(v, db.Contents(), d, chain.Contents(), id, row, program, loaded.value);
      v, d := db.Contents(), chain.Contents();
      var enough: bool := *;
      if !enough {
        return Ok(InsufficientSignatures), sent;
      }
      var accepted := Answers();
      if !accepted { return Err(NodeUnavailable), sent; }
      sent := Some(loaded.value);
      Interfere();
      GrowsTransitive(s, v, db.Contents(), c, d, chain.Contents());
      StillRecorded(s, db.Contents(), id, row);
      SentStill(v, db.Contents(), d, chain.Contents(), id, row, program, loaded.value);
      v, d := db.Contents(), chain.Contents();
      var signature: string := *;
      SubmittedGrows(v, id, signature, at, d);
      GrowsTransitive(s, v, MarkSubmitted(v, id, signature, at).0, c, d, d);
      SentStill(v, MarkSubmitted(v, id, signature, at).0, d, d, id, row, program, loaded.value);
      var e := db.MarkSubmitted(id, signature, at);
      r := Ok(Dispatched);
    }

    /** Every row waiting when the tick began is visited, unless a call fails. */
    method Tick() returns (r: Result<TickReport, PipelineError>, ghost visited: seq<nat>)
      requires Valid()
      modifies db, chain
      ensures Valid() && Grown()
      ensures r.Ok? ==>
                && r.value.minted + r.value.submitted + r.value.insufficient + r.value.halted == |visited|
                && forall id :: 0 <= id < |old(db.deposits)| && old(db.deposits)[id].state in {ReadyForSignature, Submitted} ==>
                     id in visited
    {
      var ready := db.CandidatesByState(ReadyForSignature);
      var submitted := db.CandidatesByState(Submitted);
      hide RowsKept, Backed, MintedOnce;
      ghost var s, c := db.Contents(), chain.Contents();
      NothingMoved(s, c);
      var rows := ready + submitted;
      visited := [];
      var report := TickReport(0, 0, 0, 0);
      for k := 0 to |rows|
        invariant Valid() && Grows(s, db.Contents(), c, chain.Contents())
        invariant report.minted + report.submitted + report.insufficient + report.halted == k == |visited|
        invariant forall j :: 0 <= j < k ==> visited[j] == rows[j].0
      {
        ghost var v, d := db.Contents(), chain.Contents();
        SnapshotStill(s, v, rows[k].0, rows[k].1);
        ghost var sent;
        var one;
        one, sent := ProcessOne(rows[k].0, rows[k].1);
        GrowsTransitive(s, v, db.Contents(), c, d, chain.Contents());
        visited := visited + [rows[k].0];
        match one {
          case Err(e) => return Err(e), visited;
          case Ok(Reconciled) => report := report.(minted := report.minted + 1);
          case Ok(Dispatched) => report := report.(submitted := report.submitted + 1);
          case Ok(InsufficientSignatures) => report := report.(insufficient := report.insufficient + 1);
          case Ok(NotSigned) => report := report.(halted := report.halted + 1);
        }
      }
      forall id | 0 <= id < |s.deposits| && s.deposits[id].state in {ReadyForSignature, Submitted} ensures id in visited {
        assert (id, s.deposits[id]) in rows;
        var j :| 0 <= j < |rows| && rows[j] == (id, s.deposits[id]);
        assert visited[j] == id;
      }
      r := Ok(report);
    }
  }

  lemma StillRecorded(s: State, u: State, id: nat, row: Deposit)
    requires id < |s.deposits| && SameRecord(row, s.deposits[id]) && RowsKept(s.deposits, u.deposits)
    ensures id < |u.deposits| && SameRecord(row, u.deposits[id]) && KeyOf(row) == KeyOf(u.deposits[id])
  {
    assert SameRecord(s.deposits[id], u.deposits[id]);
  }

  lemma SnapshotStill(s: State, u: State, id: nat, row: Deposit)
    requires id < |s.deposits| && row == s.deposits[id] && RowsKept(s.deposits, u.deposits)
    ensures id < |u.deposits| && SameRecord(row, u.deposits[id])
  {
  }

  /** What was sent is the message frozen for the row, for this program, and it
      says what the row says. */
  predicate SentFor(s: State, id: nat, row: Deposit, program: Hash32, c: SignableClaim) {
    && id < |s.deposits| && id in s.artifacts && c.id == id
    && c.message == s.artifacts[id].message && c.message == SignedMessages.DepositClaimMessage(c.claim)
    && c.claim.txid == row.txid && c.claim.vout == row.vout
    && c.claim.amount == row.amount && c.claim.recipient == row.recipient
    && c.claim.version == s.artifacts[id].version && c.claim.epoch == s.artifacts[id].epoch
    && c.claim.program == s.artifacts[id].program == program && c.claim.mint == s.artifacts[id].mint
  }

  lemma SentStill(
      s: State, u: State, before: Chain, after: Chain, id: nat, row: Deposit, program: Hash32, c: SignableClaim)
    requires SentFor(s, id, row, program, c) && Grows(s, u, before, after)
    ensures SentFor(u, id, row, program, c)
  {
    hide Backed, MintedOnce, SameRecord, SignedMessages.DepositClaimMessage;
  }

  lemma GuardMessage(sha: seq<byte> -> Hash32, s: State, id: nat, at: int, row: Deposit)
    requires id < |s.deposits| && SameRecord(row, s.deposits[id])
    ensures var r := VerifyAndLoadClaim(sha, s, id, at);
            && (r.1.Ok? ==> r.0 == s && SentFor(s, id, row, r.1.value.claim.program, r.1.value))
            && (r.1.Err? ==> r.1.error in {MissingClaimArtifact, MessageIntegrityMismatch})
  {
    ClaimGuardReleasesExactly(sha, s, id, at);
    hide VerifyAndLoadClaim, SignedMessages.DepositClaimMessage;
  }

  lemma GrowsTransitive(s: State, v: State, u: State, a: Chain, b: Chain, c: Chain)
    requires Grows(s, v, a, b) && Grows(v, u, b, c)
    ensures Grows(s, u, a, c)
  {
    hide Backed, MintedOnce;
    RowsKeptTransitive(s.deposits, v.deposits, u.deposits);
  }
}
