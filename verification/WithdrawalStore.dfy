/** The withdrawal and payout tables, and what each store operation does to
    them. Every operation is one transaction: it either returns the next
    committed state or leaves the state as it was. */
module WithdrawalStore {
  import opened Bytes
  import opened Wrappers
  import opened PayoutIntent

  datatype WState =
    | Observed | Validated | AwaitingFunds | Building | Signing | Broadcast
    | Confirming | Completed | IntegrityHalted | Failed | Orphaned

  predicate IsTerminal(s: WState) { s in {Completed, Failed, IntegrityHalted} }

  predicate MayTransitionTo(from: WState, to: WState) {
    if to == IntegrityHalted then !IsTerminal(from) else
      (from, to) in {
        (Observed, Validated), (Observed, Failed),
        (Validated, AwaitingFunds), (Validated, Building), (Validated, Failed),
        (AwaitingFunds, Validated), (AwaitingFunds, Failed),
        (Building, Signing), (Building, AwaitingFunds), (Building, Failed),
        (Signing, Broadcast),
        (Broadcast, Broadcast), (Broadcast, Confirming), (Broadcast, Orphaned),
        (Confirming, Completed), (Confirming, Confirming), (Confirming, Orphaned), (Confirming, Broadcast),
        (Orphaned, Broadcast),
        (IntegrityHalted, Validated), (IntegrityHalted, Failed)}
  }

  datatype Withdrawal = Withdrawal(
    pda: Hash32, amount: u64, requester: Hash32, address: string, hash160: Hash20, slot: i64, version: byte,
    observedAt: i64, state: WState, failureReason: Option<string>)

  /** The columns of a payout row that a quorum reassignment replaces together. */
  datatype Designation = Designation(quorum: seq<byte>, attempt: u32, commitment: Hash32, intent: seq<byte>, unsignedTx: string)

  /** The columns written once, when the payout is built. */
  datatype Terms = Terms(
    vault: Hash20, fee: u64, payout: u64, change: u64, changeAddress: Option<string>, inputs: seq<Coin>, builtAt: i64)

  datatype SignedTx = SignedTx(hex: string, txid: Hash32, at: i64)

  datatype Payout = Payout(
    terms: Terms, designation: Designation, signed: Option<SignedTx>, broadcastAt: Option<i64>,
    minedHash: Option<Hash32>, minedHeight: Option<i64>, confirmations: i64, completedAt: Option<i64>,
    onchainAt: Option<i64>, onchainSignature: Option<string>)

  datatype UState = Available | Reserved | Spent | Unconfirmed

  datatype Utxo = Utxo(
    amount: u64, script: string, confirmations: i64, firstSeenAt: i64, state: UState,
    reservedBy: Option<i64>, reservedAt: Option<i64>, spentBy: Option<Hash32>)

  datatype HistoryRow = HistoryRow(index: i64, attempt: u32, quorum: seq<byte>, commitment: Hash32, at: i64, reason: string)

  datatype LogRow = LogRow(
    index: i64, from: Option<WState>, to: WState, at: i64, reason: Option<string>,
    expected: Option<seq<byte>>, recomputed: Option<seq<byte>>, differing: Option<seq<Field>>)

  datatype State = State(
    withdrawals: map<i64, Withdrawal>,
    payouts: map<i64, Payout>,
    utxos: map<Outpoint, Utxo>,
    history: seq<HistoryRow>,
    log: seq<LogRow>)

  const EMPTY := State(map[], map[], map[], [], [])

  /** The functions the store calls but does not define: SHA-256 and the
      hash160 inside a base58check address, where it decodes. */
  datatype Env = Env(sha: seq<byte> -> Hash32, decodeAddress: string -> Option<Hash20>)

  datatype DbError =
    | WithdrawalNotFound | MissingPayout | PayoutAlreadyCompleted | PayoutAlreadyConfirmed
    | ReservationInvalid | PayoutIntegrityMismatch | IllegalTransition | OperatorNoteRequired
    | InvalidRecoveryTarget | NotIntegrityHalted | ConstraintViolation

  // ------------------------------------------------------------- observation

  datatype NewWithdrawal = NewWithdrawal(
    index: i64, pda: Hash32, amount: u64, requester: Hash32, address: string, hash160: Hash20,
    slot: i64, version: byte, observedAt: i64)

  predicate PdaTaken(s: State, pda: Hash32) {
    exists j :: j in s.withdrawals && s.withdrawals[j].pda == pda
  }

  /** `INSERT OR IGNORE`: a taken index or a taken account makes it a no-op. */
  function ObserveWithdrawal(s: State, w: NewWithdrawal): (r: (State, bool)) {
    if w.index in s.withdrawals || PdaTaken(s, w.pda) then (s, false) else
      (s.(withdrawals := s.withdrawals[w.index := Withdrawal(w.pda, w.amount, w.requester, w.address, w.hash160, w.slot,
                                                            w.version, w.observedAt, Observed, None)],
          log := s.log + [LogRow(w.index, None, Observed, w.observedAt, Some("observed at finalized commitment"),
                                 None, None, None)]),
       true)
  }

  // ------------------------------------------------------------- lifecycle

  /** Sets the lifecycle state of an existing withdrawal; a `None` reason
      keeps the recorded one. */
  function SetState(s: State, i: i64, to: WState, reason: Option<string>): (t: State)
    requires i in s.withdrawals
  {
    var w := s.withdrawals[i];
    s.(withdrawals := s.withdrawals[i := w.(state := to, failureReason := if reason.Some? then reason else w.failureReason)])
  }

  function Logged(s: State, row: LogRow): (t: State) { s.(log := s.log + [row]) }

  function Plain(i: i64, from: Option<WState>, to: WState, at: i64, reason: Option<string>): (r: LogRow) {
    LogRow(i, from, to, at, reason, None, None, None)
  }

  function TransitionWithdrawal(s: State, i: i64, to: WState, at: i64, reason: Option<string>): (r: (State, Option<DbError>)) {
    if i !in s.withdrawals then (s, Some(WithdrawalNotFound)) else
      var from := s.withdrawals[i].state;
      if from != to && !MayTransitionTo(from, to) then (s, Some(IllegalTransition)) else
        (Logged(SetState(s, i, to, reason), Plain(i, Some(from), to, at, reason)), None)
  }

  predicate Blank(s: string) { forall c :: c in s ==> c in {' ', '\t', '\n', '\r'} }

  function OperatorClearHalt(s: State, i: i64, to: WState, note: string, at: i64): (r: (State, Option<DbError>)) {
    if Blank(note) then (s, Some(OperatorNoteRequired))
    else if to != Validated && to != Failed then (s, Some(InvalidRecoveryTarget))
    else if i !in s.withdrawals then (s, Some(WithdrawalNotFound))
    else if s.withdrawals[i].state != IntegrityHalted then (s, Some(NotIntegrityHalted))
    else (Logged(SetState(s, i, to, Some(note)), Plain(i, Some(IntegrityHalted), to, at, Some("operator_recovery: " + note))), None)
  }

  // ------------------------------------------------------------- vault coins

  datatype ObservedUtxo = ObservedUtxo(outpoint: Outpoint, amount: u64, script: string, confirmations: i64)

  function SyncOne(utxos: map<Outpoint, Utxo>, u: ObservedUtxo, minConfirmations: i64, at: i64): (r: map<Outpoint, Utxo>) {
    var state := if u.confirmations >= minConfirmations then Available else Unconfirmed;
    if u.outpoint !in utxos then
      utxos[u.outpoint := Utxo(u.amount, u.script, u.confirmations, at, state, None, None, None)]
    else
      var row := utxos[u.outpoint];
      utxos[u.outpoint := row.(confirmations := u.confirmations,
                               state := if row.state in {Reserved, Spent} then row.state else state)]
  }

  function SyncAll(utxos: map<Outpoint, Utxo>, observed: seq<ObservedUtxo>, minConfirmations: i64, at: i64): (r: map<Outpoint, Utxo>)
  {
    if observed == [] then utxos else
      var last := |observed| - 1;
      SyncOne(SyncAll(utxos, observed[..last], minConfirmations, at), observed[last], minConfirmations, at)
  }

  function SyncVaultUtxos(s: State, observed: seq<ObservedUtxo>, minConfirmations: i64, at: i64): (t: State) {
    s.(utxos := SyncAll(s.utxos, observed, minConfirmations, at))
  }

  /** The tracked outpoints a node report without `txid` retires. Only the
      transaction id is compared, never the output index. */
  function Missing(s: State, present: seq<Hash32>): (r: set<Outpoint>) {
    set o | o in s.utxos && s.utxos[o].state in {Available, Unconfirmed} && o.txid !in present
  }

  function MarkMissingSpent(s: State, present: seq<Hash32>): (r: (State, nat)) {
    var gone := Missing(s, present);
    (s.(utxos := map o | o in s.utxos :: if o in gone then s.utxos[o].(state := Spent) else s.utxos[o]), |gone|)
  }

  predicate Distinct<T(==)>(xs: seq<T>) { forall a, b :: 0 <= a < b < |xs| ==> xs[a] != xs[b] }

  predicate Reservable(s: State, outs: seq<Outpoint>) {
    Distinct(outs) && forall k :: 0 <= k < |outs| ==> outs[k] in s.utxos && s.utxos[outs[k]].state == Available
  }

  function Hold(utxos: map<Outpoint, Utxo>, outs: seq<Outpoint>, i: i64, at: i64): (r: map<Outpoint, Utxo>) {
    map o | o in utxos :: if o in outs then utxos[o].(state := Reserved, reservedBy := Some(i), reservedAt := Some(at)) else utxos[o]
  }

  /** All or nothing: every outpoint must be available, none named twice, and
      the reserving withdrawal must exist. */
  function ReserveUtxos(s: State, i: i64, outs: seq<Outpoint>, at: i64): (r: (State, bool)) {
    if Reservable(s, outs) && (outs == [] || i in s.withdrawals) then (s.(utxos := Hold(s.utxos, outs, i, at)), true)
    else (s, false)
  }

  function HeldBy(s: State, i: i64): (r: set<Outpoint>) {
    set o | o in s.utxos && s.utxos[o].reservedBy == Some(i)
  }

  function ReleaseReservation(s: State, i: i64): (r: (State, Result<nat, DbError>)) {
    if i in s.payouts then (s, Err(ReservationInvalid)) else
      var held := set o | o in HeldBy(s, i) && s.utxos[o].state == Reserved;
      (s.(utxos := map o | o in s.utxos :: if o in held then s.utxos[o].(state := Available, reservedBy := None, reservedAt := None)
                                           else s.utxos[o]),
       Ok(|held|))
  }

  // ----------------------------------------------------------------- payouts

  datatype NewPayout = NewPayout(index: i64, terms: Terms, designation: Designation)

  predicate Commits(p: Payout, o: Outpoint) {
    exists k :: 0 <= k < |p.terms.inputs| && p.terms.inputs[k].outpoint == o
  }

  /** Whether some payout row already owns the outpoint. */
  predicate Committed(s: State, o: Outpoint) { exists j :: j in s.payouts && Commits(s.payouts[j], o) }

  function Outpoints(coins: seq<Coin>): (outs: seq<Outpoint>)
    ensures |outs| == |coins| && forall k :: 0 <= k < |outs| ==> outs[k] == coins[k].outpoint
  {
    seq(|coins|, k requires 0 <= k < |coins| => coins[k].outpoint)
  }

  /** Primary key, foreign key and `UNIQUE(txid, vout)`. */
  predicate Creatable(s: State, p: NewPayout) {
    && p.index !in s.payouts
    && p.index in s.withdrawals
    && Distinct(Outpoints(p.terms.inputs))
    && forall k :: 0 <= k < |p.terms.inputs| ==> !Committed(s, p.terms.inputs[k].outpoint)
  }

  function FreshPayout(p: NewPayout): (r: Payout) {
    Payout(p.terms, p.designation, None, None, None, None, 0, None, None, None)
  }

  function CreatePayout(s: State, p: NewPayout): (r: (State, bool)) {
    if Creatable(s, p) then (s.(payouts := s.payouts[p.index := FreshPayout(p)]), true) else (s, false)
  }

  function UpdatePayout(s: State, i: i64, p: Payout): (t: State) { s.(payouts := s.payouts[i := p]) }

  function RecordSigned(s: State, i: i64, hex: string, txid: Hash32, at: i64): (r: (State, bool)) {
    if i !in s.withdrawals then (s, false) else
      var signed := if i in s.payouts && s.payouts[i].signed == None
                    then UpdatePayout(s, i, s.payouts[i].(signed := Some(SignedTx(hex, txid, at)))) else s;
      (Logged(SetState(signed, i, Broadcast, None), Plain(i, Some(Signing), Broadcast, at, Some("signed"))), true)
  }

  function RecordBroadcast(s: State, i: i64, at: i64): (t: State) {
    if i !in s.payouts || s.payouts[i].broadcastAt.Some? then s
    else UpdatePayout(s, i, s.payouts[i].(broadcastAt := Some(at)))
  }

  function RecordConfirmations(s: State, i: i64, n: i64, hash: Option<Hash32>, height: Option<i64>): (t: State) {
    if i !in s.payouts then s else
      var p := s.payouts[i];
      UpdatePayout(s, i, p.(confirmations := n, minedHash := if hash.Some? then hash else p.minedHash,
                            minedHeight := if height.Some? then height else p.minedHeight))
  }

  function RecordOnchainCompletion(s: State, i: i64, signature: Option<string>, at: i64): (t: State) {
    if i !in s.payouts then s else UpdatePayout(s, i, s.payouts[i].(onchainAt := Some(at), onchainSignature := signature))
  }

  function Txid(p: Payout): (r: Option<Hash32>) { if p.signed.Some? then Some(p.signed.value.txid) else None }

  function CompletePayout(s: State, i: i64, at: i64): (r: (State, bool)) {
    if i !in s.payouts || i !in s.withdrawals then (s, false) else
      var p := s.payouts[i];
      var held := HeldBy(s, i);
      var spent := map o | o in s.utxos :: if o in held
                     then s.utxos[o].(state := Spent, spentBy := Txid(p), reservedBy := None, reservedAt := None)
                     else s.utxos[o];
      var s' := UpdatePayout(s, i, p.(completedAt := Some(at))).(utxos := spent);
      (Logged(SetState(s', i, Completed, None),
              Plain(i, Some(Confirming), Completed, at, Some("payout confirmed at required depth"))), true)
  }

  predicate Recorded(s: State, i: i64, attempt: u32) {
    exists k :: 0 <= k < |s.history| && s.history[k].index == i && s.history[k].attempt == attempt
  }

  /** `next` is the designation without its attempt, which is always the old
      one plus one. */
  function ReassignQuorum(s: State, i: i64, next: Designation, reason: string, at: i64): (r: (State, Result<u32, DbError>)) {
    if Blank(reason) then (s, Err(OperatorNoteRequired))
    else if i !in s.payouts then (s, Err(MissingPayout))
    else
      var p := s.payouts[i];
      var d := p.designation;
      if p.signed.Some? then (s, Err(ReservationInvalid))
      else if d.attempt == 0xFFFF_FFFF then (s, Err(ReservationInvalid))
      else if Recorded(s, i, d.attempt) then (s, Err(ConstraintViolation))
      else
        var s' := UpdatePayout(s, i, p.(designation := next.(attempt := d.attempt + 1)));
        (Logged(s'.(history := s.history + [HistoryRow(i, d.attempt, d.quorum, d.commitment, at, reason)]),
                Plain(i, Some(Signing), Signing, at, Some("quorum reassigned: " + reason))),
         Ok(d.attempt + 1))
  }

  // ------------------------------------------------------- the signing guard

  datatype SignableInput = SignableInput(coin: Coin, script: string, confirmations: i64)

  /** What the guard hands out to be signed; nothing else of the row goes with it. */
  datatype SignablePayout = SignablePayout(
    index: i64, unsignedTx: string, payout: u64, fee: u64, change: u64, changeAddress: Option<string>, dest: Hash20,
    vault: Hash20, quorum: seq<byte>, attempt: u32, inputs: seq<SignableInput>, commitment: Hash32, intent: seq<byte>)

  datatype Verdict =
    | Sign(payout: SignablePayout)
    | Halt(reason: string, error: DbError, expected: Option<seq<byte>>, recomputed: Option<seq<byte>>, differing: Option<seq<Field>>)
    | Refuse(refusal: DbError)

  function PlainHalt(reason: string, error: DbError): (r: Verdict) { Halt(reason, error, None, None, None) }

  /** No change address means no change output, committed to as zeroes. */
  function ChangeHash(env: Env, t: Terms): (r: Option<Hash20>) {
    match t.changeAddress
    case None => Some(ZERO20)
    case Some(a) => env.decodeAddress(a)
  }

  function IntentOf(w: Withdrawal, i: i64, t: Terms, changeHash: Hash20, d: Designation): (r: Intent) {
    Intent(w.version, i, t.vault, w.hash160, t.payout, t.fee, t.change, changeHash, d.attempt, d.quorum, t.inputs)
  }

  function InputProblem(utxos: map<Outpoint, Utxo>, i: i64, c: Coin): (r: Option<string>) {
    if c.outpoint !in utxos then Some("reserved_utxo_no_longer_exists") else
      var u := utxos[c.outpoint];
      if u.state != Reserved then Some("reserved_utxo_not_reserved")
      else if u.reservedBy != Some(i) then Some("reservation_belongs_to_another_withdrawal")
      else if u.amount != c.amount then Some("reserved_utxo_amount_changed")
      else None
  }

  /** The first committed input that no longer backs the payout. */
  function FirstProblem(utxos: map<Outpoint, Utxo>, i: i64, coins: seq<Coin>): (r: Option<string>)
    ensures r.None? <==> forall k :: 0 <= k < |coins| ==> InputProblem(utxos, i, coins[k]).None?
  {
    if coins == [] then None else
      var first := InputProblem(utxos, i, coins[0]);
      if first.Some? then
        assert InputProblem(utxos, i, coins[0]).Some?;
        first
      else
        assert forall k :: 0 <= k < |coins[1..]| ==> coins[1..][k] == coins[k + 1];
        assert forall k :: 1 <= k < |coins| ==> coins[k] == coins[1..][k - 1];
        FirstProblem(utxos, i, coins[1..])
  }

  function LoadInputs(utxos: map<Outpoint, Utxo>, coins: seq<Coin>): (ins: seq<SignableInput>)
    requires forall k :: 0 <= k < |coins| ==> coins[k].outpoint in utxos
    ensures |ins| == |coins|
    ensures forall k :: 0 <= k < |ins| ==> ins[k].coin == coins[k]
    ensures forall k :: 0 <= k < |ins| ==> ins[k].script == utxos[ins[k].coin.outpoint].script
    ensures forall k :: 0 <= k < |ins| ==> ins[k].confirmations == utxos[ins[k].coin.outpoint].confirmations
  {
    seq(|coins|, k requires 0 <= k < |coins| =>
      SignableInput(coins[k], utxos[coins[k].outpoint].script, utxos[coins[k].outpoint].confirmations))
  }

  /** The checks that follow once the inputs are known to be held: the two
      commitment comparisons and the burned amount. */
  function JudgeCommitment(env: Env, s: State, i: i64): (v: Verdict)
    requires i in s.withdrawals && i in s.payouts
    requires forall k :: 0 <= k < |s.payouts[i].terms.inputs| ==> s.payouts[i].terms.inputs[k].outpoint in s.utxos
  {
    var w, t, d := s.withdrawals[i], s.payouts[i].terms, s.payouts[i].designation;
    match ChangeHash(env, t)
    case None => Refuse(PayoutIntegrityMismatch)
    case Some(change) =>
      var recomputed := Encode(IntentOf(w, i, t, change, d));
      if env.sha(d.intent) != d.commitment then
        Halt("payout_commitment_self_inconsistent", PayoutIntegrityMismatch, Some(d.commitment), Some(env.sha(d.intent)), None)
      else if recomputed != d.intent then
        Halt("payout_commitment_mismatch", PayoutIntegrityMismatch, Some(d.commitment), Some(env.sha(recomputed)),
             DiffPayoutFields(recomputed, d.intent))
      else if t.payout != w.amount then
        PlainHalt("payout_amount_not_equal_to_burned_amount", PayoutIntegrityMismatch)
      else
        Sign(SignablePayout(i, d.unsignedTx, t.payout, t.fee, t.change, t.changeAddress, w.hash160, t.vault, d.quorum,
                            d.attempt, LoadInputs(s.utxos, t.inputs), d.commitment, recomputed))
  }

  function Judge(env: Env, s: State, i: i64): (v: Verdict) {
    if i !in s.withdrawals then Refuse(WithdrawalNotFound)
    else if i !in s.payouts then Refuse(MissingPayout)
    else
      var p := s.payouts[i];
      if p.completedAt.Some? then PlainHalt("payout_already_completed", PayoutAlreadyCompleted)
      else if p.confirmations > 0 then PlainHalt("payout_already_confirmed", PayoutAlreadyConfirmed)
      else if p.signed.Some? then PlainHalt("payout_already_signed", PayoutAlreadyConfirmed)
      else if p.terms.inputs == [] then PlainHalt("payout_has_no_committed_inputs", ReservationInvalid)
      else
        match FirstProblem(s.utxos, i, p.terms.inputs)
        case Some(reason) => PlainHalt(reason, ReservationInvalid)
        case None =>
          assert forall k :: 0 <= k < |p.terms.inputs| ==> InputProblem(s.utxos, i, p.terms.inputs[k]).None?;
          JudgeCommitment(env, s, i)
  }

  /** The halt is committed even though the call fails; a refusal commits
      nothing. Note that the state is set whatever it was before, so even a
      completed withdrawal is moved to `IntegrityHalted`. */
  function AfterVerdict(s: State, i: i64, v: Verdict, at: i64): (r: (State, Result<SignablePayout, DbError>))
    requires v.Halt? ==> i in s.withdrawals
  {
    match v
    case Sign(p) => (s, Ok(p))
    case Refuse(e) => (s, Err(e))
    case Halt(reason, e, expected, recomputed, differing) =>
      (Logged(SetState(s, i, IntegrityHalted, Some(reason)),
              LogRow(i, Some(s.withdrawals[i].state), IntegrityHalted, at, Some(reason), expected, recomputed, differing)),
       Err(e))
  }

  function VerifyAndLoad(env: Env, s: State, i: i64, at: i64): (r: (State, Result<SignablePayout, DbError>)) {
    AfterVerdict(s, i, Judge(env, s, i), at)
  }

  // ------------------------------------------------------------ one step

  datatype Op =
    | Observe(w: NewWithdrawal)
    | Transition(i: i64, to: WState, at: i64, why: Option<string>)
    | ClearHalt(i: i64, to: WState, note: string, at: i64)
    | Sync(observed: seq<ObservedUtxo>, minConfirmations: i64, at: i64)
    | MarkMissing(present: seq<Hash32>)
    | Reserve(i: i64, outs: seq<Outpoint>, at: i64)
    | Release(i: i64)
    | Create(p: NewPayout)
    | Guard(i: i64, at: i64)
    | Signed(i: i64, hex: string, txid: Hash32, at: i64)
    | Broadcasted(i: i64, at: i64)
    | Confirmations(i: i64, n: i64, hash: Option<Hash32>, height: Option<i64>)
    | Complete(i: i64, at: i64)
    | Reassign(i: i64, next: Designation, reason: string, at: i64)
    | OnchainCompletion(i: i64, signature: Option<string>, at: i64)

  function Step(env: Env, s: State, op: Op): (t: State) {
    match op
    case Observe(w) => ObserveWithdrawal(s, w).0
    case Transition(i, to, at, reason) => TransitionWithdrawal(s, i, to, at, reason).0
    case ClearHalt(i, to, note, at) => OperatorClearHalt(s, i, to, note, at).0
    case Sync(observed, min, at) => SyncVaultUtxos(s, observed, min, at)
    case MarkMissing(present) => MarkMissingSpent(s, present).0
    case Reserve(i, outs, at) => ReserveUtxos(s, i, outs, at).0
    case Release(i) => ReleaseReservation(s, i).0
    case Create(p) => CreatePayout(s, p).0
    case Guard(i, at) => VerifyAndLoad(env, s, i, at).0
    case Signed(i, hex, txid, at) => RecordSigned(s, i, hex, txid, at).0
    case Broadcasted(i, at) => RecordBroadcast(s, i, at)
    case Confirmations(i, n, hash, height) => RecordConfirmations(s, i, n, hash, height)
    case Complete(i, at) => CompletePayout(s, i, at).0
    case Reassign(i, next, reason, at) => ReassignQuorum(s, i, next, reason, at).0
    case OnchainCompletion(i, signature, at) => RecordOnchainCompletion(s, i, signature, at)
  }

  /** The state after a whole sequence of operations, in order. */
  function Run(env: Env, s: State, ops: seq<Op>): (t: State)
    decreases |ops|
  {
    if ops == [] then s else Run(env, Step(env, s, ops[0]), ops[1..])
  }
}
