/** What a validator attests as a completed withdrawal: only a payout it
    completed itself, and never two different ones. */
module Completion {
  import opened Bytes
  import opened Wrappers
  import opened WithdrawalStore
  import opened WithdrawalInvariants
  import opened WithdrawalRuns
  import opened WithdrawalContracts
  import Hex

  datatype TxStatus = TxStatus(confirmations: i64, height: Option<i64>)

  /** The node's answer about one transaction: it may be down, or not know it. */
  datatype NodeAnswer = Down | Unknown | Found(status: TxStatus)

  datatype Refusal =
    | IndexOutOfRange | UnknownWithdrawal | NotLocallyCompleted(state: WState) | NoPayout | MalformedLocalState
    | TxidMismatch(requested: string, paid: string) | NodeUnavailable | PayoutUnknownToNode
    | InsufficientConfirmations(confirmations: i64) | HeightMismatch(observed: u64)

  datatype Attestation = Attestation(index: u64, txid: Hash32, height: u64, amount: u64, destination: Hash32)

  datatype Request = Request(index: u64, txid: Hash32, height: u64)

  /** A transaction id in the byte order wallets display. */
  function Reversed(h: Hash32): (r: Hash32)
    ensures forall k :: 0 <= k < 32 ==> r[k] == h[31 - k]
  {
    seq(32, k requires 0 <= k < 32 => h[31 - k])
  }

  /** A Rust `as u64` cast from a signed 64-bit integer. */
  function AsU64(x: i64): u64 { if x < 0 then x + 0x1_0000_0000_0000_0000 else x }

  /** The cast keeps the 64 bits. */
  lemma CastKeepsBits(x: i64)
    ensures LE64(AsU64(x)) == LEi64(x)
  {
  }

  function ObservedHeight(status: TxStatus): u64 { if status.height == None then 0 else AsU64(status.height.value) }

  function Attest(s: State, addressHash: string -> Hash32, depth: i64, node: NodeAnswer, r: Request)
    : (a: Result<Attestation, Refusal>)
  {
    if r.index >= 0x8000_0000_0000_0000 then Err(IndexOutOfRange)
    else if r.index !in s.withdrawals then Err(UnknownWithdrawal)
    else
      var w := s.withdrawals[r.index];
      if w.state != Completed then Err(NotLocallyCompleted(w.state))
      else if r.index !in s.payouts then Err(NoPayout)
      else
        var p := s.payouts[r.index];
        if p.signed == None then Err(MalformedLocalState)
        else
          var paid, requested := Hex.Encode(p.signed.value.txid), Hex.Encode(Reversed(r.txid));
          if requested != paid then Err(TxidMismatch(requested, paid))
          else
            match node
            case Down => Err(NodeUnavailable)
            case Unknown => Err(PayoutUnknownToNode)
            case Found(status) =>
              if status.confirmations < depth then Err(InsufficientConfirmations(status.confirmations))
              else if ObservedHeight(status) != r.height then Err(HeightMismatch(ObservedHeight(status)))
              else Ok(Attestation(r.index, r.txid, r.height, w.amount, addressHash(w.address)))
  }

  lemma ReversedTwice(h: Hash32)
    ensures Reversed(Reversed(h)) == h
  {
  }

  /** The attestation repeats the request, and its txid, amount and destination
      are those of the validator's own tables. */
  predicate AttestsTo(s: State, addressHash: string -> Hash32, r: Request, a: Attestation) {
    && r.index in s.withdrawals && r.index in s.payouts && s.payouts[r.index].signed.Some?
    && a.index == r.index && a.txid == r.txid && a.height == r.height
    && Reversed(a.txid) == s.payouts[r.index].signed.value.txid
    && a.amount == s.withdrawals[r.index].amount
    && a.destination == addressHash(s.withdrawals[r.index].address)
  }

  /** A validator attests exactly when its own tables say the withdrawal is
      completed by the transaction requested, and its own node sees that
      transaction deep enough, at the height requested; and then it attests to
      that payment. */
  lemma AttestsExactly(s: State, addressHash: string -> Hash32, depth: i64, node: NodeAnswer, r: Request)
    ensures Attest(s, addressHash, depth, node, r).Ok? <==>
              && r.index in s.withdrawals && s.withdrawals[r.index].state == Completed
              && r.index in s.payouts && s.payouts[r.index].signed.Some?
              && Reversed(r.txid) == s.payouts[r.index].signed.value.txid
              && node.Found? && node.status.confirmations >= depth && ObservedHeight(node.status) == r.height
    ensures var a := Attest(s, addressHash, depth, node, r); a.Ok? ==> AttestsTo(s, addressHash, r, a.value)
  {
    if r.index in s.payouts && s.payouts[r.index].signed.Some? {
      var paid, requested := s.payouts[r.index].signed.value.txid, Reversed(r.txid);
      if Hex.Encode(requested) == Hex.Encode(paid) {
        Hex.EncodeInjective(requested, paid);
      }
    }
  }

  /** The tables that decide an attestation of withdrawal `i`, once it is signed. */
  lemma SignedRunKeeps(env: Env, s: State, ops: seq<Op>, i: i64)
    requires Consistent(s) && i in s.withdrawals && i in s.payouts && s.payouts[i].signed.Some?
    ensures var t := Run(env, s, ops);
            && i in t.withdrawals && i in t.payouts && t.payouts[i].signed == s.payouts[i].signed
            && t.withdrawals[i].amount == s.withdrawals[i].amount && t.withdrawals[i].address == s.withdrawals[i].address
  {
    RunGood(env, s, ops);
    SignedIsFinal(env, s, ops, i, 0);
    var t := Run(env, s, ops);
    hide Run, Consistent, VerifyAndLoad, ReassignQuorum;
    assert SameRequest(s.withdrawals[i], t.withdrawals[i]);
  }

  /** Over any run, whatever nodes answer and requesters ask: two attestations
      for one withdrawal name the same payout, amount and destination. Only the
      height may differ, when the payout was re-mined in between. */
  lemma NeverTwoPayouts(
      env: Env, ops: seq<Op>, j: nat, k: nat, addressHash: string -> Hash32, depth: i64,
      node: NodeAnswer, r: Request, node': NodeAnswer, r': Request)
    requires j <= k <= |ops| && r.index == r'.index
    requires var a := Attest(Run(env, EMPTY, ops[..j]), addressHash, depth, node, r);
             var b := Attest(Run(env, EMPTY, ops[..k]), addressHash, depth, node', r');
             a.Ok? && b.Ok?
    ensures var a := Attest(Run(env, EMPTY, ops[..j]), addressHash, depth, node, r).value;
            var b := Attest(Run(env, EMPTY, ops[..k]), addressHash, depth, node', r').value;
            && a.index == b.index == r.index
            && a.txid == b.txid == r.txid == r'.txid && a.amount == b.amount && a.destination == b.destination
            && var paid, w := Run(env, EMPTY, ops[..k]).payouts, Run(env, EMPTY, ops[..k]).withdrawals;
            && r.index in paid && r.index in w && paid[r.index].signed.Some?
            && Reversed(b.txid) == paid[r.index].signed.value.txid
            && b.amount == w[r.index].amount && b.destination == addressHash(w[r.index].address)
  {
    var s, t := Run(env, EMPTY, ops[..j]), Run(env, EMPTY, ops[..k]);
    assert t == Run(env, s, ops[j..k]) by {
      RunSplit(env, EMPTY, ops[..k], j);
      assert ops[..k][..j] == ops[..j] && ops[..k][j..] == ops[j..k];
    }
    assert Consistent(s) by { RunGood(env, EMPTY, ops[..j]); }
    AttestsExactly(s, addressHash, depth, node, r);
    AttestsExactly(t, addressHash, depth, node', r');
    hide Run, Consistent;
    SignedRunKeeps(env, s, ops[j..k], r.index);
    ReversedTwice(r.txid);
    ReversedTwice(r'.txid);
  }

  /** The heights agree exactly when the two node answers do. */
  lemma HeightsAgreeExactly(
      s: State, t: State, addressHash: string -> Hash32, depth: i64, node: NodeAnswer, r: Request, node': NodeAnswer, r': Request)
    requires Attest(s, addressHash, depth, node, r).Ok? && Attest(t, addressHash, depth, node', r').Ok?
    ensures node.Found? && node'.Found?
    ensures Attest(s, addressHash, depth, node, r).value.height == Attest(t, addressHash, depth, node', r').value.height
            <==> ObservedHeight(node.status) == ObservedHeight(node'.status)
  {
    AttestsExactly(s, addressHash, depth, node, r);
    AttestsExactly(t, addressHash, depth, node', r');
  }

  /** And they may differ: the validator attests the same payout again at
      whatever height its node next reports for it. */
  lemma ReminedIsAttestedAgain(
      s: State, addressHash: string -> Hash32, depth: i64, node: NodeAnswer, r: Request, confirmations: i64, height: i64)
    requires Attest(s, addressHash, depth, node, r).Ok? && confirmations >= depth
    ensures Attest(s, addressHash, depth, Found(TxStatus(confirmations, Some(height))), r.(height := AsU64(height)))
            == Ok(Attest(s, addressHash, depth, node, r).value.(height := AsU64(height)))
  {
    AttestsExactly(s, addressHash, depth, node, r);
    AttestsExactly(s, addressHash, depth, Found(TxStatus(confirmations, Some(height))), r.(height := AsU64(height)));
  }

  /** When the executor keeps its rules, what is attested was really paid: the
      amount of the signed payout, out of coins that are spent and that no
      other payout names. */
  lemma AttestedWasPaid(
      env: Env, ops: seq<Op>, addressHash: string -> Hash32, depth: i64, node: NodeAnswer, r: Request)
    requires RunKeepsRules(env, EMPTY, ops)
    requires Attest(Run(env, EMPTY, ops), addressHash, depth, node, r).Ok?
    ensures var t := Run(env, EMPTY, ops);
            && r.index in t.payouts
            && Attest(t, addressHash, depth, node, r).value.amount == t.payouts[r.index].terms.payout
            && InputsSpent(t, r.index) && t.payouts[r.index].terms.inputs != []
            && (forall j :: j in t.payouts && j != r.index ==>
                  Disjoint(t.payouts[r.index].terms.inputs, t.payouts[j].terms.inputs))
  {
    var t := Run(env, EMPTY, ops);
    AttestsExactly(t, addressHash, depth, node, r);
    hide Run, RunKeepsRules;
    CompletedWasPaidOnce(env, ops, r.index);
  }

  /** Under those rules the two refusals that would mean a damaged row never
      occur. */
  lemma LocalStateIsNeverMalformed(
      env: Env, ops: seq<Op>, addressHash: string -> Hash32, depth: i64, node: NodeAnswer, r: Request)
    requires RunKeepsRules(env, EMPTY, ops)
    ensures var a := Attest(Run(env, EMPTY, ops), addressHash, depth, node, r);
            a != Err(NoPayout) && a != Err(MalformedLocalState)
  {
    var t := Run(env, EMPTY, ops);
    if r.index < 0x8000_0000_0000_0000 && r.index in t.withdrawals && t.withdrawals[r.index].state == Completed {
      CompletedWasPaidOnce(env, ops, r.index);
    }
  }
}
