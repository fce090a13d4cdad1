/** Asking the federation for signatures: whatever the network answers, only
    verified answers of the peers themselves count, and the round ends with
    enough of them or with every peer accounted for. */
module Collector {
  import opened Bytes
  import opened Wrappers
  import opened Rounds
  import opened Peers

  /** A peer's answer to a signing request. */
  datatype SignResponse = SignResponse(validator: seq<byte>, signature: seq<byte>)

  datatype PayoutResponse = PayoutResponse(validator: seq<byte>, vault: seq<byte>, signatures: seq<seq<byte>>)

  /** What a call to a peer can come back with. */
  datatype Reply<T> = Unreachable(why: string) | PolicyRefusal(why: string) | Answered(response: T)

  datatype DesignatedSigner = DesignatedSigner(key: Hash32, vault: seq<byte>)

  datatype Partial = Partial(vault: seq<byte>, signatures: seq<seq<byte>>)

  const SIGNATURE_LEN := 64
  const VAULT_KEY_LEN := 33
  /** `Signature::default()`: a partial is verified later, when it is assembled. */
  const MARKER: Signature := ZERO32 + ZERO32

  type Verifier = (Hash32, seq<byte>, seq<byte>) -> bool

  /** The answer must come from the identity the endpoint is registered as,
      and its signature must verify over the message asked about. */
  function Accept(verifies: Verifier, expected: Hash32, message: seq<byte>, r: SignResponse): Result<(Hash32, Signature), string> {
    if |r.validator| != 32 then Err("response carried a malformed validator pubkey")
    else if r.validator != expected then Err("endpoint answered as another identity")
    else if |r.signature| != SIGNATURE_LEN then Err("response carried a malformed signature")
    else if !verifies(expected, message, r.signature) then Err("signature does not verify over the requested message")
    else Ok((expected, r.signature))
  }

  function AcceptPayout(expected: Hash32, designated: DesignatedSigner, r: PayoutResponse): Result<Partial, string> {
    if |r.validator| != 32 then Err("response carried a malformed validator pubkey")
    else if r.validator != expected then Err("endpoint answered as another identity")
    else if |r.vault| != VAULT_KEY_LEN then Err("response carried a malformed vault pubkey")
    else if r.vault != designated.vault then Err("answered with a vault key it was not designated for")
    else if r.signatures == [] then Err("response carried no signatures")
    else if exists k :: 0 <= k < |r.signatures| && r.signatures[k] == [] then Err("response carried an empty signature")
    else Ok(Partial(r.vault, r.signatures))
  }

  /** What a counted signature is worth: it verifies, for the very peer it is
      counted for. */
  lemma AcceptedExactly(verifies: Verifier, expected: Hash32, message: seq<byte>, r: SignResponse, key: Hash32, sig: Signature)
    ensures Accept(verifies, expected, message, r) == Ok((key, sig)) <==>
              && key == expected && r == SignResponse(expected, sig) && |sig| == SIGNATURE_LEN && verifies(expected, message, sig)
  {
  }

  /** A partial usable for this signer: its own vault key, and no empty signature. */
  predicate UsablePartial(d: DesignatedSigner, p: Partial) {
    p.vault == d.vault && |p.vault| == VAULT_KEY_LEN && p.signatures != [] && forall k :: 0 <= k < |p.signatures| ==> p.signatures[k] != []
  }

  lemma AcceptedPartialExactly(expected: Hash32, d: DesignatedSigner, r: PayoutResponse, p: Partial)
    ensures AcceptPayout(expected, d, r) == Ok(p) <==>
              r == PayoutResponse(expected, p.vault, p.signatures) && UsablePartial(d, p)
  {
  }

  function SignerKeys(ds: seq<DesignatedSigner>): (keys: seq<Hash32>)
    ensures |keys| == |ds| && forall k :: 0 <= k < |keys| ==> keys[k] == ds[k].key
  {
    seq(|ds|, k requires 0 <= k < |ds| => ds[k].key)
  }

  /** Every signature counted is a verified one of a configured peer. */
  ghost predicate AllVerified(verifies: Verifier, peers: seq<Endpoint>, message: seq<byte>, signatures: seq<(Hash32, Signature)>) {
    forall k :: 0 <= k < |signatures| ==>
      signatures[k].0 in Keys(peers) && verifies(signatures[k].0, message, signatures[k].1)
  }

  /** The partials and the signers counted for them correspond one to one, and
      each partial is usable for the signer it is counted for. */
  ghost predicate PartialsMatch(ds: seq<DesignatedSigner>, signatures: seq<(Hash32, Signature)>, partials: seq<Partial>) {
    |partials| == |signatures| && forall k :: 0 <= k < |partials| ==> FromSigner(ds, signatures[k].0, partials[k])
  }

  predicate FromSigner(ds: seq<DesignatedSigner>, key: Hash32, p: Partial) {
    exists j :: 0 <= j < |ds| && ds[j].key == key && UsablePartial(ds[j], p)
  }

  class Federation {
    const peers: seq<Endpoint>
    const verifies: Verifier

    predicate Valid() { DistinctKeys(peers) }

    constructor (peers: seq<Endpoint>, verifies: Verifier)
      requires DistinctKeys(peers)
      ensures Valid() && this.peers == peers && this.verifies == verifies
    {
      this.peers, this.verifies := peers, verifies;
    }

    /** The network may answer anything. */
    method Call(uri: string) returns (r: Reply<SignResponse>)
    {
      r := *;
    }

    method CallPayout(uri: string) returns (r: Reply<PayoutResponse>)
    {
      r := *;
    }

    method Find(key: Hash32) returns (found: Option<Endpoint>)
      ensures found.Some? ==> found.value in peers && found.value.key == key
      ensures found == None ==> key !in Keys(peers)
    {
      for k := 0 to |peers|
        invariant forall j :: 0 <= j < k ==> peers[j].key != key
      {
        if peers[k].key == key {
          return Some(peers[k]);
        }
      }
      assert forall j :: 0 <= j < |peers| ==> Keys(peers)[j] == peers[j].key;
      found := None;
    }

    method Ask(peer: Endpoint, message: seq<byte>) returns (outcome: Outcome)
      requires Valid()
      ensures outcome.Signed? ==> verifies(peer.key, message, outcome.signature)
    {
      var reply := Call(peer.uri);
      match reply {
        case Unreachable(why) => outcome := Outcome.Unavailable(why);
        case PolicyRefusal(why) => outcome := Outcome.Refused(why);
        case Answered(response) =>
          hide Accept;
          var accepted := Accept(verifies, peer.key, message, response);
          if accepted.Ok? {
            AcceptedExactly(verifies, peer.key, message, response, accepted.value.0, accepted.value.1);
          }
          outcome := if accepted.Ok? then Signed(accepted.value.1) else Outcome.Unavailable(accepted.error);
      }
    }

    method AskPayout(peer: Endpoint, d: DesignatedSigner) returns (r: Result<Partial, Outcome>)
      ensures r.Ok? ==> UsablePartial(d, r.value)
      ensures r.Err? ==> !r.error.Signed?
    {
      var reply := CallPayout(peer.uri);
      match reply {
        case Unreachable(why) => r := Err(Outcome.Unavailable(why));
        case PolicyRefusal(why) => r := Err(Outcome.Refused(why));
        case Answered(response) =>
          hide AcceptPayout, UsablePartial;
          var accepted := AcceptPayout(peer.key, d, response);
          if accepted.Ok? {
            AcceptedPartialExactly(peer.key, d, response, accepted.value);
          }
          r := if accepted.Ok? then Ok(accepted.value) else Err(Outcome.Unavailable(accepted.error));
      }
    }

    /** One round over all peers, in seed order. It stops as soon as the
        threshold is met, or else leaves every peer recorded exactly once. */
    method Collect(threshold: nat, seed: u64, message: seq<byte>) returns (round: Round)
      requires Valid()
      ensures fresh(round) && round.Valid() && Distinct(round.asked)
      ensures round.asked <= AskOrder(Keys(peers), seed)
      ensures AllVerified(verifies, peers, message, round.signatures) && round.UniqueSigners() == |round.signatures| <= threshold
      ensures round.Reached(threshold) || multiset(round.asked) == multiset(Keys(peers))
    {
      round := new Round();
      var identities := Keys(peers);
      var order := AskOrder(identities, seed);
      AskOrderIsPermutation(identities, seed);
      assert Distinct(order);
      hide AskOrder, AllVerified, Distinct, DistinctKeys, Keys, Names, Members, Tallied;
      NoneVerified(verifies, peers, message);
      var late := false;
      var k := 0;
      SignersAreDistinct(round);
      while k < |order| && !round.Reached(threshold)
        invariant 0 <= k <= |order| && round.Valid() && fresh(round)
        invariant round.asked == order[..k]
        invariant AllVerified(verifies, peers, message, round.signatures)
        invariant Distinct(round.asked) && round.UniqueSigners() == |round.signatures| <= threshold
      {
        var key := order[k];
        assert order[..k + 1] == order[..k] + [key];
        AskedAreListed(order, identities, k);
        var found := Find(key);
        var past: bool := *;
        late := late || past;
        var outcome;
        if found == None {
          assert false;
        } else if late {
          outcome := Outcome.Unavailable("round timeout");
        } else {
          outcome := Ask(found.value, message);
        }
        VerifiedPush(verifies, peers, message, round.signatures, key, outcome);
        round.Record(key, outcome);
        k := k + 1;
        AskedInOrder(order, round.asked);
        SignersAreDistinct(round);
      }
      assert k == |order| ==> order[..k] == order;
    }

    /** A payout round asks exactly the designated signers, each once, in
        order: a signer that cannot be reached is a shortfall, never replaced. */
    method CollectPayoutSignatures(message: seq<byte>, designated: seq<Hash32>) returns (round: Round)
      requires Valid()
      ensures fresh(round) && round.Valid() && round.asked == designated
      ensures AllVerified(verifies, peers, message, round.signatures)
      ensures forall k :: 0 <= k < |round.signatures| ==> round.signatures[k].0 in designated
      ensures Distinct(designated) ==> Distinct(Names(round.signatures))
    {
      round := new Round();
      hide AllVerified, Distinct;
      NoneVerified(verifies, peers, message);
      var late := false;
      for k := 0 to |designated|
        invariant round.Valid() && fresh(round) && round.asked == designated[..k]
        invariant AllVerified(verifies, peers, message, round.signatures)
        invariant forall j :: 0 <= j < |round.signatures| ==> round.signatures[j].0 in designated
      {
        var key := designated[k];
        var found := Find(key);
        var past: bool := *;
        late := late || past;
        var outcome;
        if found == None {
          outcome := Outcome.Unavailable("designated signer is not a configured peer");
        } else if late {
          outcome := Outcome.Unavailable("round timeout");
        } else {
          outcome := Ask(found.value, message);
          InKeys(peers, found.value);
        }
        VerifiedPush(verifies, peers, message, round.signatures, key, outcome);
        round.Record(key, outcome);
        assert designated[..k + 1] == designated[..k] + [key];
      }
      assert designated[..|designated|] == designated;
      if Distinct(designated) {
        DistinctSigners(round);
      }
    }

    /** One signer's partial, or why there is none; the round counts it under
        the signer's federation identity. */
    method CollectOne(round: Round, d: DesignatedSigner, ghost ds: seq<DesignatedSigner>, partials: seq<Partial>, late: bool)
      returns (more: seq<Partial>)
      requires round.Valid() && d in ds && PartialsMatch(ds, round.signatures, partials)
      modifies round
      ensures round.Valid() && round.asked == old(round.asked) + [d.key] && PartialsMatch(ds, round.signatures, more)
      ensures |partials| <= |more| <= |partials| + 1
      ensures d.key !in Keys(peers) || late ==> more == partials
    {
      hide UsablePartial;
      more := partials;
      var found := Find(d.key);
      var outcome;
      if found == None {
        outcome := Outcome.Unavailable("signer is not a configured peer");
      } else if late {
        outcome := Outcome.Unavailable("round timeout");
      } else {
        assert found.value.key in Keys(peers) by { InKeys(peers, found.value); }
        var answer := AskPayout(found.value, d);
        if answer.Ok? {
          outcome := Signed(MARKER);
          more := partials + [answer.value];
          assert FromSigner(ds, d.key, answer.value) by {
            var j :| 0 <= j < |ds| && ds[j] == d;
          }
        } else {
          outcome := answer.error;
        }
      }
      round.Record(d.key, outcome);
    }

    /** Vault partials from the designated quorum, and from no one else. */
    method CollectPayoutPartials(designated: seq<DesignatedSigner>) returns (partials: seq<Partial>, round: Round)
      requires Valid()
      ensures fresh(round) && round.Valid() && round.asked == SignerKeys(designated)
      ensures PartialsMatch(designated, round.signatures, partials)
      ensures Distinct(SignerKeys(designated)) ==> Distinct(Names(round.signatures))
    {
      hide PartialsMatch;
      round := new Round();
      partials := [];
      NoPartials(designated);
      var late := false;
      for k := 0 to |designated|
        invariant round.Valid() && fresh(round) && round.asked == SignerKeys(designated)[..k]
        invariant PartialsMatch(designated, round.signatures, partials)
      {
        var past: bool := *;
        late := late || past;
        partials := CollectOne(round, designated[k], designated, partials, late);
        assert SignerKeys(designated)[..k + 1] == SignerKeys(designated)[..k] + [designated[k].key];
      }
      assert SignerKeys(designated)[..|designated|] == SignerKeys(designated);
      if Distinct(SignerKeys(designated)) {
        DistinctSigners(round);
      }
    }

    /** A sweep asks the vault signers in order until it has enough partials:
        never more than the threshold, and fewer only when all were asked. */
    method CollectSweepPartials(signers: seq<DesignatedSigner>, threshold: nat) returns (partials: seq<Partial>, round: Round)
      requires Valid()
      ensures fresh(round) && round.Valid() && round.asked <= SignerKeys(signers)
      ensures PartialsMatch(signers, round.signatures, partials)
      ensures Distinct(SignerKeys(signers)) ==> Distinct(Names(round.signatures))
      ensures |partials| <= threshold && (|partials| < threshold ==> round.asked == SignerKeys(signers))
    {
      hide PartialsMatch;
      round := new Round();
      partials := [];
      NoPartials(signers);
      var late := false;
      var k := 0;
      while k < |signers| && |partials| < threshold
        invariant 0 <= k <= |signers| && |partials| <= threshold
        invariant round.Valid() && fresh(round) && round.asked == SignerKeys(signers)[..k]
        invariant PartialsMatch(signers, round.signatures, partials)
      {
        var past: bool := *;
        late := late || past;
        partials := CollectOne(round, signers[k], signers, partials, late);
        assert SignerKeys(signers)[..k + 1] == SignerKeys(signers)[..k] + [signers[k].key];
        k := k + 1;
      }
      assert k == |signers| ==> SignerKeys(signers)[..k] == SignerKeys(signers);
      if Distinct(SignerKeys(signers)) {
        AskedInOrder(SignerKeys(signers), round.asked);
        DistinctSigners(round);
      }
    }
  }

  lemma AskedAreListed(order: seq<Hash32>, keys: seq<Hash32>, k: nat)
    requires multiset(order) == multiset(keys) && k < |order|
    ensures order[k] in keys
  {
    assert order[k] in multiset(order);
  }

  lemma NoneVerified(verifies: Verifier, peers: seq<Endpoint>, message: seq<byte>)
    ensures AllVerified(verifies, peers, message, [])
  {
  }

  lemma VerifiedPush(
      verifies: Verifier, peers: seq<Endpoint>, message: seq<byte>, signatures: seq<(Hash32, Signature)>, key: Hash32,
      outcome: Outcome)
    requires AllVerified(verifies, peers, message, signatures)
    requires outcome.Signed? ==> key in Keys(peers) && verifies(key, message, outcome.signature)
    ensures AllVerified(verifies, peers, message, signatures + (if outcome.Signed? then [(key, outcome.signature)] else []))
  {
  }

  lemma InKeys(peers: seq<Endpoint>, p: Endpoint)
    requires p in peers
    ensures p.key in Keys(peers)
  {
    var j :| 0 <= j < |peers| && peers[j] == p;
    assert Keys(peers)[j] == p.key;
  }

  lemma NoPartials(ds: seq<DesignatedSigner>)
    ensures PartialsMatch(ds, [], [])
  {
  }

  /** A peer asked once is counted at most once. */
  lemma DistinctSigners(r: Round)
    requires r.Valid() && Distinct(r.asked)
    ensures Distinct(Names(r.signatures))
  {
    var signers := Names(r.signatures);
    DistinctOnce(r.asked);
    DistinctOnce(signers);
    forall k ensures multiset(signers)[k] <= 1 {
      assert multiset(r.asked)[k] <= 1;
    }
  }

  lemma SignersAreDistinct(r: Round)
    requires r.Valid() && Distinct(r.asked)
    ensures r.UniqueSigners() == |r.signatures|
  {
    DistinctSigners(r);
    DistinctSize(Names(r.signatures));
  }

  lemma AskedInOrder(keys: seq<Hash32>, asked: seq<Hash32>)
    requires Distinct(keys) && asked <= keys
    ensures Distinct(asked)
  {
  }
}
