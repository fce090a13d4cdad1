/** One collection round: what each peer answered, when there is enough, and
    whether asking again could help. */
module Rounds {
  import opened Bytes

  type Signature = seq<byte>

  datatype Outcome = Signed(signature: Signature) | Refused(why: string) | Unavailable(why: string)

  function Names<T>(rows: seq<(Hash32, T)>): (keys: seq<Hash32>)
    ensures |keys| == |rows| && forall k :: 0 <= k < |keys| ==> keys[k] == rows[k].0
  {
    seq(|rows|, k requires 0 <= k < |rows| => rows[k].0)
  }

  function Members(keys: seq<Hash32>): set<Hash32> { set k | k in keys }

  predicate Distinct(keys: seq<Hash32>) { forall i, j :: 0 <= i < j < |keys| ==> keys[i] != keys[j] }

  lemma NamesPush<T>(rows: seq<(Hash32, T)>, peer: Hash32, x: T)
    ensures Names(rows + [(peer, x)]) == Names(rows) + [peer]
  {
  }

  /** Each record landed in exactly one of three lists. */
  ghost predicate Tallied(asked: seq<Hash32>, signed: seq<Hash32>, refused: seq<Hash32>, unavailable: seq<Hash32>) {
    multiset(asked) == multiset(signed) + multiset(refused) + multiset(unavailable)
  }

  lemma TallyOne(asked: seq<Hash32>, signed: seq<Hash32>, refused: seq<Hash32>, unavailable: seq<Hash32>, peer: Hash32)
    requires Tallied(asked, signed, refused, unavailable)
    ensures Tallied(asked + [peer], signed + [peer], refused, unavailable)
    ensures Tallied(asked + [peer], signed, refused + [peer], unavailable)
    ensures Tallied(asked + [peer], signed, refused, unavailable + [peer])
  {
  }

  class Round {
    var signatures: seq<(Hash32, Signature)>
    var refused: seq<(Hash32, string)>
    var unavailable: seq<(Hash32, string)>
    /** Every peer recorded, in order. */
    ghost var asked: seq<Hash32>

    ghost predicate Valid()
      reads this
    {
      Tallied(asked, Names(signatures), Names(refused), Names(unavailable))
    }

    constructor ()
      ensures signatures == [] && refused == [] && unavailable == [] && asked == [] && Valid()
    {
      signatures, refused, unavailable, asked := [], [], [], [];
    }

    method Record(peer: Hash32, outcome: Outcome)
      requires Valid()
      modifies this
      ensures Valid() && asked == old(asked) + [peer]
      ensures signatures == old(signatures) + (if outcome.Signed? then [(peer, outcome.signature)] else [])
      ensures refused == old(refused) + (if outcome.Refused? then [(peer, outcome.why)] else [])
      ensures unavailable == old(unavailable) + (if outcome.Unavailable? then [(peer, outcome.why)] else [])
    {
      hide Names, Tallied;
      TallyOne(asked, Names(signatures), Names(refused), Names(unavailable), peer);
      NamesPush(signatures, peer, if outcome.Signed? then outcome.signature else []);
      NamesPush(refused, peer, if outcome.Refused? then outcome.why else "");
      NamesPush(unavailable, peer, if outcome.Unavailable? then outcome.why else "");
      match outcome {
        case Signed(sig) => signatures := signatures + [(peer, sig)];
        case Refused(why) => refused := refused + [(peer, why)];
        case Unavailable(why) => unavailable := unavailable + [(peer, why)];
      }
      asked := asked + [peer];
    }

    /** Distinct signers, however often one of them answered. */
    function UniqueSigners(): nat
      reads this
    {
      |Members(Names(signatures))|
    }

    predicate Reached(threshold: nat)
      reads this
    {
      UniqueSigners() >= threshold
    }

    predicate RetryCouldHelp(threshold: nat)
      reads this
    {
      !Reached(threshold) && |unavailable| >= threshold - UniqueSigners()
    }
  }

  lemma {:induction false} DistinctSize(keys: seq<Hash32>)
    requires Distinct(keys)
    ensures |Members(keys)| == |keys|
  {
    if keys == [] {
    } else {
      var last := |keys| - 1;
      DistinctSize(keys[..last]);
      assert Members(keys) == Members(keys[..last]) + {keys[last]};
    }
  }

  lemma {:induction false} MembersAtMost(keys: seq<Hash32>)
    ensures |Members(keys)| <= |keys|
  {
    if keys == [] {
    } else {
      var last := |keys| - 1;
      MembersAtMost(keys[..last]);
      assert Members(keys) == Members(keys[..last]) + {keys[last]};
    }
  }

  /** A sequence without repetitions holds each of its members once. */
  lemma {:induction false} DistinctOnce(keys: seq<Hash32>)
    ensures Distinct(keys) <==> forall k :: multiset(keys)[k] <= 1
  {
    if keys == [] {
    } else {
      var last := |keys| - 1;
      DistinctOnce(keys[..last]);
      assert keys == keys[..last] + [keys[last]];
      assert multiset(keys) == multiset(keys[..last])[keys[last] := multiset(keys[..last])[keys[last]] + 1];
      assert keys[last] in keys[..last] <==> multiset(keys[..last])[keys[last]] > 0;
      if Distinct(keys) {
        forall k ensures multiset(keys)[k] <= 1 {
          assert multiset(keys[..last])[k] <= 1;
        }
      } else if Distinct(keys[..last]) {
        var i :| 0 <= i < last && keys[i] == keys[last];
        assert keys[..last][i] == keys[last];
        assert multiset(keys)[keys[last]] == 2;
      } else {
        var k :| multiset(keys[..last])[k] > 1;
        assert multiset(keys)[k] > 1;
      }
    }
  }

  /** A sequence has as many members as entries exactly when none repeats. */
  lemma {:induction false} SizeExactly(keys: seq<Hash32>)
    ensures |Members(keys)| == |keys| <==> Distinct(keys)
  {
    if Distinct(keys) {
      DistinctSize(keys);
    } else {
      var i, j :| 0 <= i < j < |keys| && keys[i] == keys[j];
      var rest := keys[..i] + keys[i + 1..];
      assert keys[j] == rest[j - 1];
      forall k ensures k in Members(keys) <==> k in Members(rest) {
        if k in keys {
          var n :| 0 <= n < |keys| && keys[n] == k;
          assert n < i ==> rest[n] == k;
          assert n > i ==> rest[n - 1] == k;
        }
      }
      assert Members(keys) == Members(rest);
      MembersAtMost(rest);
    }
  }

  /** The round misses the threshold now, and its signers together with the
      peers it could not reach would meet it. */
  predicate GapCouldClose(r: Round, threshold: nat)
    reads r
  {
    !r.Reached(threshold) && |Members(Names(r.signatures)) + Members(Names(r.unavailable))| >= threshold
  }

  /** The unavailable entries are different peers, none of whom signed. */
  predicate AbsentOnce(r: Round)
    reads r
  {
    Distinct(Names(r.unavailable)) && Members(Names(r.signatures)) !! Members(Names(r.unavailable))
  }

  lemma AbsentOnceExactly(r: Round)
    ensures AbsentOnce(r) <==>
              |r.unavailable| == |Members(Names(r.unavailable)) - Members(Names(r.signatures))|
  {
    var signers, absent := Members(Names(r.signatures)), Members(Names(r.unavailable));
    SizeExactly(Names(r.unavailable));
    MembersAtMost(Names(r.unavailable));
    assert |absent| == |absent - signers| + |absent * signers| by {
      assert absent == (absent - signers) + absent * signers;
    }
    assert signers !! absent <==> absent * signers == {};
  }

  /** The answer is right for every threshold exactly when no unavailable
      entry repeats a peer or names one that signed. */
  lemma RetryExactlyWhen(r: Round)
    ensures (forall threshold: nat :: r.RetryCouldHelp(threshold) <==> GapCouldClose(r, threshold)) <==> AbsentOnce(r)
  {
    var signers, absent := Members(Names(r.signatures)), Members(Names(r.unavailable));
    AbsentOnceExactly(r);
    MembersAtMost(Names(r.unavailable));
    assert |signers + absent| == |signers| + |absent - signers| by {
      assert signers + absent == signers + (absent - signers);
    }
    assert |absent - signers| <= |absent| by {
      assert absent == (absent - signers) + absent * signers;
    }
    if |r.unavailable| != |absent - signers| {
      var threshold := |signers| + |r.unavailable|;
      assert r.RetryCouldHelp(threshold) && !GapCouldClose(r, threshold);
    }
  }

  /** In particular whenever every peer was recorded at most once. */
  lemma RetryExactly(r: Round, threshold: nat)
    requires r.Valid() && Distinct(r.asked)
    ensures AbsentOnce(r) && (r.RetryCouldHelp(threshold) <==> GapCouldClose(r, threshold))
  {
    var signers, absent := Names(r.signatures), Names(r.unavailable);
    DistinctOnce(r.asked);
    DistinctOnce(absent);
    forall k ensures multiset(absent)[k] <= 1 && multiset(signers)[k] + multiset(absent)[k] <= 1 {
      assert multiset(r.asked)[k] <= 1;
    }
    forall k | k in signers ensures k !in absent {
      assert multiset(signers)[k] > 0;
    }
    assert Members(signers) !! Members(absent);
    RetryExactlyWhen(r);
  }

  /** Without that condition it still never gives up on a gap that could be
      closed... */
  lemma RetryNeverGivesUpEarly(r: Round, threshold: nat)
    requires GapCouldClose(r, threshold)
    ensures r.RetryCouldHelp(threshold)
  {
    var signers, absent := Members(Names(r.signatures)), Members(Names(r.unavailable));
    MembersAtMost(Names(r.unavailable));
    assert signers + absent == signers + (absent - signers);
    assert |absent| == |absent - signers| + |absent * signers| by {
      assert absent == (absent - signers) + absent * signers;
    }
  }

  /** ...but it counts a peer recorded as unavailable twice for two. */
  lemma RetryCountsEntries(r: Round, peer: Hash32, why: string)
    requires r.signatures == [] && r.unavailable == [(peer, why), (peer, why)]
    ensures r.RetryCouldHelp(2) && !GapCouldClose(r, 2)
  {
    assert Members(Names(r.signatures)) == {} && Members(Names(r.unavailable)) == {peer} by {
      assert Names(r.unavailable)[0] == peer;
    }
  }

  // --------------------------------------------------------------- ask order

  function AskOrder(peers: seq<Hash32>, seed: u64): (order: seq<Hash32>)
    ensures |order| == |peers|
  {
    if peers == [] then [] else
      var start := seed % |peers|;
      seq(|peers|, i requires 0 <= i < |peers| => peers[(start + i) % |peers|])
  }

  lemma Wraps(start: nat, i: nat, n: nat)
    requires start < n && i < n
    ensures (start + i) % n == if start + i < n then start + i else start + i - n
  {
    if start + i >= n {
      assert start + i == 1 * n + (start + i - n);
    }
  }

  /** The order is the peer list, rotated. */
  lemma AskOrderRotates(peers: seq<Hash32>, seed: u64)
    requires peers != []
    ensures AskOrder(peers, seed) == peers[seed % |peers|..] + peers[..seed % |peers|]
  {
    var n, start := |peers|, seed % |peers|;
    forall i | 0 <= i < n ensures AskOrder(peers, seed)[i] == (peers[start..] + peers[..start])[i] {
      Wraps(start, i, n);
    }
  }

  /** Every peer is asked, none twice more than it is listed. */
  lemma AskOrderIsPermutation(peers: seq<Hash32>, seed: u64)
    ensures multiset(AskOrder(peers, seed)) == multiset(peers)
    ensures Distinct(peers) ==> Distinct(AskOrder(peers, seed))
  {
    if peers != [] {
      AskOrderRotates(peers, seed);
      var start := seed % |peers|;
      assert peers == peers[..start] + peers[start..];
      assert multiset(peers) == multiset(peers[..start]) + multiset(peers[start..]);
    }
    DistinctOnce(peers);
    DistinctOnce(AskOrder(peers, seed));
  }
}
