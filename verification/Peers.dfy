/** Who the federation's peers are: the list an operator configures, and the
    operator's own signer added to it. */
module Peers {
  import opened Bytes
  import opened Wrappers

  datatype Endpoint = Endpoint(key: Hash32, uri: string)

  /** One comma-separated entry, split at its first `@`. */
  datatype Entry = NoSeparator(text: string) | Pair(key: string, uri: string)

  datatype IdentityError =
    | MalformedPeer(entry: Entry)
    | BadPeerPubkey(entry: Entry)
    | NoPeers
    | DuplicatePeer(key: Hash32)
    | SelfInPeerList(key: Hash32)
    | MissingLocalSigner
    | DuplicateEndpoint(uri: string, peer: Hash32)

  function Keys(peers: seq<Endpoint>): (keys: seq<Hash32>)
    ensures |keys| == |peers| && forall k :: 0 <= k < |keys| ==> keys[k] == peers[k].key
  {
    seq(|peers|, k requires 0 <= k < |peers| => peers[k].key)
  }

  predicate DistinctKeys(peers: seq<Endpoint>) { forall i, j :: 0 <= i < j < |peers| ==> peers[i].key != peers[j].key }

  /** An entry that names a peer. */
  predicate Readable(decode: string -> Option<Hash32>, e: Entry) { e.Pair? && e.uri != "" && decode(e.key).Some? }

  /** The endpoint is the entry's: its key decoded, its address as written. */
  predicate Reads(decode: string -> Option<Hash32>, e: Entry, p: Endpoint) {
    e.Pair? && Some(p.key) == decode(e.key) && p.uri == e.uri
  }

  /** A list that may be used: every entry names a peer, no two the same one,
      none of them this validator, and at least one. */
  predicate Usable(decode: string -> Option<Hash32>, entries: seq<Entry>, own: Option<Hash32>) {
    && entries != []
    && (forall k :: 0 <= k < |entries| ==> Readable(decode, entries[k]) && own != decode(entries[k].key))
    && forall i, j :: 0 <= i < j < |entries| ==> decode(entries[i].key) != decode(entries[j].key)
  }

  /** The first check an entry fails, after the peers already read. */
  function Fault(decode: string -> Option<Hash32>, before: seq<Endpoint>, e: Entry, own: Option<Hash32>): Option<IdentityError> {
    if e.NoSeparator? then Some(MalformedPeer(e))
    else if decode(e.key) == None then Some(BadPeerPubkey(e))
    else if e.uri == "" then Some(MalformedPeer(e))
    else if decode(e.key).value in Keys(before) then Some(DuplicatePeer(decode(e.key).value))
    else if own == decode(e.key) then Some(SelfInPeerList(decode(e.key).value))
    else None
  }

  /** The peers read from the entries before `k`. */
  ghost predicate ReadUpTo(decode: string -> Option<Hash32>, entries: seq<Entry>, own: Option<Hash32>, k: nat, peers: seq<Endpoint>) {
    && k <= |entries| && |peers| == k && DistinctKeys(peers)
    && forall j :: 0 <= j < k ==> Readable(decode, entries[j]) && Reads(decode, entries[j], peers[j]) && own != Some(peers[j].key)
  }

  /** The list is accepted exactly when it is usable, and then read entry by
      entry in order; otherwise the error is that of the first bad entry. */
  method ParsePeers(entries: seq<Entry>, decode: string -> Option<Hash32>, own: Option<Hash32>)
    returns (r: Result<seq<Endpoint>, IdentityError>, ghost bad: nat, ghost before: seq<Endpoint>)
    ensures r.Ok? <==> Usable(decode, entries, own)
    ensures r.Ok? ==>
              && |r.value| == |entries| && DistinctKeys(r.value)
              && (own.Some? ==> own.value !in Keys(r.value))
              && forall k :: 0 <= k < |entries| ==> Readable(decode, entries[k]) && Reads(decode, entries[k], r.value[k])
    ensures r.Err? ==> ReadUpTo(decode, entries, own, bad, before)
    ensures r.Err? && r.error != NoPeers ==> bad < |entries| && Fault(decode, before, entries[bad], own) == Some(r.error)
    ensures r == Err(NoPeers) ==> entries == []
  {
    var peers: seq<Endpoint> := [];
    bad, before := 0, [];
    for k := 0 to |entries|
      invariant ReadUpTo(decode, entries, own, k, peers)
    {
      bad, before := k, peers;
      var e := entries[k];
      if e.NoSeparator? {
        return Err(MalformedPeer(e)), bad, before;
      }
      var key := decode(e.key);
      if key == None {
        return Err(BadPeerPubkey(e)), bad, before;
      }
      if e.uri == "" {
        return Err(MalformedPeer(e)), bad, before;
      }
      if key.value in Keys(peers) {
        var j :| 0 <= j < k && peers[j].key == key.value;
        return Err(DuplicatePeer(key.value)), bad, before;
      }
      if own == key {
        return Err(SelfInPeerList(key.value)), bad, before;
      }
      peers := peers + [Endpoint(key.value, e.uri)];
    }
    if peers == [] {
      bad, before := 0, [];
      return Err(NoPeers), bad, before;
    }
    r := Ok(peers);
  }

  predicate Space(c: char) { c in {' ', '\t', '\n', '\r'} }

  function Trim(s: string): (t: string)
    ensures t != "" ==> !Space(t[0]) && !Space(t[|t| - 1])
    ensures t == "" <==> forall c :: c in s ==> Space(c)
  {
    if s == "" then ""
    else if Space(s[0]) then Trim(s[1..])
    else if Space(s[|s| - 1]) then
      assert s[0] in s[..|s| - 1];
      Trim(s[..|s| - 1])
    else s
  }

  predicate AllSpace(s: string) { forall k :: 0 <= k < |s| ==> Space(s[k]) }

  lemma TrimStep(s: string)
    requires s != ""
    ensures Space(s[0]) ==> Trim(s) == Trim(s[1..])
    ensures !Space(s[0]) && Space(s[|s| - 1]) ==> Trim(s) == Trim(s[..|s| - 1])
    ensures !Space(s[0]) && !Space(s[|s| - 1]) ==> Trim(s) == s
  {
  }

  lemma SpaceBefore(c: char, before: string, t: string, after: string)
    requires Space(c) && AllSpace(before)
    ensures [c] + (before + t + after) == [c] + before + t + after && AllSpace([c] + before)
  {
  }

  lemma SpaceAfter(c: char, before: string, t: string, after: string)
    requires Space(c) && AllSpace(after)
    ensures before + t + after + [c] == before + t + (after + [c]) && AllSpace(after + [c])
  {
  }

  /** Trimming takes the white space off both ends and nothing else. */
  lemma {:induction false} TrimsEnds(s: string) returns (before: string, after: string)
    ensures s == before + Trim(s) + after && AllSpace(before) && AllSpace(after)
    decreases |s|
  {
    before, after := "", "";
    if s != "" {
      TrimStep(s);
      hide Space, AllSpace, Trim;
      var last := |s| - 1;
      if Space(s[0]) {
        before, after := TrimsEnds(s[1..]);
        SpaceBefore(s[0], before, Trim(s), after);
        assert s == [s[0]] + s[1..];
        before := [s[0]] + before;
      } else if Space(s[last]) {
        before, after := TrimsEnds(s[..last]);
        SpaceAfter(s[last], before, Trim(s), after);
        assert s == s[..last] + [s[last]];
        after := after + [s[last]];
      }
    }
  }

  /** Which error stands for which fault of an entry. */
  lemma FaultExactly(decode: string -> Option<Hash32>, before: seq<Endpoint>, e: Entry, own: Option<Hash32>)
    ensures var fault := Fault(decode, before, e, own);
            var known := Readable(decode, e) && exists k :: 0 <= k < |before| && Some(before[k].key) == decode(e.key);
            && (fault == Some(MalformedPeer(e)) <==> e.NoSeparator? || (decode(e.key).Some? && e.uri == ""))
            && (fault == Some(BadPeerPubkey(e)) <==> e.Pair? && decode(e.key) == None)
            && (fault.Some? && fault.value.DuplicatePeer? <==> known)
            && (fault.Some? && fault.value.SelfInPeerList? <==> Readable(decode, e) && !known && own == decode(e.key))
            && (fault.Some? && (fault.value.DuplicatePeer? || fault.value.SelfInPeerList?) ==> Some(fault.value.key) == decode(e.key))
            && (fault == None <==> Readable(decode, e) && !known && own != decode(e.key))
  {
    if Readable(decode, e) {
      var key := decode(e.key).value;
      if k :| 0 <= k < |before| && before[k].key == key {
        assert Keys(before)[k] == key;
      }
      if key in Keys(before) {
        var k :| 0 <= k < |before| && Keys(before)[k] == key;
        assert before[k].key == key;
      }
    }
  }

  /** The operator's own signer joins the list exactly when it has an address,
      is not already in it, and shares no address with a peer; what was there
      stays as it was, and keys stay distinct. */
  method WithLocalSigner(peers: seq<Endpoint>, own: Hash32, localUri: string) returns (r: Result<seq<Endpoint>, IdentityError>)
    ensures r.Ok? <==> Trim(localUri) != "" && forall k :: 0 <= k < |peers| ==> peers[k].key != own && peers[k].uri != Trim(localUri)
    ensures r.Ok? ==> r.value == peers + [Endpoint(own, Trim(localUri))]
    ensures r.Ok? && DistinctKeys(peers) ==> DistinctKeys(r.value)
    ensures r == Err(MissingLocalSigner) <==> Trim(localUri) == ""
    ensures r.Err? && r.error.SelfInPeerList? ==> r.error.key == own && own in Keys(peers)
    ensures r.Err? && r.error.DuplicateEndpoint? ==>
              own !in Keys(peers) && Endpoint(r.error.peer, r.error.uri) in peers && r.error.uri == Trim(localUri)
  {
    var uri := Trim(localUri);
    if uri == "" {
      return Err(MissingLocalSigner);
    }
    if own in Keys(peers) {
      return Err(SelfInPeerList(own));
    }
    for k := 0 to |peers|
      invariant forall j :: 0 <= j < k ==> peers[j].uri != uri
    {
      if peers[k].uri == uri {
        assert peers[k] in peers;
        return Err(DuplicateEndpoint(uri, peers[k].key));
      }
    }
    assert forall k :: 0 <= k < |peers| ==> peers[k].key == Keys(peers)[k];
    r := Ok(peers + [Endpoint(own, uri)]);
  }
}
