/** What holds of the deposit tables at every commit. */
module DepositInvariants {
  import opened Bytes
  import opened Wrappers
  import opened DepositScan
  import opened BlockTree
  import opened DepositStore

  /** The index is one contiguous branch of the block tree up to the recorded tip. */
  ghost predicate ChainOk(t: Tree, blocks: map<int, Block>, tip: Option<Tip>) {
    match tip
    case None => blocks == map[]
    case Some(Tip(top, hash)) =>
      && top >= 0
      && (forall h :: h in blocks <==> 0 <= h <= top)
      && blocks[top].hash == hash
      && (forall h :: h in blocks ==> t.height(blocks[h].hash) == h)
      && (forall h :: h in blocks && h > 0 ==> t.parent(blocks[h].hash) == blocks[h - 1].hash)
  }

  function LocalChain(s: State): seq<Hash32>
    requires s.tip.Some? ==> forall h :: 0 <= h <= s.tip.value.height ==> h in s.blocks
  {
    if s.tip == None || s.tip.value.height < 0 then [] else
      seq(s.tip.value.height + 1, h requires 0 <= h <= s.tip.value.height => s.blocks[h].hash)
  }

  predicate Indexed(blocks: map<int, Block>, d: Deposit) { d.height in blocks && blocks[d.height].hash == d.blockHash }

  /** Active rows sit on indexed blocks. */
  predicate Tracks(blocks: map<int, Block>, deposits: seq<Deposit>) {
    forall id :: 0 <= id < |deposits| && IsActive(deposits[id].state) ==> Indexed(blocks, deposits[id])
  }

  predicate KeysUnique(deposits: seq<Deposit>) {
    forall a, b :: 0 <= a < b < |deposits| ==> !Keyed(deposits[b], deposits[a].txid, deposits[a].vout, deposits[a].blockHash)
  }

  predicate SourcedBy(t: Tree, cfg: ScanConfig, d: Deposit, tx: Tx, o: TxOut) {
    && tx in t.txs(d.blockHash) && Pays(tx, o, cfg)
    && d.txid == tx.txid && d.vout == o.n && d.amount == o.amount
    && d.recipient == Initial(Binding(tx), o.amount, cfg.minDeposit).2
  }

  /** The row records a vault output of the block it names. */
  ghost predicate SourcedRow(t: Tree, cfg: ScanConfig, d: Deposit) {
    t.height(d.blockHash) == d.height && d.height > 0 && exists tx, o :: SourcedBy(t, cfg, d, tx, o)
  }

  ghost predicate Sourced(t: Tree, cfg: ScanConfig, deposits: seq<Deposit>) {
    forall id :: 0 <= id < |deposits| ==> SourcedRow(t, cfg, deposits[id])
  }

  /** Every vault output of every indexed block above genesis has its row. */
  ghost predicate Complete(t: Tree, cfg: ScanConfig, blocks: map<int, Block>, deposits: seq<Deposit>) {
    forall h, tx, o :: h in blocks && h > 0 && tx in t.txs(blocks[h].hash) && Pays(tx, o, cfg) ==>
      HasKey(deposits, tx.txid, o.n, blocks[h].hash)
  }

  /** Claim artifacts exist exactly from promotion on. */
  predicate Staged(deposits: seq<Deposit>, artifacts: map<nat, Artifact>) {
    && (forall id :: id in artifacts ==> id < |deposits|)
    && (forall id :: 0 <= id < |deposits| && deposits[id].state in {Candidate, Confirming} ==>
          id !in artifacts && deposits[id].readyAt == None)
    && (forall id :: 0 <= id < |deposits| && deposits[id].state in {ReadyForSignature, Submitted, Minted, IntegrityHalted} ==>
          id in artifacts)
  }

  ghost predicate Inv(t: Tree, cfg: ScanConfig, s: State) {
    && ChainOk(t, s.blocks, s.tip)
    && Tracks(s.blocks, s.deposits)
    && KeysUnique(s.deposits)
    && Sourced(t, cfg, s.deposits)
    && Complete(t, cfg, s.blocks, s.deposits)
    && Staged(s.deposits, s.artifacts)
  }

  /** Rows are never deleted and never change what they record: only state,
      ready time, reason and signature move. */
  predicate SameRecord(d: Deposit, e: Deposit) {
    e == d.(state := e.state, readyAt := e.readyAt, failure := e.failure, signature := e.signature)
  }

  predicate RowsKept(before: seq<Deposit>, after: seq<Deposit>) {
    |before| <= |after| && forall id :: 0 <= id < |before| ==> SameRecord(before[id], after[id])
  }

  lemma SameRecordSourced(t: Tree, cfg: ScanConfig, d: Deposit, e: Deposit)
    requires SameRecord(d, e) && SourcedRow(t, cfg, d)
    ensures SourcedRow(t, cfg, e)
  {
    var tx, o :| SourcedBy(t, cfg, d, tx, o);
    assert SourcedBy(t, cfg, e, tx, o);
  }

  /** What a table of the same rows in other states inherits. */
  lemma SameRows(t: Tree, cfg: ScanConfig, blocks: map<int, Block>, before: seq<Deposit>, after: seq<Deposit>)
    requires |before| == |after| && RowsKept(before, after)
    requires KeysUnique(before) && Sourced(t, cfg, before) && Complete(t, cfg, blocks, before)
    ensures KeysUnique(after) && Sourced(t, cfg, after) && Complete(t, cfg, blocks, after)
  {
    hide SourcedRow;
    KeysStay(before, after);
    forall id | 0 <= id < |after| ensures SourcedRow(t, cfg, after[id]) {
      SameRecordSourced(t, cfg, before[id], after[id]);
    }
  }

  // --------------------------------------------------------------- ingestion

  /** The block extends the recorded tip, or starts the index at genesis. */
  predicate Extends(t: Tree, s: State, height: int, b: Block) {
    && t.height(b.hash) == height
    && match s.tip
       case None => height == 0
       case Some(Tip(top, hash)) => height == top + 1 && t.parent(b.hash) == hash
  }

  function CandidatesOf(t: Tree, cfg: ScanConfig, height: int, b: Block): seq<NewCandidate> {
    if height == 0 then [] else BlockCandidates(t.txs(b.hash), Place(height, b.hash, b.at), cfg)
  }

  lemma NewHash(t: Tree, s: State, height: int, b: Block)
    requires ChainOk(t, s.blocks, s.tip) && Extends(t, s, height, b)
    ensures height !in s.blocks && !HashIndexed(s.blocks, b.hash)
    ensures ChainOk(t, s.blocks[height := b], Some(Tip(height, b.hash)))
  {
  }

  ghost predicate TablesOk(t: Tree, cfg: ScanConfig, s: State) {
    && Tracks(s.blocks, s.deposits)
    && KeysUnique(s.deposits)
    && Sourced(t, cfg, s.deposits)
    && Staged(s.deposits, s.artifacts)
  }

  /** The block being indexed is the recorded tip. */
  predicate AtTip(t: Tree, s: State, p: Place) {
    && s.tip == Some(Tip(p.height, p.hash)) && p.height > 0 && t.height(p.hash) == p.height
    && p.height in s.blocks && s.blocks[p.height].hash == p.hash
  }

  predicate OfBlock(t: Tree, cfg: ScanConfig, c: NewCandidate, p: Place, tx: Tx, o: TxOut) {
    tx in t.txs(p.hash) && Pays(tx, o, cfg) && c == CandidateFor(tx, o, p, cfg)
  }

  ghost predicate FromBlock(t: Tree, cfg: ScanConfig, c: NewCandidate, p: Place) {
    exists tx, o :: OfBlock(t, cfg, c, p, tx, o)
  }

  ghost predicate AllFrom(t: Tree, cfg: ScanConfig, cs: seq<NewCandidate>, p: Place) {
    forall c :: c in cs ==> FromBlock(t, cfg, c, p)
  }

  predicate AllKeyed(deposits: seq<Deposit>, cs: seq<NewCandidate>) {
    forall c :: c in cs ==> HasKey(deposits, c.txid, c.vout, c.blockHash)
  }

  ghost predicate StartsAs(d: Deposit, cs: seq<NewCandidate>) { exists c :: c in cs && d == FreshRow(c) }

  ghost predicate AddedFrom(before: seq<Deposit>, after: seq<Deposit>, cs: seq<NewCandidate>) {
    forall id :: |before| <= id < |after| ==> StartsAs(after[id], cs)
  }

  predicate OnlyRowsAdded(s: State, u: State) {
    s.deposits <= u.deposits && u.blocks == s.blocks && u.tip == s.tip && u.artifacts == s.artifacts
  }

  lemma AppendKeeps(t: Tree, cfg: ScanConfig, s: State, d: Deposit)
    requires TablesOk(t, cfg, s) && SourcedRow(t, cfg, d) && Indexed(s.blocks, d)
    requires !HasKey(s.deposits, d.txid, d.vout, d.blockHash) && d.state in {Candidate, Failed} && d.readyAt == None
    ensures TablesOk(t, cfg, s.(deposits := s.deposits + [d]))
  {
    hide SourcedRow;
    var after := s.deposits + [d];
    forall a, b | 0 <= a < b < |after| ensures !Keyed(after[b], after[a].txid, after[a].vout, after[a].blockHash) {
      if b == |s.deposits| {
        assert !Keyed(s.deposits[a], d.txid, d.vout, d.blockHash);
      }
    }
  }

  lemma InsertKeeps(t: Tree, cfg: ScanConfig, s: State, c: NewCandidate, p: Place)
    requires AtTip(t, s, p) && TablesOk(t, cfg, s) && AllFrom(t, cfg, [c], p)
    ensures var u := InsertCandidate(s, c);
            && TablesOk(t, cfg, u) && OnlyRowsAdded(s, u)
            && AllKeyed(u.deposits, [c]) && AddedFrom(s.deposits, u.deposits, [c])
  {
    hide FromBlock, FreshRow, SourcedRow, TablesOk, IdOf, Plain;
    assert c in [c];
    FreshRowSourced(t, cfg, c, p);
    var d, id := FreshRow(c), IdOf(s.deposits, c);
    var u := InsertCandidate(s, c);
    assert Keyed(u.deposits[id], c.txid, c.vout, c.blockHash);
    assert StartsAs(d, [c]);
    if id == |s.deposits| {
      assert u.deposits == s.deposits + [d];
      AppendKeeps(t, cfg, s, d);
      SameTables(t, cfg, s.(deposits := u.deposits), u);
    } else {
      SameTables(t, cfg, s, u);
    }
  }

  lemma SameTables(t: Tree, cfg: ScanConfig, s: State, u: State)
    requires TablesOk(t, cfg, s) && u.blocks == s.blocks && u.deposits == s.deposits && u.artifacts == s.artifacts
    ensures TablesOk(t, cfg, u)
  {
    hide Tracks, KeysUnique, Sourced, Staged;
  }

  lemma FreshRowSourced(t: Tree, cfg: ScanConfig, c: NewCandidate, p: Place)
    requires FromBlock(t, cfg, c, p) && t.height(p.hash) == p.height && p.height > 0
    ensures var d := FreshRow(c);
            && SourcedRow(t, cfg, d) && Keyed(d, c.txid, c.vout, c.blockHash)
            && d.height == p.height && d.blockHash == p.hash && d.state in {Candidate, Failed} && d.readyAt == None
  {
    hide Binding, VaultOutputs;
    var tx, o :| OfBlock(t, cfg, c, p, tx, o);
    assert SourcedBy(t, cfg, FreshRow(c), tx, o);
  }

  lemma {:induction false} InsertAllKeeps(t: Tree, cfg: ScanConfig, s: State, cs: seq<NewCandidate>, p: Place)
    requires AtTip(t, s, p) && TablesOk(t, cfg, s) && AllFrom(t, cfg, cs, p)
    ensures var u := InsertAll(s, cs);
            && TablesOk(t, cfg, u) && OnlyRowsAdded(s, u)
            && AllKeyed(u.deposits, cs) && AddedFrom(s.deposits, u.deposits, cs)
    decreases |cs|
  {
    if cs == [] {
    } else {
      var init, c := cs[..|cs| - 1], cs[|cs| - 1];
      assert cs == init + [c];
      assert c in cs && forall x :: x in init ==> x in cs;
      assert AllFrom(t, cfg, init, p) && AllFrom(t, cfg, [c], p);
      var v, u := InsertAll(s, init), InsertAll(s, cs);
      hide TablesOk, InsertCandidate, AllFrom, AddedFrom, AllKeyed;
      InsertAllKeeps(t, cfg, s, init, p);
      InsertKeeps(t, cfg, v, c, p);
      AddedMore(s.deposits, v.deposits, u.deposits, init, c);
    }
  }

  lemma AddedMore(s: seq<Deposit>, v: seq<Deposit>, u: seq<Deposit>, init: seq<NewCandidate>, c: NewCandidate)
    requires s <= v <= u && AddedFrom(s, v, init) && AddedFrom(v, u, [c])
    requires AllKeyed(v, init) && AllKeyed(u, [c])
    ensures AddedFrom(s, u, init + [c]) && AllKeyed(u, init + [c])
  {
    KeysStay(v, u);
    assert c in [c];
    forall id | |s| <= id < |u| ensures StartsAs(u[id], init + [c]) {
      if id < |v| {
        assert StartsAs(v[id], init) && u[id] == v[id];
        var x :| x in init && v[id] == FreshRow(x);
        assert x in init + [c];
      } else {
        assert StartsAs(u[id], [c]);
        assert c in init + [c];
      }
    }
  }

  lemma RowsKeptTransitive(s: seq<Deposit>, v: seq<Deposit>, u: seq<Deposit>)
    requires RowsKept(s, v) && RowsKept(v, u)
    ensures RowsKept(s, u)
  {
    forall id | 0 <= id < |s| ensures SameRecord(s[id], u[id]) {
      assert SameRecord(s[id], v[id]) && SameRecord(v[id], u[id]);
    }
  }

  lemma KeysStay(before: seq<Deposit>, after: seq<Deposit>)
    requires RowsKept(before, after)
    ensures forall txid, vout, hash :: HasKey(before, txid, vout, hash) ==> HasKey(after, txid, vout, hash)
  {
    forall txid, vout, hash | HasKey(before, txid, vout, hash) ensures HasKey(after, txid, vout, hash) {
      var id :| 0 <= id < |before| && Keyed(before[id], txid, vout, hash);
      assert Keyed(after[id], txid, vout, hash);
    }
  }

  lemma CandidatesFromBlock(t: Tree, cfg: ScanConfig, height: int, b: Block)
    ensures AllFrom(t, cfg, CandidatesOf(t, cfg, height, b), Place(height, b.hash, b.at))
  {
    var p := Place(height, b.hash, b.at);
    forall c | c in CandidatesOf(t, cfg, height, b) ensures FromBlock(t, cfg, c, p) {
      FindsCandidates(t.txs(b.hash), p, cfg, c);
      var tx, o :| tx in t.txs(b.hash) && Pays(tx, o, cfg) && c == CandidateFor(tx, o, p, cfg);
      assert OfBlock(t, cfg, c, p, tx, o);
    }
  }

  /** Indexing the next block keeps every invariant, adds a row for each of
      its vault outputs that has none, and starts the added rows exactly as
      the scan classified them. */
  lemma IngestKeeps(t: Tree, cfg: ScanConfig, s: State, height: int, b: Block)
    requires Inv(t, cfg, s) && Extends(t, s, height, b)
    ensures var u := IngestBlock(s, height, b, CandidatesOf(t, cfg, height, b));
            && Inv(t, cfg, u) && s.deposits <= u.deposits
            && u.blocks == s.blocks[height := b] && u.tip == Some(Tip(height, b.hash)) && u.artifacts == s.artifacts
            && AddedFrom(s.deposits, u.deposits, CandidatesOf(t, cfg, height, b))
  {
    var v := WithBlock(s, height, b);
    NewHash(t, s, height, b);
    if height > 0 {
      assert v.blocks == s.blocks[height := b] && v.deposits == s.deposits && v.tip == Some(Tip(height, b.hash));
      assert TablesOk(t, cfg, v);
      hide ChainOk, Tracks, KeysUnique, Sourced, Staged, Complete, CandidatesOf, AddedFrom, WithBlock, InsertAll, AllKeyed;
      CandidatesFromBlock(t, cfg, height, b);
      InsertAllKeeps(t, cfg, v, CandidatesOf(t, cfg, height, b), Place(height, b.hash, b.at));
      NewBlockComplete(t, cfg, s, height, b);
    } else {
      assert IngestBlock(s, height, b, []) == v;
    }
  }

  lemma NewBlockComplete(t: Tree, cfg: ScanConfig, s: State, height: int, b: Block)
    requires Complete(t, cfg, s.blocks, s.deposits) && height > 0
    requires var u := IngestBlock(s, height, b, CandidatesOf(t, cfg, height, b));
             && u.blocks == s.blocks[height := b] && s.deposits <= u.deposits
             && AllKeyed(u.deposits, CandidatesOf(t, cfg, height, b))
    ensures var u := IngestBlock(s, height, b, CandidatesOf(t, cfg, height, b));
            Complete(t, cfg, u.blocks, u.deposits)
  {
    hide IngestBlock, BlockCandidates, HasKey, Binding, VaultOutputs;
    var u := IngestBlock(s, height, b, CandidatesOf(t, cfg, height, b));
    var p := Place(height, b.hash, b.at);
    KeysStay(s.deposits, u.deposits);
    forall h, tx, o | h in u.blocks && h > 0 && tx in t.txs(u.blocks[h].hash) && Pays(tx, o, cfg)
      ensures HasKey(u.deposits, tx.txid, o.n, u.blocks[h].hash)
    {
      if h == height {
        var c := CandidateFor(tx, o, p, cfg);
        FindsCandidates(t.txs(b.hash), p, cfg, c);
        assert c in CandidatesOf(t, cfg, height, b);
      } else {
        assert HasKey(s.deposits, tx.txid, o.n, s.blocks[h].hash);
      }
    }
  }

  /** A scanned vault output starts waiting or failed, never further on. */
  lemma StartsWaiting(t: Tree, cfg: ScanConfig, c: NewCandidate, p: Place)
    requires FromBlock(t, cfg, c, p)
    ensures c.initial in {Candidate, Failed}
  {
    hide Binding, VaultOutputs;
    var tx, o :| OfBlock(t, cfg, c, p, tx, o);
  }

  // ---------------------------------------------------------------- rollback

  lemma RollbackChain(t: Tree, s: State, newTip: Tip, at: int)
    requires ChainOk(t, s.blocks, s.tip) && s.tip.Some?
    requires 0 <= newTip.height <= s.tip.value.height && s.blocks[newTip.height].hash == newTip.hash
    ensures var u := Rollback(s, newTip, s.tip.value, at);
            ChainOk(t, u.blocks, u.tip) && forall h :: h in u.blocks ==> h in s.blocks && u.blocks[h] == s.blocks[h]
  {
  }

  lemma RollbackRows(blocks: map<int, Block>, deposits: seq<Deposit>, artifacts: map<nat, Artifact>, fork: int)
    requires Tracks(blocks, deposits) && Staged(deposits, artifacts)
    ensures RowsKept(deposits, OrphanAll(deposits, fork)) && Staged(OrphanAll(deposits, fork), artifacts)
    ensures Tracks(map h | h in blocks && h <= fork :: blocks[h], OrphanAll(deposits, fork))
  {
  }

  lemma RollbackKeeps(t: Tree, cfg: ScanConfig, s: State, newTip: Tip, at: int)
    requires Inv(t, cfg, s) && s.tip.Some?
    requires 0 <= newTip.height <= s.tip.value.height && s.blocks[newTip.height].hash == newTip.hash
    ensures var u := Rollback(s, newTip, s.tip.value, at);
            Inv(t, cfg, u) && RowsKept(s.deposits, u.deposits)
  {
    var u := Rollback(s, newTip, s.tip.value, at);
    RollbackChain(t, s, newTip, at);
    RollbackRows(s.blocks, s.deposits, s.artifacts, newTip.height);
    hide ChainOk, Tracks, KeysUnique, Sourced, Staged, OrphanAll, RowsKept;
    assert Complete(t, cfg, u.blocks, s.deposits);
    SameRows(t, cfg, u.blocks, s.deposits, u.deposits);
  }

  // ------------------------------------------------------- one row at a time

  /** Replacing one row by a version of itself keeps the invariants when the
      new state is either inactive or on an indexed block, and the artifact
      table agrees with it. */
  lemma RowUpdateKeeps(t: Tree, cfg: ScanConfig, s: State, u: State, id: nat)
    requires Inv(t, cfg, s) && id < |s.deposits|
    requires u.blocks == s.blocks && u.tip == s.tip && |u.deposits| == |s.deposits|
    requires SameRecord(s.deposits[id], u.deposits[id]) && u.deposits == s.deposits[id := u.deposits[id]]
    requires IsActive(u.deposits[id].state) ==> Indexed(s.blocks, s.deposits[id])
    requires Staged(u.deposits, u.artifacts)
    ensures Inv(t, cfg, u) && RowsKept(s.deposits, u.deposits)
  {
    assert RowsKept(s.deposits, u.deposits);
    assert Tracks(u.blocks, u.deposits);
    hide ChainOk, Tracks, KeysUnique, Sourced, Staged, Complete;
    SameRows(t, cfg, u.blocks, s.deposits, u.deposits);
  }
}
