/** What a block contributes: its vault outputs and the recipient binding of
    the transaction that carries them. */
module DepositScan {
  import opened Bytes
  import opened Wrappers
  import Hex

  datatype TxOut = TxOut(n: u32, amount: u64, script: string)

  datatype Tx = Tx(txid: Hash32, outs: seq<TxOut>)

  datatype BindingError = NoOpReturn | MultipleOpReturn | WrongPushSize(actual: nat)

  const OP_RETURN: byte := 0x6a

  predicate IsOpReturn(o: TxOut) {
    var s := Hex.Decode(o.script);
    s.Some? && s.value != [] && s.value[0] == OP_RETURN
  }

  function Script(o: TxOut): seq<byte>
    requires IsOpReturn(o)
  {
    Hex.Decode(o.script).value
  }

  /** The script of a 32-byte direct push after OP_RETURN, and nothing else. */
  predicate WellFormed(script: seq<byte>) { |script| == 34 && script[1] == 32 }

  function OpReturns(outs: seq<TxOut>): (r: seq<TxOut>)
    ensures forall o :: o in r <==> o in outs && IsOpReturn(o)
  {
    if outs == [] then [] else (if IsOpReturn(outs[0]) then [outs[0]] else []) + OpReturns(outs[1..])
  }

  /** The verdict on the list of OP_RETURN outputs: the first must be a
      32-byte push, and there must be no second. */
  function Binding(tx: Tx): (r: Result<Hash32, BindingError>) {
    var all := OpReturns(tx.outs);
    if all == [] then Err(NoOpReturn) else
      assert all[0] in all;
      var s := Script(all[0]);
      if !WellFormed(s) then Err(WrongPushSize(if |s| < 2 then 0 else |s| - 2))
      else if |all| > 1 then Err(MultipleOpReturn)
      else Ok(s[2..])
  }

  method ExtractRecipientBinding(tx: Tx) returns (r: Result<Hash32, BindingError>)
    ensures r == Binding(tx)
  {
    hide OpReturns, Hex.Decode;
    var found: Option<Hash32> := None;
    var count := 0;
    ghost var all := OpReturns(tx.outs);
    assert OpReturns(tx.outs[..0]) == [] by { NoneInside(tx.outs[..0]); }
    for k := 0 to |tx.outs|
      invariant count == |OpReturns(tx.outs[..k])| <= 1
      invariant count == 0 ==> found == None
      invariant count == 1 ==>
                  var first := OpReturns(tx.outs[..k])[0];
                  IsOpReturn(first) && WellFormed(Script(first)) && found == Some(Script(first)[2..])
    {
      var o := tx.outs[k];
      OpReturnsSnoc(tx.outs, k);
      OpReturnsPrefix(tx.outs, k + 1);
      var script := Hex.DecodeVec(o.script);
      if script == None || script.value == [] || script.value[0] != OP_RETURN {
        continue;
      }
      count := count + 1;
      if count > 1 {
        return Err(MultipleOpReturn);
      }
      var s := script.value;
      assert all[0] == o;
      var payloadLen := if |s| < 2 then 0 else s[1] as int;
      var actual := if |s| < 2 then 0 else |s| - 2;
      if payloadLen != 32 || actual != 32 {
        return Err(WrongPushSize(actual));
      }
      found := Some(s[2..]);
    }
    assert tx.outs[..|tx.outs|] == tx.outs;
    r := if found.Some? then Ok(found.value) else Err(NoOpReturn);
  }

  lemma {:induction false} OpReturnsAppend(a: seq<TxOut>, b: seq<TxOut>)
    ensures OpReturns(a + b) == OpReturns(a) + OpReturns(b)
  {
    if a == [] {
      assert a + b == b;
    } else {
      assert (a + b)[1..] == a[1..] + b;
      OpReturnsAppend(a[1..], b);
    }
  }

  lemma OpReturnsSnoc(outs: seq<TxOut>, k: nat)
    requires k < |outs|
    ensures OpReturns(outs[..k + 1]) == OpReturns(outs[..k]) + (if IsOpReturn(outs[k]) then [outs[k]] else [])
  {
    assert outs[..k + 1] == outs[..k] + [outs[k]];
    OpReturnsAppend(outs[..k], [outs[k]]);
    assert [outs[k]][1..] == [];
    assert OpReturns([]) == [];
  }

  lemma OpReturnsPrefix(outs: seq<TxOut>, k: nat)
    requires k <= |outs|
    ensures OpReturns(outs[..k]) <= OpReturns(outs)
  {
    hide OpReturns;
    OpReturnsAppend(outs[..k], outs[k..]);
    assert outs[..k] + outs[k..] == outs;
  }

  /** Output `k` is an OP_RETURN and no other output is. */
  predicate Alone(outs: seq<TxOut>, k: int) {
    0 <= k < |outs| && IsOpReturn(outs[k]) && forall j :: 0 <= j < |outs| && j != k ==> !IsOpReturn(outs[j])
  }

  lemma NoneInside(outs: seq<TxOut>)
    requires forall j :: 0 <= j < |outs| ==> !IsOpReturn(outs[j])
    ensures OpReturns(outs) == []
  {
    assert OpReturns(outs) != [] ==> OpReturns(outs)[0] in OpReturns(outs);
  }

  lemma {:induction false} AloneIsAll(outs: seq<TxOut>, k: nat)
    requires Alone(outs, k)
    ensures OpReturns(outs) == [outs[k]]
  {
    if k == 0 {
      NoneInside(outs[1..]);
    } else {
      AloneIsAll(outs[1..], k - 1);
    }
  }

  lemma {:induction false} FindAlone(outs: seq<TxOut>) returns (k: nat)
    requires |OpReturns(outs)| == 1
    ensures Alone(outs, k)
  {
    if IsOpReturn(outs[0]) {
      k := 0;
      forall j | 0 < j < |outs| ensures !IsOpReturn(outs[j]) {
        assert outs[j] == outs[1..][j - 1] && outs[1..][j - 1] in outs[1..];
      }
    } else {
      k := FindAlone(outs[1..]);
      k := k + 1;
      assert forall j :: 1 <= j < |outs| ==> outs[j] == outs[1..][j - 1];
    }
  }

  /** Output `k` alone is an OP_RETURN, and its script is 6a 20 followed by
      the recipient's 32 bytes. */
  predicate BindsAt(tx: Tx, k: int, recipient: Hash32) {
    Alone(tx.outs, k) && Script(tx.outs[k]) == [OP_RETURN, 0x20] + recipient
  }

  ghost predicate Binds(tx: Tx, recipient: Hash32) { exists k :: BindsAt(tx, k, recipient) }

  /** A recipient is bound exactly when the transaction holds one OP_RETURN
      output and it has that exact form. */
  lemma BoundExactly(tx: Tx, recipient: Hash32)
    ensures Binding(tx) == Ok(recipient) <==> Binds(tx, recipient)
  {
    hide OpReturns, Hex.Decode;
    if Binding(tx) == Ok(recipient) {
      var k := FindAlone(tx.outs);
      AloneIsAll(tx.outs, k);
      assert BindsAt(tx, k, recipient);
    }
    if Binds(tx, recipient) {
      var k :| BindsAt(tx, k, recipient);
      AloneIsAll(tx.outs, k);
      assert Script(tx.outs[k])[2..] == recipient;
    }
  }

  /** Output `k` is the first OP_RETURN. */
  predicate FirstOpReturn(outs: seq<TxOut>, k: int) {
    0 <= k < |outs| && IsOpReturn(outs[k]) && forall j :: 0 <= j < k ==> !IsOpReturn(outs[j])
  }

  lemma {:induction false} FirstIsFirst(outs: seq<TxOut>, k: nat)
    requires FirstOpReturn(outs, k)
    ensures OpReturns(outs) == [outs[k]] + OpReturns(outs[k + 1..])
    decreases k
  {
    hide IsOpReturn;
    if k > 0 {
      FirstIsFirst(outs[1..], k - 1);
      assert outs[1..][k..] == outs[k + 1..];
    }
  }

  lemma AnotherFollows(outs: seq<TxOut>, k: nat)
    requires FirstOpReturn(outs, k)
    ensures OpReturns(outs)[..1] == [outs[k]]
    ensures |OpReturns(outs)| > 1 <==> exists j :: k < j < |outs| && IsOpReturn(outs[j])
  {
    hide IsOpReturn, OpReturns;
    FirstIsFirst(outs, k);
    var rest := outs[k + 1..];
    SomeInside(rest);
    if j :| k < j < |outs| && IsOpReturn(outs[j]) {
      assert rest[j - k - 1] == outs[j];
    }
    if j :| 0 <= j < |rest| && IsOpReturn(rest[j]) {
      assert outs[j + k + 1] == rest[j];
    }
  }

  lemma SomeInside(outs: seq<TxOut>)
    ensures OpReturns(outs) != [] <==> exists j :: 0 <= j < |outs| && IsOpReturn(outs[j])
  {
    if j :| 0 <= j < |outs| && IsOpReturn(outs[j]) {
      assert outs[j] in OpReturns(outs);
    }
    if OpReturns(outs) != [] {
      assert OpReturns(outs)[0] in outs;
      var j :| 0 <= j < |outs| && outs[j] == OpReturns(outs)[0];
      assert OpReturns(outs)[0] in OpReturns(outs);
    }
  }

  lemma {:induction false} FindFirst(outs: seq<TxOut>) returns (k: nat)
    requires exists j :: 0 <= j < |outs| && IsOpReturn(outs[j])
    ensures FirstOpReturn(outs, k)
  {
    if IsOpReturn(outs[0]) {
      k := 0;
    } else {
      var j :| 0 <= j < |outs| && IsOpReturn(outs[j]);
      assert outs[1..][j - 1] == outs[j];
      k := FindFirst(outs[1..]);
      k := k + 1;
      assert forall j :: 1 <= j < |outs| ==> outs[j] == outs[1..][j - 1];
    }
  }

  predicate NoOpReturns(tx: Tx) { forall k :: 0 <= k < |tx.outs| ==> !IsOpReturn(tx.outs[k]) }

  /** The first OP_RETURN is not a 32-byte push. */
  ghost predicate Malformed(tx: Tx) { exists k :: FirstOpReturn(tx.outs, k) && !WellFormed(Script(tx.outs[k])) }

  /** The first OP_RETURN is one, and another follows. */
  ghost predicate Ambiguous(tx: Tx) {
    exists k, j :: FirstOpReturn(tx.outs, k) && WellFormed(Script(tx.outs[k])) && k < j < |tx.outs| && IsOpReturn(tx.outs[j])
  }

  /** Which error stands for which fault, by the outputs alone. */
  lemma UnboundExactly(tx: Tx)
    ensures Binding(tx) == Err(NoOpReturn) <==> NoOpReturns(tx)
    ensures Binding(tx).Err? && Binding(tx).error.WrongPushSize? <==> Malformed(tx)
    ensures Binding(tx) == Err(MultipleOpReturn) <==> Ambiguous(tx)
    ensures Binding(tx).Err? && Binding(tx).error.WrongPushSize? ==>
              exists k :: FirstOpReturn(tx.outs, k)
                          && Binding(tx).error.actual == var s := Script(tx.outs[k]); if |s| <= 2 then 0 else |s| - 2
  {
    hide OpReturns, Hex.Decode, WellFormed;
    SomeInside(tx.outs);
    if !NoOpReturns(tx) {
      var k := FindFirst(tx.outs);
      AnotherFollows(tx.outs, k);
      assert OpReturns(tx.outs)[0] == OpReturns(tx.outs)[..1][0];
      assert forall j :: FirstOpReturn(tx.outs, j) ==> j == k;
    }
  }

  // ------------------------------------------------------------ vault outputs

  predicate PaysVault(o: TxOut, vaultHex: string) { Hex.EqIgnoreCase(o.script, vaultHex) }

  /** The output's script is the vault's, byte for byte; a sign, which no node
      prints, would have to stand where the vault's text has one. */
  predicate HasVaultScript(o: TxOut, vaultHex: string) {
    Hex.Decode(o.script) == Hex.Decode(vaultHex) && Hex.SameSigns(o.script, vaultHex)
  }

  /** An output pays the vault exactly when its script is the vault's bytes. */
  lemma PaysVaultExactly(o: TxOut, vaultHex: string)
    requires Hex.Decode(vaultHex).Some?
    ensures PaysVault(o, vaultHex) <==> HasVaultScript(o, vaultHex)
    ensures Hex.DigitsOnly(o.script) && Hex.DigitsOnly(vaultHex) ==>
              (PaysVault(o, vaultHex) <==> Hex.Decode(o.script) == Hex.Decode(vaultHex))
  {
    hide Hex.Decode, Hex.EqIgnoreCase, Hex.DigitValue, Hex.SameSigns;
    Hex.SameBytesExactly(o.script, vaultHex);
    if Hex.DigitsOnly(o.script) && Hex.DigitsOnly(vaultHex) {
      Hex.SameBytes(o.script, vaultHex);
    }
  }

  function VaultOutputs(outs: seq<TxOut>, vaultHex: string): (r: seq<TxOut>)
    ensures forall o :: o in r <==> o in outs && PaysVault(o, vaultHex)
  {
    if outs == [] then [] else (if PaysVault(outs[0], vaultHex) then [outs[0]] else []) + VaultOutputs(outs[1..], vaultHex)
  }

  lemma OneVaultOutput(o: TxOut, vaultHex: string)
    ensures VaultOutputs([o], vaultHex) == if PaysVault(o, vaultHex) then [o] else []
  {
    hide PaysVault;
    assert VaultOutputs([o][1..], vaultHex) == [];
  }

  /** They come in the order of the transaction, each once. */
  lemma {:induction false} VaultOutputsInOrder(a: seq<TxOut>, o: TxOut, b: seq<TxOut>, vaultHex: string)
    ensures VaultOutputs(a + [o] + b, vaultHex) ==
              VaultOutputs(a, vaultHex) + (if PaysVault(o, vaultHex) then [o] else []) + VaultOutputs(b, vaultHex)
  {
    hide PaysVault;
    VaultOutputsAppend(a, [o] + b, vaultHex);
    VaultOutputsAppend([o], b, vaultHex);
    OneVaultOutput(o, vaultHex);
    hide VaultOutputs;
    assert a + [o] + b == a + ([o] + b);
  }

  lemma {:induction false} VaultOutputsAppend(a: seq<TxOut>, b: seq<TxOut>, vaultHex: string)
    ensures VaultOutputs(a + b, vaultHex) == VaultOutputs(a, vaultHex) + VaultOutputs(b, vaultHex)
  {
    hide PaysVault;
    if a == [] {
      assert a + b == b;
    } else {
      assert (a + b)[1..] == a[1..] + b;
      VaultOutputsAppend(a[1..], b, vaultHex);
    }
  }

  datatype DepositState =
    | Candidate | Confirming | ReadyForSignature | Orphaned | Submitted | Minted | Failed | IntegrityHalted

  predicate IsActive(s: DepositState) { s in {Candidate, Confirming, ReadyForSignature, Submitted} }

  datatype NewCandidate = NewCandidate(
    txid: Hash32, vout: u32, amount: u64, recipient: Hash32, height: int, blockHash: Hash32, at: int,
    initial: DepositState, failure: Option<string>)

  function ReasonCode(e: BindingError): string {
    match e
    case NoOpReturn => "no_recipient_binding"
    case MultipleOpReturn => "ambiguous_recipient_binding"
    case WrongPushSize(_) => "malformed_recipient_binding"
  }

  /** The row a vault output starts as. */
  function Initial(b: Result<Hash32, BindingError>, amount: u64, minDeposit: u64): (DepositState, Option<string>, Hash32) {
    match b
    case Err(e) => (Failed, Some(ReasonCode(e)), ZERO32)
    case Ok(recipient) =>
      if amount < minDeposit then (Failed, Some("below_min_deposit"), recipient) else (Candidate, None, recipient)
  }

  datatype Place = Place(height: int, hash: Hash32, at: int)

  datatype ScanConfig = ScanConfig(vaultHex: string, minDeposit: u64)

  function CandidateFor(tx: Tx, o: TxOut, p: Place, cfg: ScanConfig): NewCandidate {
    var start := Initial(Binding(tx), o.amount, cfg.minDeposit);
    NewCandidate(tx.txid, o.n, o.amount, start.2, p.height, p.hash, p.at, start.0, start.1)
  }

  /** A vault output starts as a candidate for `recipient` exactly when its
      transaction binds that recipient and the amount meets the minimum;
      every other one starts failed, with a reason. */
  lemma StartsAsCandidateExactly(tx: Tx, o: TxOut, p: Place, cfg: ScanConfig, recipient: Hash32)
    ensures var c := CandidateFor(tx, o, p, cfg);
            && (c.initial == Candidate && c.recipient == recipient <==> Binds(tx, recipient) && o.amount >= cfg.minDeposit)
            && (c.initial == Candidate ==> c.failure == None && Binds(tx, c.recipient))
            && (c.initial != Candidate ==> c.initial == Failed && c.failure.Some?)
  {
    hide Binding, Binds;
    var c := CandidateFor(tx, o, p, cfg);
    BoundExactly(tx, recipient);
    BoundExactly(tx, c.recipient);
  }

  function TxCandidates(tx: Tx, outs: seq<TxOut>, p: Place, cfg: ScanConfig): (r: seq<NewCandidate>) {
    seq(|outs|, k requires 0 <= k < |outs| => CandidateFor(tx, outs[k], p, cfg))
  }

  function BlockCandidates(txs: seq<Tx>, p: Place, cfg: ScanConfig): (r: seq<NewCandidate>) {
    if txs == [] then [] else
      TxCandidates(txs[0], VaultOutputs(txs[0].outs, cfg.vaultHex), p, cfg) + BlockCandidates(txs[1..], p, cfg)
  }

  predicate Pays(tx: Tx, o: TxOut, cfg: ScanConfig) { o in VaultOutputs(tx.outs, cfg.vaultHex) }

  lemma TxFindsExactly(tx: Tx, p: Place, cfg: ScanConfig, c: NewCandidate)
    ensures c in TxCandidates(tx, VaultOutputs(tx.outs, cfg.vaultHex), p, cfg)
            <==> exists o :: Pays(tx, o, cfg) && c == CandidateFor(tx, o, p, cfg)
  {
    hide VaultOutputs, CandidateFor;
    var outs := VaultOutputs(tx.outs, cfg.vaultHex);
    var found := TxCandidates(tx, outs, p, cfg);
    if c in found {
      var k :| 0 <= k < |found| && found[k] == c;
      assert Pays(tx, outs[k], cfg) && c == CandidateFor(tx, outs[k], p, cfg);
    }
    if o :| Pays(tx, o, cfg) && c == CandidateFor(tx, o, p, cfg) {
      var k :| 0 <= k < |outs| && outs[k] == o;
      assert found[k] == c;
    }
  }

  lemma {:induction false} FindsCandidates(txs: seq<Tx>, p: Place, cfg: ScanConfig, c: NewCandidate)
    ensures c in BlockCandidates(txs, p, cfg) <==>
              exists tx, o :: tx in txs && Pays(tx, o, cfg) && c == CandidateFor(tx, o, p, cfg)
  {
    hide TxCandidates, VaultOutputs, CandidateFor, Pays;
    if txs == [] {
    } else {
      FindsCandidates(txs[1..], p, cfg, c);
      TxFindsExactly(txs[0], p, cfg, c);
      assert forall tx :: tx in txs <==> tx == txs[0] || tx in txs[1..];
    }
  }

  /** What a candidate says of the output it stands for, and where. */
  predicate Records(c: NewCandidate, tx: Tx, o: TxOut, p: Place) {
    && c.txid == tx.txid && c.vout == o.n && c.amount == o.amount
    && c.height == p.height && c.blockHash == p.hash && c.at == p.at
  }

  /** The state, reason and recipient it starts with. */
  ghost predicate Classified(c: NewCandidate, tx: Tx, minDeposit: u64) {
    || (c.initial == Candidate && c.failure == None && c.amount >= minDeposit && Binds(tx, c.recipient))
    || (c.initial == Failed && c.failure == Some("below_min_deposit") && c.amount < minDeposit && Binds(tx, c.recipient))
    || (c.initial == Failed && c.recipient == ZERO32 && Unbound(tx, c.failure))
  }

  ghost predicate Unbound(tx: Tx, failure: Option<string>) {
    || (NoOpReturns(tx) && failure == Some("no_recipient_binding"))
    || (Malformed(tx) && failure == Some("malformed_recipient_binding"))
    || (Ambiguous(tx) && failure == Some("ambiguous_recipient_binding"))
  }

  /** A candidate is determined by the output and its transaction. */
  lemma CandidateExactly(c: NewCandidate, tx: Tx, o: TxOut, p: Place, cfg: ScanConfig)
    ensures c == CandidateFor(tx, o, p, cfg) <==> Records(c, tx, o, p) && Classified(c, tx, cfg.minDeposit)
  {
    hide Binding, Binds, NoOpReturns, Malformed, Ambiguous;
    UnboundExactly(tx);
    BoundExactly(tx, c.recipient);
    BoundExactly(tx, CandidateFor(tx, o, p, cfg).recipient);
    if Binding(tx).Ok? {
      BoundExactly(tx, Binding(tx).value);
    }
  }

  /** Everything the scan reports of an output, without naming the scan. */
  ghost predicate Reports(txs: seq<Tx>, p: Place, cfg: ScanConfig, c: NewCandidate, tx: Tx, o: TxOut) {
    tx in txs && o in tx.outs && Records(c, tx, o, p) && Classified(c, tx, cfg.minDeposit)
  }

  /** The scan finds exactly the outputs whose script is the vault's, letter by
      letter up to case, which is byte by byte where the vault's text decodes. */
  lemma ScanFindsExactly(txs: seq<Tx>, p: Place, cfg: ScanConfig, c: NewCandidate)
    ensures c in BlockCandidates(txs, p, cfg) <==>
              exists tx, o :: Reports(txs, p, cfg, c, tx, o) && SameText(o.script, cfg.vaultHex)
    ensures Hex.Decode(cfg.vaultHex).Some? ==>
              (c in BlockCandidates(txs, p, cfg) <==>
                 exists tx, o :: Reports(txs, p, cfg, c, tx, o) && HasVaultScript(o, cfg.vaultHex))
  {
    hide BlockCandidates, VaultOutputs, CandidateFor, Records, Classified, SameText, HasVaultScript, PaysVault, Hex.Decode;
    FindsCandidates(txs, p, cfg, c);
    forall tx, o
      ensures tx in txs && Pays(tx, o, cfg) && c == CandidateFor(tx, o, p, cfg)
              <==> Reports(txs, p, cfg, c, tx, o) && SameText(o.script, cfg.vaultHex)
      ensures Hex.Decode(cfg.vaultHex).Some? ==> (SameText(o.script, cfg.vaultHex) <==> HasVaultScript(o, cfg.vaultHex))
    {
      CandidateExactly(c, tx, o, p, cfg);
      PaysVaultLetters(o, cfg.vaultHex);
      if Hex.Decode(cfg.vaultHex).Some? {
        PaysVaultExactly(o, cfg.vaultHex);
      }
    }
  }

  predicate SameText(a: string, b: string) { |a| == |b| && forall k :: 0 <= k < |a| ==> Hex.SameLetter(a[k], b[k]) }

  lemma PaysVaultLetters(o: TxOut, vaultHex: string)
    ensures PaysVault(o, vaultHex) <==> SameText(o.script, vaultHex)
  {
    Hex.EqIgnoreCaseExactly(o.script, vaultHex);
    hide Hex.EqIgnoreCase, Hex.SameLetter;
  }

  method ScanTx(tx: Tx, p: Place, cfg: ScanConfig) returns (found: seq<NewCandidate>)
    ensures found == TxCandidates(tx, VaultOutputs(tx.outs, cfg.vaultHex), p, cfg)
  {
    hide VaultOutputs, Binding;
    var outs := VaultOutputs(tx.outs, cfg.vaultHex);
    found := [];
    if outs == [] {
      return;
    }
    var binding := ExtractRecipientBinding(tx);
    var k := 0;
    while k < |outs|
      invariant 0 <= k <= |outs|
      invariant found == TxCandidates(tx, outs, p, cfg)[..k]
    {
      var start := Initial(binding, outs[k].amount, cfg.minDeposit);
      found := found + [NewCandidate(tx.txid, outs[k].n, outs[k].amount, start.2, p.height, p.hash, p.at, start.0, start.1)];
      k := k + 1;
    }
  }

  /** The indexer's scan of one block: every transaction, every vault output. */
  method ScanBlock(txs: seq<Tx>, p: Place, cfg: ScanConfig) returns (found: seq<NewCandidate>)
    ensures found == BlockCandidates(txs, p, cfg)
  {
    hide TxCandidates, VaultOutputs;
    found := [];
    var i := 0;
    while i < |txs|
      invariant 0 <= i <= |txs|
      invariant found + BlockCandidates(txs[i..], p, cfg) == BlockCandidates(txs, p, cfg)
    {
      assert txs[i..][1..] == txs[i + 1..];
      var more := ScanTx(txs[i], p, cfg);
      found := found + more;
      i := i + 1;
    }
  }
}
