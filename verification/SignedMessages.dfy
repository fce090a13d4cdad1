/** The fixed-length messages the federation signs: deposit claims,
    withdrawal completions and governance actions. */
module SignedMessages {
  import opened Bytes
  import opened Wrappers
  import PayoutIntent

  /** "GLC_BRIDGE_CLAIM" */
  const CLAIM_TAG: seq<byte> := [71, 76, 67, 95, 66, 82, 73, 68, 71, 69, 95, 67, 76, 65, 73, 77]
  /** "GLC_BRIDGE_GOVRN" */
  const GOVERNANCE_TAG: seq<byte> := [71, 76, 67, 95, 66, 82, 73, 68, 71, 69, 95, 71, 79, 86, 82, 78]

  const ACTION_MINT_DEPOSIT: byte := 1
  const ACTION_COMPLETE_WITHDRAWAL: byte := 2

  const HEADER_LEN := 58
  const CLAIM_LEN := 166
  const COMPLETION_LEN := 146
  const GOVERNANCE_LEN := 90

  datatype Claim = Claim(version: byte, program: Hash32, epoch: u64, txid: Hash32, vout: u32, amount: u64,
                         recipient: Hash32, mint: Hash32)

  datatype Completion = Completion(version: byte, program: Hash32, epoch: u64, index: u64, payoutTxid: Hash32,
                                   height: u64, amount: u64, destination: Hash32)

  datatype Governance = Governance(version: byte, program: Hash32, epoch: u64, action: byte, params: Hash32)

  /** The 58 bytes every family starts with: tag, version, program, epoch, action. */
  function Header(tag: seq<byte>, version: byte, program: Hash32, epoch: u64, action: byte): (m: seq<byte>)
    requires |tag| == 16
    ensures |m| == HEADER_LEN
    ensures m[..16] == tag && m[16] == version && m[17..49] == program && m[49..57] == LE64(epoch) && m[57] == action
  {
    tag + ([version] + (program + (LE64(epoch) + [action])))
  }

  function ClaimBody(c: Claim): (m: seq<byte>)
    ensures |m| == CLAIM_LEN - HEADER_LEN
    ensures m[..32] == c.txid && m[32..36] == LE32(c.vout) && m[36..44] == LE64(c.amount)
    ensures m[44..76] == c.recipient && m[76..] == c.mint
  {
    c.txid + (LE32(c.vout) + (LE64(c.amount) + (c.recipient + c.mint)))
  }

  function DepositClaimMessage(c: Claim): (m: seq<byte>)
    ensures |m| == CLAIM_LEN
    ensures m[..HEADER_LEN] == Header(CLAIM_TAG, c.version, c.program, c.epoch, ACTION_MINT_DEPOSIT)
    ensures m[HEADER_LEN..] == ClaimBody(c)
  {
    Header(CLAIM_TAG, c.version, c.program, c.epoch, ACTION_MINT_DEPOSIT) + ClaimBody(c)
  }

  function CompletionBody(c: Completion): (m: seq<byte>)
    ensures |m| == COMPLETION_LEN - HEADER_LEN
    ensures m[..8] == LE64(c.index) && m[8..40] == c.payoutTxid && m[40..48] == LE64(c.height)
    ensures m[48..56] == LE64(c.amount) && m[56..] == c.destination
  {
    LE64(c.index) + (c.payoutTxid + (LE64(c.height) + (LE64(c.amount) + c.destination)))
  }

  function CompletionMessage(c: Completion): (m: seq<byte>)
    ensures |m| == COMPLETION_LEN
    ensures m[..HEADER_LEN] == Header(CLAIM_TAG, c.version, c.program, c.epoch, ACTION_COMPLETE_WITHDRAWAL)
    ensures m[HEADER_LEN..] == CompletionBody(c)
  {
    Header(CLAIM_TAG, c.version, c.program, c.epoch, ACTION_COMPLETE_WITHDRAWAL) + CompletionBody(c)
  }

  function GovernanceMessage(g: Governance): (m: seq<byte>)
    ensures |m| == GOVERNANCE_LEN
    ensures m[..HEADER_LEN] == Header(GOVERNANCE_TAG, g.version, g.program, g.epoch, g.action)
    ensures m[HEADER_LEN..] == g.params
  {
    Header(GOVERNANCE_TAG, g.version, g.program, g.epoch, g.action) + g.params
  }

  // ------------------------------------------------- the in-place builders

  /** `m[at..at + src.len()].copy_from_slice(src)`, as the builders use it:
      one field after another, left to right. */
  method CopyFromSlice(m: array<byte>, at: nat, src: seq<byte>)
    requires at + |src| <= m.Length
    modifies m
    ensures m[..at + |src|] == old(m[..at]) + src
    ensures m[at + |src|..] == old(m[at + |src|..])
  {
    forall k | 0 <= k < |src| {
      m[at + k] := src[k];
    }
  }

  method FillHeader(m: array<byte>, tag: seq<byte>, version: byte, program: Hash32, epoch: u64, action: byte)
    requires m.Length >= HEADER_LEN && |tag| == 16
    modifies m
    ensures m[..HEADER_LEN] == Header(tag, version, program, epoch, action)
  {
    CopyFromSlice(m, 0, tag);
    CopyFromSlice(m, 16, [version]);
    CopyFromSlice(m, 17, program);
    CopyFromSlice(m, 49, LE64(epoch));
    CopyFromSlice(m, 57, [action]);
  }

  lemma Regrouped(h: seq<byte>, a: seq<byte>, b: seq<byte>, c: seq<byte>, d: seq<byte>, e: seq<byte>)
    ensures h + a + b + c + d + e == h + (a + (b + (c + (d + e))))
  {
  }

  method BuildDepositClaim(c: Claim) returns (m: array<byte>)
    ensures fresh(m) && m[..] == DepositClaimMessage(c)
  {
    m := new byte[CLAIM_LEN](_ => 0);
    FillHeader(m, CLAIM_TAG, c.version, c.program, c.epoch, ACTION_MINT_DEPOSIT);
    ghost var header := m[..58];
    hide Header;
    CopyFromSlice(m, 58, c.txid);
    CopyFromSlice(m, 90, LE32(c.vout));
    CopyFromSlice(m, 94, LE64(c.amount));
    CopyFromSlice(m, 102, c.recipient);
    CopyFromSlice(m, 134, c.mint);
    Regrouped(header, c.txid, LE32(c.vout), LE64(c.amount), c.recipient, c.mint);
    assert m[..] == m[..166];
  }

  method BuildCompletion(c: Completion) returns (m: array<byte>)
    ensures fresh(m) && m[..] == CompletionMessage(c)
  {
    m := new byte[COMPLETION_LEN](_ => 0);
    FillHeader(m, CLAIM_TAG, c.version, c.program, c.epoch, ACTION_COMPLETE_WITHDRAWAL);
    ghost var header := m[..58];
    hide Header;
    CopyFromSlice(m, 58, LE64(c.index));
    CopyFromSlice(m, 66, c.payoutTxid);
    CopyFromSlice(m, 98, LE64(c.height));
    CopyFromSlice(m, 106, LE64(c.amount));
    CopyFromSlice(m, 114, c.destination);
    Regrouped(header, LE64(c.index), c.payoutTxid, LE64(c.height), LE64(c.amount), c.destination);
    assert m[..] == m[..146];
  }

  method BuildGovernance(g: Governance) returns (m: array<byte>)
    ensures fresh(m) && m[..] == GovernanceMessage(g)
  {
    m := new byte[GOVERNANCE_LEN](_ => 0);
    FillHeader(m, GOVERNANCE_TAG, g.version, g.program, g.epoch, g.action);
    CopyFromSlice(m, 58, g.params);
    assert m[..] == m[..90];
  }

  // --------------------------------------------------------------- decoding

  function DecodeClaim(m: seq<byte>): (r: Option<Claim>)
  {
    if |m| != CLAIM_LEN || m[..16] != CLAIM_TAG || m[57] != ACTION_MINT_DEPOSIT then None else
      Pow256Widths();
      Some(Claim(m[16], m[17..49], FromLE(m[49..57]), m[58..90], FromLE(m[90..94]), FromLE(m[94..102]),
                 m[102..134], m[134..]))
  }

  function DecodeCompletion(m: seq<byte>): (r: Option<Completion>)
  {
    if |m| != COMPLETION_LEN || m[..16] != CLAIM_TAG || m[57] != ACTION_COMPLETE_WITHDRAWAL then None else
      Pow256Widths();
      Some(Completion(m[16], m[17..49], FromLE(m[49..57]), FromLE(m[58..66]), m[66..98], FromLE(m[98..106]),
                      FromLE(m[106..114]), m[114..]))
  }

  function DecodeGovernance(m: seq<byte>): (r: Option<Governance>)
  {
    if |m| != GOVERNANCE_LEN || m[..16] != GOVERNANCE_TAG then None else
      Pow256Widths();
      Some(Governance(m[16], m[17..49], FromLE(m[49..57]), m[57], m[58..]))
  }

  lemma SliceOf(m: seq<byte>, head: seq<byte>, tail: seq<byte>)
    requires m == head + tail
    ensures forall a, b :: 0 <= a <= b <= |head| ==> m[a..b] == head[a..b]
    ensures forall a, b :: |head| <= a <= b <= |m| ==> m[a..b] == tail[a - |head|..b - |head|]
    ensures forall a :: |head| <= a <= |m| ==> m[a..] == tail[a - |head|..]
  {
  }

  lemma ClaimRoundTrip(c: Claim)
    ensures DecodeClaim(DepositClaimMessage(c)) == Some(c)
  {
    var m := DepositClaimMessage(c);
    SliceOf(m, Header(CLAIM_TAG, c.version, c.program, c.epoch, ACTION_MINT_DEPOSIT), ClaimBody(c));
    ReadBack64(c.epoch);
    ReadBack32(c.vout);
    ReadBack64(c.amount);
  }

  /** The decoder accepts nothing but encodings. */
  lemma ClaimDecodesOnlyEncodings(m: seq<byte>)
    requires DecodeClaim(m).Some?
    ensures DepositClaimMessage(DecodeClaim(m).value) == m
  {
    var c := DecodeClaim(m).value;
    HeaderOfSlices(m);
    BodyOfSlices(m, c);
    hide Header, ClaimBody;
    assert m == m[..58] + m[58..];
  }

  lemma HeaderOfSlices(m: seq<byte>)
    requires |m| >= HEADER_LEN
    ensures FromLE(m[49..57]) < 0x1_0000_0000_0000_0000
    ensures Header(m[..16], m[16], m[17..49], FromLE(m[49..57]), m[57]) == m[..58]
  {
    Pow256Widths();
    EncodeDecode(m[49..57]);
    hide LE, FromLE;
    assert m[..58] == m[..16] + ([m[16]] + (m[17..49] + (m[49..57] + [m[57]])));
  }

  lemma BodyOfSlices(m: seq<byte>, c: Claim)
    requires DecodeClaim(m) == Some(c)
    ensures ClaimBody(c) == m[58..]
  {
    Pow256Widths();
    EncodeDecode(m[90..94]);
    EncodeDecode(m[94..102]);
    hide LE, FromLE;
    assert m[58..] == m[58..90] + (m[90..94] + (m[94..102] + (m[102..134] + m[134..])));
  }

  lemma CompletionRoundTrip(c: Completion)
    ensures DecodeCompletion(CompletionMessage(c)) == Some(c)
  {
    var m := CompletionMessage(c);
    SliceOf(m, Header(CLAIM_TAG, c.version, c.program, c.epoch, ACTION_COMPLETE_WITHDRAWAL), CompletionBody(c));
    ReadBack64(c.epoch);
    ReadBack64(c.index);
    ReadBack64(c.height);
    ReadBack64(c.amount);
  }

  lemma GovernanceRoundTrip(g: Governance)
    ensures DecodeGovernance(GovernanceMessage(g)) == Some(g)
  {
    var m := GovernanceMessage(g);
    SliceOf(m, Header(GOVERNANCE_TAG, g.version, g.program, g.epoch, g.action), g.params);
    ReadBack64(g.epoch);
  }

  // ----------------------------------------------------- domain separation

  datatype Family = PayoutIntents | DepositClaims | Completions | GovernanceActions

  ghost predicate BelongsTo(m: seq<byte>, family: Family) {
    match family
    case PayoutIntents => exists f :: m == PayoutIntent.Encode(f)
    case DepositClaims => exists c :: m == DepositClaimMessage(c)
    case Completions => exists c :: m == CompletionMessage(c)
    case GovernanceActions => exists g :: m == GovernanceMessage(g)
  }

  /** What a reader of the first 16 bytes, the action byte and the length sees. */
  predicate Marked(m: seq<byte>, family: Family) {
    match family
    case PayoutIntents => |m| > 16 && m[..17] == PayoutIntent.PAYOUT_TAG
    case DepositClaims => |m| == CLAIM_LEN && m[..16] == CLAIM_TAG && m[57] == ACTION_MINT_DEPOSIT
    case Completions => |m| == COMPLETION_LEN && m[..16] == CLAIM_TAG && m[57] == ACTION_COMPLETE_WITHDRAWAL
    case GovernanceActions => |m| == GOVERNANCE_LEN && m[..16] == GOVERNANCE_TAG
  }

  lemma MembersAreMarked(m: seq<byte>, family: Family)
    requires BelongsTo(m, family)
    ensures Marked(m, family)
  {
    match family
    case PayoutIntents =>
      var f :| m == PayoutIntent.Encode(f);
      PayoutIntent.EncodeLayout(f);
      PayoutIntent.FixedLayout(f);
      assert m[..17] == PayoutIntent.Fixed(f)[0..17];
    case DepositClaims =>
      var c :| m == DepositClaimMessage(c);
      assert m[..16] == m[..58][..16] && m[57] == m[..58][57];
    case Completions =>
      var c :| m == CompletionMessage(c);
      assert m[..16] == m[..58][..16] && m[57] == m[..58][57];
    case GovernanceActions =>
      var g :| m == GovernanceMessage(g);
      assert m[..16] == m[..58][..16];
  }

  /** A signature over one family's bytes is never a signature over another's. */
  lemma FamiliesDisjoint(m: seq<byte>, a: Family, b: Family)
    requires BelongsTo(m, a) && BelongsTo(m, b)
    ensures a == b
  {
    MembersAreMarked(m, a);
    MembersAreMarked(m, b);
    assert CLAIM_TAG[11] != GOVERNANCE_TAG[11];
    assert PayoutIntent.PAYOUT_TAG[11] != CLAIM_TAG[11] && PayoutIntent.PAYOUT_TAG[11] != GOVERNANCE_TAG[11];
    assert Marked(m, PayoutIntents) ==> m[11] == m[..17][11];
    assert |m| >= 16 ==> m[11] == m[..16][11];
  }

  // -------------------------------------------------- governance parameters

  function EncodeKeys(keys: seq<Hash32>): (m: seq<byte>)
    ensures |m| == 32 * |keys|
  {
    if keys == [] then [] else keys[0] + EncodeKeys(keys[1..])
  }

  function DecodeKeys(m: seq<byte>): (keys: seq<Hash32>)
    requires |m| % 32 == 0
    ensures 32 * |keys| == |m|
    decreases |m|
  {
    if m == [] then [] else [m[..32]] + DecodeKeys(m[32..])
  }

  function RotationParams(threshold: byte, validators: seq<Hash32>): (m: seq<byte>)
  {
    [threshold] + (LE32(TruncateU32(|validators|)) + EncodeKeys(validators))
  }

  method BuildRotationParams(threshold: byte, validators: seq<Hash32>) returns (m: seq<byte>)
    ensures m == RotationParams(threshold, validators)
  {
    m := [threshold];
    m := m + LE32(TruncateU32(|validators|));
    ghost var head := m;
    var i := 0;
    while i < |validators|
      invariant 0 <= i <= |validators|
      invariant m + EncodeKeys(validators[i..]) == head + EncodeKeys(validators)
    {
      assert validators[i..][1..] == validators[i + 1..];
      assert m + EncodeKeys(validators[i..]) == m + validators[i] + EncodeKeys(validators[i + 1..]);
      m := m + validators[i];
      i := i + 1;
    }
    assert validators[i..] == [] && m + [] == m;
    assert head + EncodeKeys(validators) == RotationParams(threshold, validators);
  }

  /** Key `k` of the list sits at its own place. */
  lemma {:induction false} KeysInOrder(keys: seq<Hash32>, k: nat)
    requires k < |keys|
    ensures EncodeKeys(keys)[32 * k..32 * k + 32] == keys[k]
  {
    if k > 0 {
      KeysInOrder(keys[1..], k - 1);
      assert EncodeKeys(keys)[32 * k..32 * k + 32] == EncodeKeys(keys[1..])[32 * (k - 1)..32 * (k - 1) + 32];
    }
  }

  /** The threshold, the count and each validator, by position. */
  lemma RotationLayout(threshold: byte, validators: seq<Hash32>, k: nat)
    ensures var m := RotationParams(threshold, validators);
            && |m| == 5 + 32 * |validators| && m[0] == threshold && m[1..5] == LE32(TruncateU32(|validators|))
            && (k < |validators| ==> m[5 + 32 * k..37 + 32 * k] == validators[k])
  {
    var m := RotationParams(threshold, validators);
    assert m[5..] == EncodeKeys(validators);
    if k < |validators| {
      KeysInOrder(validators, k);
      assert m[5 + 32 * k..37 + 32 * k] == m[5..][32 * k..32 * k + 32];
    }
  }

  function DecodeRotation(m: seq<byte>): (r: Option<(byte, seq<Hash32>)>)
    ensures r.Some? ==> |r.value.1| < 0x1_0000_0000
  {
    Pow256Widths();
    if |m| < 5 || |m| != 5 + 32 * FromLE(m[1..5]) then None else Some((m[0], DecodeKeys(m[5..])))
  }

  lemma {:induction false} KeysRoundTrip(keys: seq<Hash32>)
    ensures DecodeKeys(EncodeKeys(keys)) == keys
  {
    if keys == [] {
    } else {
      KeysRoundTrip(keys[1..]);
      var m := EncodeKeys(keys);
      assert m[..32] == keys[0] && m[32..] == EncodeKeys(keys[1..]);
    }
  }

  /** A rotation's parameter bytes determine the threshold and the ordered
      validator list, exactly while the count fits its 32-bit field. */
  lemma RotationRoundTrip(threshold: byte, validators: seq<Hash32>)
    ensures DecodeRotation(RotationParams(threshold, validators)) == Some((threshold, validators))
            <==> |validators| < 0x1_0000_0000
  {
    if |validators| < 0x1_0000_0000 {
      var m := RotationParams(threshold, validators);
      assert m[1..5] == LE32(|validators|);
      assert m[5..] == EncodeKeys(validators);
      ReadBack32(|validators|);
      KeysRoundTrip(validators);
    }
  }

  function CancelParams(action: byte, eta: i64): (m: seq<byte>) { [action] + LEi64(eta) }

  function DecodeCancel(m: seq<byte>): (r: Option<(byte, i64)>)
  {
    if |m| != 9 then None else Some((m[0], ReadI64(m[1..])))
  }

  lemma CancelRoundTrip(action: byte, eta: i64)
    ensures DecodeCancel(CancelParams(action, eta)) == Some((action, eta))
  {
    assert CancelParams(action, eta)[1..] == LEi64(eta);
    ReadBackI64(eta);
  }

  // ------------------------------------------------------------ attribution

  datatype ClaimField =
    | DomainTag | ProtocolVersion | ProgramId | ValidatorEpoch | ActionType
    | Txid | Vout | AmountAtomic | Recipient | WrappedMint

  function ClaimSpan(x: ClaimField): (r: (nat, nat))
    ensures r.0 < r.1 <= CLAIM_LEN
  {
    match x
    case DomainTag => (0, 16)
    case ProtocolVersion => (16, 17)
    case ProgramId => (17, 49)
    case ValidatorEpoch => (49, 57)
    case ActionType => (57, 58)
    case Txid => (58, 90)
    case Vout => (90, 94)
    case AmountAtomic => (94, 102)
    case Recipient => (102, 134)
    case WrappedMint => (134, 166)
  }

  const CLAIM_FIELDS: seq<ClaimField> := [
    DomainTag, ProtocolVersion, ProgramId, ValidatorEpoch, ActionType, Txid, Vout, AmountAtomic, Recipient, WrappedMint]

  function ClaimAt(m: seq<byte>, x: ClaimField): (s: seq<byte>)
    requires |m| == CLAIM_LEN
  {
    m[ClaimSpan(x).0..ClaimSpan(x).1]
  }

  function DifferingClaim(fields: seq<ClaimField>, a: seq<byte>, b: seq<byte>): (names: seq<ClaimField>)
    requires |a| == CLAIM_LEN && |b| == CLAIM_LEN
    ensures forall x :: x in names <==> x in fields && ClaimAt(a, x) != ClaimAt(b, x)
  {
    if fields == [] then [] else
      (if ClaimAt(a, fields[0]) != ClaimAt(b, fields[0]) then [fields[0]] else []) + DifferingClaim(fields[1..], a, b)
  }

  function DiffClaimFields(recomputed: seq<byte>, stored: seq<byte>): (names: Option<seq<ClaimField>>)
  {
    if |stored| != |recomputed| || |stored| != CLAIM_LEN then None else
      var names := DifferingClaim(CLAIM_FIELDS, recomputed, stored);
      if names == [] then None else Some(names)
  }

  function OwnerOf(k: nat): (x: ClaimField)
    requires k < CLAIM_LEN
    ensures x in CLAIM_FIELDS && ClaimSpan(x).0 <= k < ClaimSpan(x).1
  {
    if k < 16 then CLAIM_FIELDS[0] else if k < 17 then CLAIM_FIELDS[1] else if k < 49 then CLAIM_FIELDS[2]
    else if k < 57 then CLAIM_FIELDS[3] else if k < 58 then CLAIM_FIELDS[4] else if k < 90 then CLAIM_FIELDS[5]
    else if k < 94 then CLAIM_FIELDS[6] else if k < 102 then CLAIM_FIELDS[7] else if k < 134 then CLAIM_FIELDS[8]
    else CLAIM_FIELDS[9]
  }

  /** The claim fields tile the message: among full-length messages nothing
      goes unattributed. */
  lemma ClaimAttributionIsComplete(a: seq<byte>, b: seq<byte>)
    requires |a| == CLAIM_LEN && |b| == CLAIM_LEN
    ensures DiffClaimFields(a, b) == None <==> a == b
  {
    var names := DifferingClaim(CLAIM_FIELDS, a, b);
    assert names != [] ==> names[0] in names;
    if a != b {
      var k :| 0 <= k < CLAIM_LEN && a[k] != b[k];
      var x := OwnerOf(k);
      var (lo, hi) := ClaimSpan(x);
      assert a[lo..hi][k - lo] != b[lo..hi][k - lo];
      assert x in names;
    }
  }

  /** The quantity behind the field differs. */
  predicate ClaimChanged(x: ClaimField, c: Claim, d: Claim) {
    match x
    case DomainTag => false
    case ProtocolVersion => c.version != d.version
    case ProgramId => c.program != d.program
    case ValidatorEpoch => c.epoch != d.epoch
    case ActionType => false
    case Txid => c.txid != d.txid
    case Vout => c.vout != d.vout
    case AmountAtomic => c.amount != d.amount
    case Recipient => c.recipient != d.recipient
    case WrappedMint => c.mint != d.mint
  }

  /** A field's bytes in the part of the message that holds it. */
  function PartAt(c: Claim, x: ClaimField): (m: seq<byte>) {
    var (lo, hi) := ClaimSpan(x);
    if hi <= HEADER_LEN then Header(CLAIM_TAG, c.version, c.program, c.epoch, ACTION_MINT_DEPOSIT)[lo..hi]
    else ClaimBody(c)[lo - HEADER_LEN..hi - HEADER_LEN]
  }

  lemma FieldInPart(c: Claim, x: ClaimField)
    ensures ClaimAt(DepositClaimMessage(c), x) == PartAt(c, x)
  {
    var m := DepositClaimMessage(c);
    var header, body := Header(CLAIM_TAG, c.version, c.program, c.epoch, ACTION_MINT_DEPOSIT), ClaimBody(c);
    assert m == header + body;
    var lo, hi := ClaimSpan(x).0, ClaimSpan(x).1;
    assert hi <= HEADER_LEN || HEADER_LEN <= lo;
    hide DepositClaimMessage, Header, ClaimBody, ClaimSpan;
    if hi <= HEADER_LEN {
      assert (header + body)[lo..hi] == header[lo..hi];
    } else {
      assert (header + body)[lo..hi] == body[lo - HEADER_LEN..hi - HEADER_LEN];
    }
  }

  /** The bytes of a field are its quantity's. */
  lemma ClaimFieldDecides(x: ClaimField, c: Claim, d: Claim)
    ensures ClaimAt(DepositClaimMessage(c), x) != ClaimAt(DepositClaimMessage(d), x) <==> ClaimChanged(x, c, d)
  {
    FieldInPart(c, x);
    FieldInPart(d, x);
    hide DepositClaimMessage, ClaimAt, Header, ClaimBody;
    if ClaimSpan(x).1 <= HEADER_LEN {
      HeaderFieldDecides(x, c, d);
    } else {
      BodyFieldDecides(x, c, d);
    }
  }

  lemma SameByte(a: byte, b: byte)
    ensures [a] == [b] <==> a == b
  {
    assert [a][0] == a && [b][0] == b;
  }

  lemma HeaderFieldDecides(x: ClaimField, c: Claim, d: Claim)
    requires ClaimSpan(x).1 <= HEADER_LEN
    ensures PartAt(c, x) != PartAt(d, x) <==> ClaimChanged(x, c, d)
  {
    hide Header;
    var g := Header(CLAIM_TAG, c.version, c.program, c.epoch, ACTION_MINT_DEPOSIT);
    var h := Header(CLAIM_TAG, d.version, d.program, d.epoch, ACTION_MINT_DEPOSIT);
    match x
    case DomainTag => assert g[0..16] == g[..16] && h[0..16] == h[..16];
    case ProtocolVersion =>
      assert g[16..17] == [g[16]] && h[16..17] == [h[16]];
      SameByte(c.version, d.version);
    case ProgramId =>
    case ValidatorEpoch =>
      ReadBack64(c.epoch);
      ReadBack64(d.epoch);
    case ActionType => assert g[57..58] == [g[57]] && h[57..58] == [h[57]];
    case _ =>
  }

  lemma BodyFieldDecides(x: ClaimField, c: Claim, d: Claim)
    requires ClaimSpan(x).1 > HEADER_LEN
    ensures PartAt(c, x) != PartAt(d, x) <==> ClaimChanged(x, c, d)
  {
    hide ClaimBody, Header;
    var g, h := ClaimBody(c), ClaimBody(d);
    match x
    case Txid => assert g[0..32] == g[..32] && h[0..32] == h[..32];
    case Vout =>
      ReadBack32(c.vout);
      ReadBack32(d.vout);
    case AmountAtomic =>
      ReadBack64(c.amount);
      ReadBack64(d.amount);
    case Recipient =>
    case WrappedMint => assert g[76..108] == g[76..] && h[76..108] == h[76..];
    case _ =>
  }

  /** Between two claims exactly the quantities that differ are named. */
  lemma ClaimAttributionIsExact(c: Claim, d: Claim)
    ensures var names := DiffClaimFields(DepositClaimMessage(c), DepositClaimMessage(d));
            && (names == None <==> forall x :: !ClaimChanged(x, c, d))
            && (names.Some? ==> forall x :: x in names.value <==> ClaimChanged(x, c, d))
  {
    var m, n := DepositClaimMessage(c), DepositClaimMessage(d);
    var all := DifferingClaim(CLAIM_FIELDS, m, n);
    hide DepositClaimMessage, DifferingClaim, ClaimAt, ClaimChanged;
    forall x ensures x in all <==> ClaimChanged(x, c, d) {
      ClaimFieldDecides(x, c, d);
      EveryClaimFieldListed(x);
    }
    assert all == [] ==> forall x :: x !in all;
    assert all != [] ==> all[0] in all;
  }

  lemma EveryClaimFieldListed(x: ClaimField)
    ensures x in CLAIM_FIELDS
  {
    assert CLAIM_FIELDS[0] == DomainTag && CLAIM_FIELDS[1] == ProtocolVersion && CLAIM_FIELDS[2] == ProgramId;
    assert CLAIM_FIELDS[3] == ValidatorEpoch && CLAIM_FIELDS[4] == ActionType && CLAIM_FIELDS[5] == Txid;
    assert CLAIM_FIELDS[6] == Vout && CLAIM_FIELDS[7] == AmountAtomic && CLAIM_FIELDS[8] == Recipient;
    assert CLAIM_FIELDS[9] == WrappedMint;
  }
}
