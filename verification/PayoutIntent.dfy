/** The canonical payout intent: the byte string a payout commitment hashes,
    its decoder, and the field attribution used in integrity halts. */
module PayoutIntent {
  import opened Bytes
  import opened Wrappers

  datatype Outpoint = Outpoint(txid: Hash32, vout: i64)

  datatype Coin = Coin(outpoint: Outpoint, amount: u64)

  datatype Intent = Intent(
    version: byte,
    index: i64,
    vault: Hash20,
    dest: Hash20,
    payout: u64,
    fee: u64,
    change: u64,
    changeHash: Hash20,
    attempt: u32,
    quorum: seq<byte>,
    inputs: seq<Coin>)

  /** "GLC_BRIDGE_PAYOUT" */
  const PAYOUT_TAG: seq<byte> := [71, 76, 67, 95, 66, 82, 73, 68, 71, 69, 95, 80, 65, 89, 79, 85, 84]

  const FIXED_LEN := 114
  const COIN_LEN := 44

  function EncodeCoin(c: Coin): (m: seq<byte>)
    ensures |m| == COIN_LEN
  {
    c.outpoint.txid + (LE32(TruncateU32(c.outpoint.vout)) + LE64(c.amount))
  }

  function EncodeCoins(cs: seq<Coin>): (m: seq<byte>)
    ensures |m| == COIN_LEN * |cs|
  {
    if cs == [] then [] else EncodeCoin(cs[0]) + EncodeCoins(cs[1..])
  }

  function Fixed(f: Intent): (m: seq<byte>)
    ensures |m| == FIXED_LEN
  {
    PAYOUT_TAG + ([f.version] + (LEi64(f.index) + (f.vault + (f.dest
    + (LE64(f.payout) + (LE64(f.fee) + (LE64(f.change) + (f.changeHash + LE32(f.attempt)))))))))
  }

  /** The designated quorum, then the inputs. */
  function Tail(f: Intent): (m: seq<byte>)
  {
    [|f.quorum| % 256] + (f.quorum + (LE32(TruncateU32(|f.inputs|)) + EncodeCoins(f.inputs)))
  }

  function Encode(f: Intent): (m: seq<byte>) { Fixed(f) + Tail(f) }

  /** The relayer's builder appends field after field to one growing buffer. */
  method CanonicalPayoutIntent(f: Intent) returns (m: seq<byte>)
    ensures m == Encode(f)
  {
    m := FixedFields(f);
    hide Fixed, LE32, TruncateU32;
    m := m + [|f.quorum| % 256];
    m := m + f.quorum;
    m := m + LE32(TruncateU32(|f.inputs|));
    ghost var head := m;
    m := AppendInputs(m, f.inputs);
    assert head + EncodeCoins(f.inputs) == Encode(f);
  }

  /** The part of fixed length. */
  method FixedFields(f: Intent) returns (m: seq<byte>)
    ensures m == Fixed(f)
  {
    hide LE32, LE64, LEi64;
    m := PAYOUT_TAG;
    m := m + [f.version];
    m := m + LEi64(f.index);
    m := m + f.vault;
    m := m + f.dest;
    m := m + LE64(f.payout);
    m := m + LE64(f.fee);
    m := m + LE64(f.change);
    m := m + f.changeHash;
    m := m + LE32(f.attempt);
  }

  /** The loop over the inputs. */
  method AppendInputs(head: seq<byte>, inputs: seq<Coin>) returns (m: seq<byte>)
    ensures m == head + EncodeCoins(inputs)
  {
    hide LE32, LE64, TruncateU32;
    m := head;
    var i := 0;
    assert inputs[0..] == inputs;
    while i < |inputs|
      invariant 0 <= i <= |inputs|
      invariant m + EncodeCoins(inputs[i..]) == head + EncodeCoins(inputs)
    {
      FirstCoin(inputs, i);
      ghost var before := m;
      m := m + inputs[i].outpoint.txid;
      m := m + LE32(TruncateU32(inputs[i].outpoint.vout));
      m := m + LE64(inputs[i].amount);
      assert m == before + EncodeCoin(inputs[i]);
      assert m + EncodeCoins(inputs[i + 1..]) == before + EncodeCoins(inputs[i..]);
      i := i + 1;
    }
  }

  lemma FirstCoin(inputs: seq<Coin>, i: nat)
    requires i < |inputs|
    ensures EncodeCoins(inputs[i..]) == EncodeCoin(inputs[i]) + EncodeCoins(inputs[i + 1..])
  {
    assert inputs[i..][1..] == inputs[i + 1..];
  }

  // ---------------------------------------------------------------- layout

  /** Every fixed field sits at the offset the layout table gives it. */
  lemma FixedLayout(f: Intent)
    ensures Fixed(f)[0..17] == PAYOUT_TAG
    ensures Fixed(f)[17..18] == [f.version]
    ensures Fixed(f)[18..26] == LEi64(f.index)
    ensures Fixed(f)[26..46] == f.vault
    ensures Fixed(f)[46..66] == f.dest
    ensures Fixed(f)[66..74] == LE64(f.payout)
    ensures Fixed(f)[74..82] == LE64(f.fee)
    ensures Fixed(f)[82..90] == LE64(f.change)
    ensures Fixed(f)[90..110] == f.changeHash
    ensures Fixed(f)[110..114] == LE32(f.attempt)
  {
  }

  lemma EncodeLayout(f: Intent)
    ensures |Encode(f)| >= FIXED_LEN
    ensures Encode(f)[..FIXED_LEN] == Fixed(f)
    ensures Encode(f)[FIXED_LEN..] == Tail(f)
  {
  }

  /** Coin `k` of the list sits at its own place. */
  lemma {:induction false} CoinsInOrder(cs: seq<Coin>, k: nat)
    requires k < |cs|
    ensures EncodeCoins(cs)[COIN_LEN * k..COIN_LEN * k + COIN_LEN] == EncodeCoin(cs[k])
  {
    hide EncodeCoin;
    if k > 0 {
      CoinsInOrder(cs[1..], k - 1);
      assert EncodeCoins(cs)[COIN_LEN * k..COIN_LEN * k + COIN_LEN]
             == EncodeCoins(cs[1..])[COIN_LEN * (k - 1)..COIN_LEN * (k - 1) + COIN_LEN];
    }
  }

  /** The variable part by position: the quorum's size and members, the number
      of inputs, and then each input's txid, index and amount. */
  lemma TailLayout(f: Intent, k: nat)
    ensures var t, q := Tail(f), |f.quorum|;
            && |t| == 5 + q + COIN_LEN * |f.inputs|
            && t[0] == q % 256 && t[1..1 + q] == f.quorum && t[1 + q..5 + q] == LE32(TruncateU32(|f.inputs|))
            && (k < |f.inputs| ==>
                  var at := 5 + q + COIN_LEN * k;
                  && t[at..at + 32] == f.inputs[k].outpoint.txid
                  && t[at + 32..at + 36] == LE32(TruncateU32(f.inputs[k].outpoint.vout))
                  && t[at + 36..at + 44] == LE64(f.inputs[k].amount))
  {
    hide EncodeCoin, EncodeCoins, LE32, LE64;
    var t, q := Tail(f), |f.quorum|;
    assert t[1..1 + q] == f.quorum && t[1 + q..5 + q] == LE32(TruncateU32(|f.inputs|)) && t[5 + q..] == EncodeCoins(f.inputs);
    if k < |f.inputs| {
      CoinsInOrder(f.inputs, k);
      CoinLayout(f.inputs[k]);
      var at, coin := 5 + q + COIN_LEN * k, t[5 + q..][COIN_LEN * k..COIN_LEN * k + COIN_LEN];
      assert t[at..at + 32] == coin[..32] && t[at + 32..at + 36] == coin[32..36] && t[at + 36..at + 44] == coin[36..44];
    }
  }

  // --------------------------------------------------------------- decoding

  function DecodeCoins(m: seq<byte>): (cs: seq<Coin>)
    requires |m| % COIN_LEN == 0
    ensures COIN_LEN * |cs| == |m|
    ensures forall k :: 0 <= k < |cs| ==> 0 <= cs[k].outpoint.vout < 0x1_0000_0000
    decreases |m|
  {
    if m == [] then [] else
      Pow256Widths();
      [Coin(Outpoint(m[..32], FromLE(m[32..36])), FromLE(m[36..44]))] + DecodeCoins(m[44..])
  }

  /** The encoder narrows three quantities: the quorum size to one byte, the
      input count and every output index to 32 bits. */
  predicate InBounds(f: Intent) {
    && |f.quorum| < 256
    && |f.inputs| < 0x1_0000_0000
    && forall k :: 0 <= k < |f.inputs| ==> 0 <= f.inputs[k].outpoint.vout < 0x1_0000_0000
  }

  function DecodeTail(t: seq<byte>): (r: Option<(seq<byte>, seq<Coin>)>)
    ensures r.Some? ==>
              && |r.value.0| < 256 && |r.value.1| < 0x1_0000_0000
              && forall k :: 0 <= k < |r.value.1| ==> 0 <= r.value.1[k].outpoint.vout < 0x1_0000_0000
  {
    Pow256Widths();
    if |t| < 5 then None else
      var q := t[0] as int;
      if |t| < 5 + q then None else
        var count := FromLE(t[1 + q..5 + q]);
        var rest := t[5 + q..];
        if |rest| != COIN_LEN * count then None else Some((t[1..1 + q], DecodeCoins(rest)))
  }

  function Decode(m: seq<byte>): (r: Option<Intent>)
    ensures r.Some? ==> InBounds(r.value)
  {
    Pow256Widths();
    if |m| < FIXED_LEN || m[..17] != PAYOUT_TAG then None else
      match DecodeTail(m[FIXED_LEN..])
      case None => None
      case Some((quorum, inputs)) =>
        Some(Intent(m[17], ReadI64(m[18..26]), m[26..46], m[46..66], FromLE(m[66..74]), FromLE(m[74..82]),
                    FromLE(m[82..90]), m[90..110], FromLE(m[110..114]), quorum, inputs))
  }

  lemma CoinLayout(c: Coin)
    ensures EncodeCoin(c)[..32] == c.outpoint.txid
    ensures EncodeCoin(c)[32..36] == LE32(TruncateU32(c.outpoint.vout))
    ensures EncodeCoin(c)[36..44] == LE64(c.amount)
  {
  }

  lemma DecodeEncodeCoin(c: Coin)
    requires 0 <= c.outpoint.vout < 0x1_0000_0000
    ensures var m := EncodeCoin(c);
            m[..32] == c.outpoint.txid && FromLE(m[32..36]) == c.outpoint.vout && FromLE(m[36..44]) == c.amount
  {
    hide EncodeCoin, LE, FromLE;
    CoinLayout(c);
    ReadBack32(c.outpoint.vout);
    ReadBack64(c.amount);
  }

  lemma {:induction false} DecodeEncodeCoins(cs: seq<Coin>)
    requires forall k :: 0 <= k < |cs| ==> 0 <= cs[k].outpoint.vout < 0x1_0000_0000
    ensures DecodeCoins(EncodeCoins(cs)) == cs
  {
    if cs == [] {
    } else {
      var m := EncodeCoins(cs);
      var head := EncodeCoin(cs[0]);
      DecodeEncodeCoin(cs[0]);
      DecodeEncodeCoins(cs[1..]);
      assert m[..32] == head[..32] && m[32..36] == head[32..36] && m[36..44] == head[36..44];
      assert m[44..] == EncodeCoins(cs[1..]);
      assert cs == [cs[0]] + cs[1..];
    }
  }

  lemma ReadFixed(f: Intent)
    ensures var m := Fixed(f);
            && m[..17] == PAYOUT_TAG && m[17] == f.version && ReadI64(m[18..26]) == f.index
            && m[26..46] == f.vault && m[46..66] == f.dest && FromLE(m[66..74]) == f.payout
            && FromLE(m[74..82]) == f.fee && FromLE(m[82..90]) == f.change && m[90..110] == f.changeHash
            && FromLE(m[110..114]) == f.attempt
  {
    hide Fixed, LE, FromLE;
    FixedLayout(f);
    var m := Fixed(f);
    assert m[17] == m[17..18][0];
    ReadBackI64(f.index);
    ReadBack64(f.payout);
    ReadBack64(f.fee);
    ReadBack64(f.change);
    ReadBack32(f.attempt);
  }

  lemma ReadTail(f: Intent)
    requires InBounds(f)
    ensures DecodeTail(Tail(f)) == Some((f.quorum, f.inputs))
  {
    hide EncodeCoins, DecodeCoins, LE, FromLE;
    var t, q := Tail(f), |f.quorum|;
    assert t[0] == q;
    assert t[1..1 + q] == f.quorum;
    assert t[1 + q..5 + q] == LE32(|f.inputs|);
    assert t[5 + q..] == EncodeCoins(f.inputs);
    ReadBack32(|f.inputs|);
    DecodeEncodeCoins(f.inputs);
  }

  /** The decoder undoes the encoder exactly on the intents whose counts and
      output indices fit the widths the encoder narrows them to. */
  lemma RoundTrip(f: Intent)
    ensures Decode(Encode(f)) == Some(f) <==> InBounds(f)
  {
    if InBounds(f) {
      var m, fixed := Encode(f), Fixed(f);
      EncodeLayout(f);
      ReadFixed(f);
      ReadTail(f);
      assert forall a, b :: 0 <= a <= b <= FIXED_LEN ==> m[a..b] == fixed[a..b];
      assert m[17] == fixed[17];
    }
  }

  /** So two in-bounds intents never share an encoding. */
  lemma EncodeInjective(f: Intent, g: Intent)
    requires InBounds(f) && InBounds(g) && Encode(f) == Encode(g)
    ensures f == g
  {
    RoundTrip(f);
    RoundTrip(g);
  }

  /** The fixed fields are recovered whatever the quorum and the inputs. */
  lemma SameFixedFields(f: Intent, g: Intent)
    requires Encode(f) == Encode(g)
    ensures g == f.(quorum := g.quorum, inputs := g.inputs)
  {
    EncodeLayout(f);
    EncodeLayout(g);
    ReadFixed(f);
    ReadFixed(g);
  }

  lemma EncodedByParts(f: Intent, g: Intent)
    requires Fixed(f) == Fixed(g) && f.quorum == g.quorum
    requires |f.inputs| == |g.inputs| && EncodeCoins(f.inputs) == EncodeCoins(g.inputs)
    ensures Encode(f) == Encode(g)
  {
    hide Fixed, EncodeCoins;
  }

  /** Without the bound the encoding is ambiguous: an output index and the
      same index plus 2^32 are indistinguishable. */
  lemma VoutAliases(f: Intent, c: Coin)
    requires f.inputs == [c] && 0 <= c.outpoint.vout < 0x1_0000_0000
    ensures var alias := c.(outpoint := Outpoint(c.outpoint.txid, c.outpoint.vout + 0x1_0000_0000));
            f != f.(inputs := [alias]) && Encode(f) == Encode(f.(inputs := [alias]))
  {
    var alias := c.(outpoint := Outpoint(c.outpoint.txid, c.outpoint.vout + 0x1_0000_0000));
    var g := f.(inputs := [alias]);
    assert f.inputs[0] != g.inputs[0];
    SameCoinBytes(c);
    FixedIgnoresInputs(f, [alias]);
    hide Encode, Fixed, Tail, EncodeCoins;
    EncodedByParts(f, g);
  }

  lemma FixedIgnoresInputs(f: Intent, inputs: seq<Coin>)
    ensures Fixed(f) == Fixed(f.(inputs := inputs))
  {
  }

  lemma SameCoinBytes(c: Coin)
    requires 0 <= c.outpoint.vout < 0x1_0000_0000
    ensures var alias := c.(outpoint := Outpoint(c.outpoint.txid, c.outpoint.vout + 0x1_0000_0000));
            EncodeCoins([c]) == EncodeCoins([alias])
  {
    var alias := c.(outpoint := Outpoint(c.outpoint.txid, c.outpoint.vout + 0x1_0000_0000));
    SameTruncation(c.outpoint.vout);
    hide LE32, LE64, TruncateU32;
    assert EncodeCoin(c) == EncodeCoin(alias);
    hide EncodeCoin;
    assert [c][1..] == [] && [alias][1..] == [];
  }

  lemma SameTruncation(x: int)
    ensures TruncateU32(x + 0x1_0000_0000) == TruncateU32(x)
  {
  }

  /** Each reassignment of the quorum commits to different bytes, whatever
      else changes with it. */
  lemma AttemptsDiffer(f: Intent, g: Intent)
    requires f.attempt != g.attempt
    ensures Encode(f) != Encode(g)
  {
    EncodeLayout(f);
    EncodeLayout(g);
    ReadFixed(f);
    ReadFixed(g);
  }

  // ------------------------------------------------------------ attribution

  datatype Field =
    | DomainTag | ProtocolVersion | WithdrawalIndex | VaultScriptHash | DestHash160
    | PayoutAtomic | FeeAtomic | ChangeAtomic | ChangeHash160 | QuorumAttempt | QuorumOrInputs

  const FIXED_FIELDS: seq<Field> := [
    DomainTag, ProtocolVersion, WithdrawalIndex, VaultScriptHash, DestHash160,
    PayoutAtomic, FeeAtomic, ChangeAtomic, ChangeHash160, QuorumAttempt]

  /** The layout table: where a fixed field starts, and where it ends. */
  function Span(x: Field): (r: (nat, nat))
    ensures r.0 <= r.1 <= FIXED_LEN
  {
    match x
    case DomainTag => (0, 17)
    case ProtocolVersion => (17, 18)
    case WithdrawalIndex => (18, 26)
    case VaultScriptHash => (26, 46)
    case DestHash160 => (46, 66)
    case PayoutAtomic => (66, 74)
    case FeeAtomic => (74, 82)
    case ChangeAtomic => (82, 90)
    case ChangeHash160 => (90, 110)
    case QuorumAttempt => (110, 114)
    case QuorumOrInputs => (114, 114)
  }

  function At(m: seq<byte>, x: Field): (s: seq<byte>)
    requires |m| >= FIXED_LEN
  {
    m[Span(x).0..Span(x).1]
  }

  function Differing(fields: seq<Field>, a: seq<byte>, b: seq<byte>): (names: seq<Field>)
    requires |a| >= FIXED_LEN && |b| >= FIXED_LEN
    ensures forall x :: x in names <==> x in fields && At(a, x) != At(b, x)
  {
    if fields == [] then [] else
      (if At(a, fields[0]) != At(b, fields[0]) then [fields[0]] else []) + Differing(fields[1..], a, b)
  }

  /** The variable-length tail has one name. */
  function TailName(recomputed: seq<byte>, stored: seq<byte>): seq<Field>
    requires |recomputed| >= FIXED_LEN && |stored| >= FIXED_LEN
  {
    if recomputed[FIXED_LEN..] != stored[FIXED_LEN..] then [QuorumOrInputs] else []
  }

  /** `None` stands for "no attribution": an input too short to have the
      fixed fields, or nothing that differs. */
  function DiffPayoutFields(recomputed: seq<byte>, stored: seq<byte>): (names: Option<seq<Field>>)
  {
    if |recomputed| < FIXED_LEN || |stored| < FIXED_LEN then None else
      var all := Differing(FIXED_FIELDS, recomputed, stored) + TailName(recomputed, stored);
      if all == [] then None else Some(all)
  }

  /** Layout order, and no field twice. */
  predicate InOrder(names: seq<Field>) {
    forall j, k :: 0 <= j < k < |names| ==> Span(names[j]).0 < Span(names[k]).0
  }

  lemma {:induction false} DifferingInOrder(fields: seq<Field>, a: seq<byte>, b: seq<byte>)
    requires |a| >= FIXED_LEN && |b| >= FIXED_LEN && InOrder(fields)
    ensures InOrder(Differing(fields, a, b))
  {
    hide At, Span;
    if fields == [] {
    } else {
      var rest := Differing(fields[1..], a, b);
      assert InOrder(fields[1..]);
      DifferingInOrder(fields[1..], a, b);
      forall k | 0 <= k < |rest| ensures Span(fields[0]).0 < Span(rest[k]).0 {
        assert rest[k] in fields[1..];
        var j :| 0 <= j < |fields[1..]| && fields[1..][j] == rest[k];
        assert fields[j + 1] == rest[k];
      }
    }
  }

  /** The fixed fields leave no byte of the fixed part out. */
  lemma Covering(k: nat) returns (x: Field)
    requires k < FIXED_LEN
    ensures x in FIXED_FIELDS && Span(x).0 <= k < Span(x).1
  {
    x := if k < 17 then DomainTag else if k < 18 then ProtocolVersion else if k < 26 then WithdrawalIndex
    else if k < 46 then VaultScriptHash else if k < 66 then DestHash160 else if k < 74 then PayoutAtomic
    else if k < 82 then FeeAtomic else if k < 90 then ChangeAtomic else if k < 110 then ChangeHash160 else QuorumAttempt;
    EveryFieldListed(x);
  }

  lemma SameFixedPart(a: seq<byte>, b: seq<byte>)
    requires |a| >= FIXED_LEN && |b| >= FIXED_LEN
    requires forall x :: x in FIXED_FIELDS ==> At(a, x) == At(b, x)
    ensures a[..FIXED_LEN] == b[..FIXED_LEN]
  {
    forall k | 0 <= k < FIXED_LEN ensures a[k] == b[k] {
      var x := Covering(k);
      assert At(a, x)[k - Span(x).0] == a[k] && At(b, x)[k - Span(x).0] == b[k];
    }
  }

  /** Where the bytes a name stands for differ. */
  predicate DiffersIn(a: seq<byte>, b: seq<byte>, x: Field)
    requires |a| >= FIXED_LEN && |b| >= FIXED_LEN
  {
    if x == QuorumOrInputs then a[FIXED_LEN..] != b[FIXED_LEN..] else At(a, x) != At(b, x)
  }

  /** On any two byte strings, canonical or not: there is no attribution
      exactly when they are equal or one is too short to have the fixed
      fields; otherwise exactly the fields that differ are named, in layout
      order and once each. */
  lemma AttributionNamesExactly(a: seq<byte>, b: seq<byte>)
    ensures DiffPayoutFields(a, b) == None <==> |a| < FIXED_LEN || |b| < FIXED_LEN || a == b
    ensures DiffPayoutFields(a, b).Some? ==>
              && |a| >= FIXED_LEN && |b| >= FIXED_LEN && InOrder(DiffPayoutFields(a, b).value)
              && forall x :: x in DiffPayoutFields(a, b).value <==> DiffersIn(a, b, x)
  {
    if |a| >= FIXED_LEN && |b| >= FIXED_LEN {
      hide InOrder, DiffersIn, Differing, At, TailName;
      FixedNamesExactly(a, b);
      NoFixedNames(a, b);
      WithTail(Differing(FIXED_FIELDS, a, b), a, b);
    }
  }

  lemma WithTail(fixed: seq<Field>, a: seq<byte>, b: seq<byte>)
    requires |a| >= FIXED_LEN && |b| >= FIXED_LEN
    requires forall x :: x in fixed <==> x != QuorumOrInputs && At(a, x) != At(b, x)
    requires InOrder(fixed + [QuorumOrInputs]) && InOrder(fixed)
    requires fixed == [] <==> a[..FIXED_LEN] == b[..FIXED_LEN]
    ensures var all := fixed + TailName(a, b);
            (all == [] <==> a == b) && InOrder(all) && forall x :: x in all <==> DiffersIn(a, b, x)
  {
    hide InOrder, At;
    assert a == a[..FIXED_LEN] + a[FIXED_LEN..] && b == b[..FIXED_LEN] + b[FIXED_LEN..];
    assert fixed + [] == fixed;
  }

  lemma FixedNamesExactly(a: seq<byte>, b: seq<byte>)
    requires |a| >= FIXED_LEN && |b| >= FIXED_LEN
    ensures var fixed := Differing(FIXED_FIELDS, a, b);
            && (forall x :: x in fixed <==> x != QuorumOrInputs && At(a, x) != At(b, x))
            && InOrder(fixed + [QuorumOrInputs]) && InOrder(fixed)
  {
    FixedInOrder();
    DifferingInOrder(FIXED_FIELDS, a, b);
    var fixed := Differing(FIXED_FIELDS, a, b);
    forall x ensures x in fixed <==> x != QuorumOrInputs && At(a, x) != At(b, x) {
      EveryFieldListed(x);
    }
    hide Differing, At, FIXED_FIELDS;
    forall k | 0 <= k < |fixed| ensures Span(fixed[k]).0 < Span(QuorumOrInputs).0 {
      assert fixed[k] in fixed;
      BeforeTheTail(fixed[k]);
    }
  }

  lemma NoFixedNames(a: seq<byte>, b: seq<byte>)
    requires |a| >= FIXED_LEN && |b| >= FIXED_LEN
    ensures Differing(FIXED_FIELDS, a, b) == [] <==> a[..FIXED_LEN] == b[..FIXED_LEN]
  {
    var fixed := Differing(FIXED_FIELDS, a, b);
    hide FIXED_FIELDS;
    if fixed == [] {
      forall x | x in FIXED_FIELDS ensures At(a, x) == At(b, x) {
        assert x !in fixed;
      }
      SameFixedPart(a, b);
    } else {
      assert fixed[0] in fixed;
      assert At(a, fixed[0]) == a[..FIXED_LEN][Span(fixed[0]).0..Span(fixed[0]).1];
      assert At(b, fixed[0]) == b[..FIXED_LEN][Span(fixed[0]).0..Span(fixed[0]).1];
    }
  }

  lemma FixedInOrder()
    ensures InOrder(FIXED_FIELDS) && QuorumOrInputs !in FIXED_FIELDS
  {
  }

  lemma BeforeTheTail(x: Field)
    ensures x != QuorumOrInputs ==> Span(x).0 < Span(QuorumOrInputs).0
  {
  }

  /** Whether two intents disagree in the quantity a field name stands for. */
  predicate Changed(x: Field, f: Intent, g: Intent) {
    match x
    case DomainTag => false
    case ProtocolVersion => f.version != g.version
    case WithdrawalIndex => f.index != g.index
    case VaultScriptHash => f.vault != g.vault
    case DestHash160 => f.dest != g.dest
    case PayoutAtomic => f.payout != g.payout
    case FeeAtomic => f.fee != g.fee
    case ChangeAtomic => f.change != g.change
    case ChangeHash160 => f.changeHash != g.changeHash
    case QuorumAttempt => f.attempt != g.attempt
    case QuorumOrInputs => f.quorum != g.quorum || f.inputs != g.inputs
  }

  lemma FixedFieldDecides(x: Field, f: Intent, g: Intent)
    requires x in FIXED_FIELDS
    ensures At(Encode(f), x) != At(Encode(g), x) <==> Changed(x, f, g)
  {
    hide Encode, Fixed, LE, FromLE;
    EncodeLayout(f);
    EncodeLayout(g);
    ReadFixed(f);
    ReadFixed(g);
    FixedLayout(f);
    FixedLayout(g);
    AtOfPrefix(Encode(f), Fixed(f), x);
    AtOfPrefix(Encode(g), Fixed(g), x);
  }

  /** A fixed field lies in the fixed part. */
  lemma AtOfPrefix(m: seq<byte>, fixed: seq<byte>, x: Field)
    requires |m| >= FIXED_LEN && m[..FIXED_LEN] == fixed
    ensures At(m, x) == fixed[Span(x).0..Span(x).1]
  {
    var a, b := Span(x).0, Span(x).1;
    hide Span;
    SliceOfPrefix(m, FIXED_LEN, a, b);
  }

  lemma SliceOfPrefix(m: seq<byte>, n: nat, a: nat, b: nat)
    requires a <= b <= n <= |m|
    ensures m[a..b] == m[..n][a..b]
  {
    forall k | 0 <= k < b - a ensures m[a..b][k] == m[..n][a..b][k] {
    }
  }

  lemma TailDecides(f: Intent, g: Intent)
    requires InBounds(f) && InBounds(g)
    ensures Tail(f) == Tail(g) <==> !Changed(QuorumOrInputs, f, g)
  {
    ReadTail(f);
    ReadTail(g);
  }

  /** Between two canonical intents the names are the quantities that changed. */
  lemma AttributionIsExact(f: Intent, g: Intent)
    requires InBounds(f) && InBounds(g)
    ensures var names := DiffPayoutFields(Encode(f), Encode(g));
            && (names == None <==> f == g)
            && (names.Some? ==> forall x :: x in names.value <==> Changed(x, f, g))
  {
    AttributionNamesExactly(Encode(f), Encode(g));
    if Encode(f) == Encode(g) {
      EncodeInjective(f, g);
    }
    EncodeLayout(f);
    EncodeLayout(g);
    TailDecides(f, g);
    hide Encode, At, Fixed, Tail, Changed, DiffPayoutFields, InBounds;
    forall x ensures DiffersIn(Encode(f), Encode(g), x) <==> Changed(x, f, g) {
      EveryFieldListed(x);
      if x in FIXED_FIELDS {
        FixedFieldDecides(x, f, g);
      }
    }
  }

  lemma EveryFieldListed(x: Field)
    ensures x in FIXED_FIELDS || x == QuorumOrInputs
  {
    assert FIXED_FIELDS[0] == DomainTag && FIXED_FIELDS[1] == ProtocolVersion && FIXED_FIELDS[2] == WithdrawalIndex;
    assert FIXED_FIELDS[3] == VaultScriptHash && FIXED_FIELDS[4] == DestHash160 && FIXED_FIELDS[5] == PayoutAtomic;
    assert FIXED_FIELDS[6] == FeeAtomic && FIXED_FIELDS[7] == ChangeAtomic && FIXED_FIELDS[8] == ChangeHash160;
    assert FIXED_FIELDS[9] == QuorumAttempt;
  }
}
