/** The strict parser of the signature instruction: which validators signed
    exactly the expected message, as counted before anything is minted. */
module SignatureParser {
  import opened Bytes
  import opened Wrappers
  import opened SignedMessages

  datatype BridgeError =
    | MalformedSignatureVerification | SignatureMessageMismatch | UnknownValidatorSignature | DuplicateValidatorSignature

  const HEADER := 2
  const ENTRY := 14
  const SIGNATURE := 64
  const PUBKEY := 32
  const SELF_REFERENCE: u16 := 0xFFFF
  /** The width of the mask of validators seen. */
  const MASK_BITS := 16

  function U16At(data: seq<byte>, offset: nat): Option<u16> {
    if offset + 2 <= |data| then Some(data[offset] as int + 256 * data[offset + 1] as int) else None
  }

  /** `data.get(from..from + len)`. */
  function Get(data: seq<byte>, from: nat, len: nat): Option<seq<byte>> {
    if from + len <= |data| then Some(data[from..from + len]) else None
  }

  datatype Entry = Entry(sig: u16, sigIx: u16, key: u16, keyIx: u16, msg: u16, size: u16, msgIx: u16)

  function Base(i: nat): nat { HEADER + ENTRY * i }

  predicate EntryInBounds(data: seq<byte>, i: nat) { Base(i) + ENTRY <= |data| }

  function EntryAt(data: seq<byte>, i: nat): Entry
    requires EntryInBounds(data, i)
  {
    var b := Base(i);
    Entry(U16At(data, b).value, U16At(data, b + 2).value, U16At(data, b + 4).value, U16At(data, b + 6).value,
          U16At(data, b + 8).value, U16At(data, b + 10).value, U16At(data, b + 12).value)
  }

  function KeyAt(data: seq<byte>, i: nat): Option<seq<byte>> {
    if EntryInBounds(data, i) then Get(data, EntryAt(data, i).key, PUBKEY) else None
  }

  // ------------------------------------------------- what the parser admits

  /** Entry `i` refers to nothing outside its own instruction, covers exactly
      the expected message, and names one of the validators the mask can hold. */
  predicate GoodEntry(data: seq<byte>, message: seq<byte>, validators: seq<Hash32>, i: nat) {
    && EntryInBounds(data, i)
    && var e := EntryAt(data, i);
    && e.sigIx == e.keyIx == e.msgIx == SELF_REFERENCE
    && e.sig + SIGNATURE <= |data|
    && e.msg + e.size <= |data| && data[e.msg..e.msg + e.size] == message
    && e.key + PUBKEY <= |data| && data[e.key..e.key + PUBKEY] in Countable(validators)
  }

  function Countable(validators: seq<Hash32>): seq<Hash32> {
    if |validators| <= MASK_BITS then validators else validators[..MASK_BITS]
  }

  predicate DistinctSigners(data: seq<byte>, n: nat) {
    forall i, j :: 0 <= i < j < n ==> KeyAt(data, i) != KeyAt(data, j)
  }

  predicate GoodHeader(data: seq<byte>) { |data| >= HEADER && data[0] >= 1 && data[1] == 0 }

  predicate Accepts(data: seq<byte>, message: seq<byte>, validators: seq<Hash32>) {
    && GoodHeader(data)
    && (forall i :: 0 <= i < data[0] ==> GoodEntry(data, message, validators, i))
    && DistinctSigners(data, data[0])
  }

  // ------------------------------------------------------- the verdict

  /** The first position of the key, or the length. */
  function Position(validators: seq<Hash32>, key: seq<byte>): (p: nat)
    ensures p <= |validators|
    ensures p < |validators| ==> validators[p] == key
    ensures key !in validators[..p]
    ensures p < |validators| <==> key in validators
  {
    if validators == [] then 0
    else if validators[0] == key then 0
    else
      var p := Position(validators[1..], key);
      assert validators[..p + 1] == [validators[0]] + validators[1..][..p];
      p + 1
  }

  /** One entry on its own: the signer's position, or the first check it fails. */
  function Signer(data: seq<byte>, message: seq<byte>, validators: seq<Hash32>, i: nat): (r: Result<nat, BridgeError>)
    ensures r.Ok? ==> r.value < MASK_BITS
  {
    if !EntryInBounds(data, i) then Err(MalformedSignatureVerification) else
      var e := EntryAt(data, i);
      if e.sigIx != SELF_REFERENCE || e.keyIx != SELF_REFERENCE || e.msgIx != SELF_REFERENCE then
        Err(MalformedSignatureVerification)
      else if Get(data, e.sig, SIGNATURE) == None then Err(MalformedSignatureVerification)
      else if Get(data, e.msg, e.size) == None then Err(MalformedSignatureVerification)
      else if Get(data, e.msg, e.size).value != message then Err(SignatureMessageMismatch)
      else if Get(data, e.key, PUBKEY) == None then Err(MalformedSignatureVerification)
      else
        var p := Position(validators, Get(data, e.key, PUBKEY).value);
        if p == |validators| then Err(UnknownValidatorSignature)
        else if p >= MASK_BITS then Err(MalformedSignatureVerification)
        else Ok(p)
  }

  function Scan(data: seq<byte>, message: seq<byte>, validators: seq<Hash32>, i: nat, n: nat, seen: set<nat>)
    : Result<nat, BridgeError>
    decreases n - i
  {
    if i >= n then Ok(i) else
      match Signer(data, message, validators, i)
      case Err(e) => Err(e)
      case Ok(p) =>
        if p in seen then Err(DuplicateValidatorSignature)
        else Scan(data, message, validators, i + 1, n, seen + {p})
  }

  function Parse(data: seq<byte>, message: seq<byte>, validators: seq<Hash32>): Result<nat, BridgeError> {
    if !GoodHeader(data) then Err(MalformedSignatureVerification)
    else Scan(data, message, validators, 0, data[0], {})
  }

  lemma PositionOfKey(validators: seq<Hash32>, key: seq<byte>)
    ensures Position(validators, key) < |validators| && Position(validators, key) < MASK_BITS <==> key in Countable(validators)
  {
  }

  lemma SignerExactly(data: seq<byte>, message: seq<byte>, validators: seq<Hash32>, i: nat)
    ensures Signer(data, message, validators, i).Ok? <==> GoodEntry(data, message, validators, i)
    ensures Signer(data, message, validators, i).Ok? ==>
              && KeyAt(data, i).Some? && Signer(data, message, validators, i).value == Position(validators, KeyAt(data, i).value)
              && KeyAt(data, i).value in Countable(validators)
  {
    if KeyAt(data, i).Some? {
      PositionOfKey(validators, KeyAt(data, i).value);
    }
  }

  lemma SamePositionSameKey(validators: seq<Hash32>, a: seq<byte>, b: seq<byte>)
    requires Position(validators, a) == Position(validators, b) < |validators|
    ensures a == b
  {
  }

  /** The positions the first `i` entries sign for. */
  ghost predicate Seen(data: seq<byte>, message: seq<byte>, validators: seq<Hash32>, i: nat, seen: set<nat>) {
    && (forall k :: 0 <= k < i ==> GoodEntry(data, message, validators, k))
    && (forall p :: p in seen <==> SignedFor(data, message, validators, i, p))
  }

  ghost predicate SignedFor(data: seq<byte>, message: seq<byte>, validators: seq<Hash32>, i: nat, p: nat) {
    exists k :: 0 <= k < i && Signer(data, message, validators, k) == Ok(p)
  }

  lemma SeenMore(data: seq<byte>, message: seq<byte>, validators: seq<Hash32>, i: nat, seen: set<nat>, p: nat)
    requires Seen(data, message, validators, i, seen) && Signer(data, message, validators, i) == Ok(p)
    ensures Seen(data, message, validators, i + 1, seen + {p})
    ensures p in seen <==> exists k :: 0 <= k < i && KeyAt(data, k) == KeyAt(data, i)
  {
    hide Signer, GoodEntry, Position, KeyAt;
    SignerExactly(data, message, validators, i);
    forall k | 0 <= k < i ensures Signer(data, message, validators, k) == Ok(p) <==> KeyAt(data, k) == KeyAt(data, i) {
      SignerExactly(data, message, validators, k);
      if Signer(data, message, validators, k) == Ok(p) {
        PositionOfKey(validators, KeyAt(data, k).value);
        SamePositionSameKey(validators, KeyAt(data, k).value, KeyAt(data, i).value);
      }
    }
    forall q ensures q in seen + {p} <==> SignedFor(data, message, validators, i + 1, q) {
      if q in seen {
        assert SignedFor(data, message, validators, i, q);
      }
      if SignedFor(data, message, validators, i + 1, q) && q != p {
        assert SignedFor(data, message, validators, i, q);
      }
    }
    if p in seen {
      assert SignedFor(data, message, validators, i, p);
    }
    if k :| 0 <= k < i && KeyAt(data, k) == KeyAt(data, i) {
      assert SignedFor(data, message, validators, i, p);
    }
  }

  lemma {:induction false} ScanExactly(
      data: seq<byte>, message: seq<byte>, validators: seq<Hash32>, i: nat, n: nat, seen: set<nat>)
    requires i <= n && Seen(data, message, validators, i, seen) && DistinctSigners(data, i)
    ensures var good := (forall k :: 0 <= k < n ==> GoodEntry(data, message, validators, k)) && DistinctSigners(data, n);
            && (good ==> Scan(data, message, validators, i, n, seen) == Ok(n))
            && (!good ==> Scan(data, message, validators, i, n, seen).Err?)
    decreases n - i
  {
    hide Signer, GoodEntry, Position, KeyAt, Seen;
    if i == n {
      SeenGood(data, message, validators, i, seen);
    } else {
      SignerExactly(data, message, validators, i);
      var s := Signer(data, message, validators, i);
      if s.Ok? {
        SeenMore(data, message, validators, i, seen, s.value);
        if s.value in seen {
          assert !DistinctSigners(data, n);
        } else {
          ScanExactly(data, message, validators, i + 1, n, seen + {s.value});
        }
      }
    }
  }

  lemma SeenGood(data: seq<byte>, message: seq<byte>, validators: seq<Hash32>, i: nat, seen: set<nat>)
    requires Seen(data, message, validators, i, seen)
    ensures forall k :: 0 <= k < i ==> GoodEntry(data, message, validators, k)
  {
  }

  /** The parser counts `k` exactly when the bytes hold `k` entries, at least
      one, each in bounds, self-referential and over exactly the expected
      message, by `k` different validators. */
  lemma ParseExactly(data: seq<byte>, message: seq<byte>, validators: seq<Hash32>, k: nat)
    ensures Parse(data, message, validators) == Ok(k) <==> Accepts(data, message, validators) && k == data[0]
  {
    hide Signer, GoodEntry, KeyAt;
    if GoodHeader(data) {
      assert Seen(data, message, validators, 0, {});
      ScanExactly(data, message, validators, 0, data[0], {});
    }
  }

  /** Entry `i` is in bounds, refers only to its own instruction, and so do its
      signature and its message. */
  predicate Framed(data: seq<byte>, i: nat) {
    && EntryInBounds(data, i)
    && var e := EntryAt(data, i);
    && e.sigIx == e.keyIx == e.msgIx == SELF_REFERENCE && e.sig + SIGNATURE <= |data| && e.msg + e.size <= |data|
  }

  /** Why entry `i` on its own is refused: it covers other bytes, its key is no
      validator's, or else its bytes are malformed. */
  predicate FailsAs(data: seq<byte>, message: seq<byte>, validators: seq<Hash32>, i: nat, e: BridgeError) {
    if !Framed(data, i) then e == MalformedSignatureVerification else
      var x := EntryAt(data, i);
      if data[x.msg..x.msg + x.size] != message then e == SignatureMessageMismatch
      else if x.key + PUBKEY > |data| then e == MalformedSignatureVerification
      else
        var key := data[x.key..x.key + PUBKEY];
        if key !in validators then e == UnknownValidatorSignature
        else key !in Countable(validators) && e == MalformedSignatureVerification
  }

  lemma EntryFailsAs(data: seq<byte>, message: seq<byte>, validators: seq<Hash32>, i: nat, e: BridgeError)
    ensures Signer(data, message, validators, i) == Err(e) <==> FailsAs(data, message, validators, i, e)
  {
    if KeyAt(data, i).Some? {
      PositionOfKey(validators, KeyAt(data, i).value);
    }
  }

  /** Entry `i` is the first refused, on its own or as a repeated signer. */
  ghost predicate FirstRefused(data: seq<byte>, message: seq<byte>, validators: seq<Hash32>, i: nat, e: BridgeError) {
    && (forall k :: 0 <= k < i ==> GoodEntry(data, message, validators, k)) && DistinctSigners(data, i)
    && (FailsAs(data, message, validators, i, e)
        || (GoodEntry(data, message, validators, i) && e == DuplicateValidatorSignature && Repeats(data, i)))
  }

  ghost predicate Repeats(data: seq<byte>, i: nat) { exists k :: 0 <= k < i && KeyAt(data, k) == KeyAt(data, i) }

  lemma {:induction false} ScanRefuses(
      data: seq<byte>, message: seq<byte>, validators: seq<Hash32>, i: nat, n: nat, seen: set<nat>) returns (k: nat)
    requires i <= n && Seen(data, message, validators, i, seen) && DistinctSigners(data, i)
    requires Scan(data, message, validators, i, n, seen).Err?
    ensures k < n && FirstRefused(data, message, validators, k, Scan(data, message, validators, i, n, seen).error)
    decreases n - i
  {
    hide Signer, GoodEntry, Position, KeyAt, FailsAs;
    SeenGood(data, message, validators, i, seen);
    SignerExactly(data, message, validators, i);
    var s := Signer(data, message, validators, i);
    if s.Err? {
      EntryFailsAs(data, message, validators, i, s.error);
      k := i;
    } else {
      SeenMore(data, message, validators, i, seen, s.value);
      if s.value in seen {
        assert Repeats(data, i);
        k := i;
      } else {
        k := ScanRefuses(data, message, validators, i + 1, n, seen + {s.value});
      }
    }
  }

  lemma OneFirstRefused(
      data: seq<byte>, message: seq<byte>, validators: seq<Hash32>, i: nat, e: BridgeError, j: nat, f: BridgeError)
    requires FirstRefused(data, message, validators, i, e) && FirstRefused(data, message, validators, j, f)
    ensures e == f
  {
    EntryFailsAs(data, message, validators, i, e);
    EntryFailsAs(data, message, validators, j, f);
    SignerExactly(data, message, validators, i);
    SignerExactly(data, message, validators, j);
    EntryFailsAs(data, message, validators, i, f);
    hide Signer, GoodEntry, KeyAt, FailsAs;
  }

  /** The parser's error is that of the header, or else of the first entry that
      is refused, in the order of the entries. */
  lemma RejectsExactly(data: seq<byte>, message: seq<byte>, validators: seq<Hash32>, e: BridgeError)
    ensures Parse(data, message, validators) == Err(e) <==>
              if GoodHeader(data) then exists i :: 0 <= i < data[0] && FirstRefused(data, message, validators, i, e)
              else e == MalformedSignatureVerification
  {
    hide FirstRefused, Signer, GoodEntry, KeyAt;
    if GoodHeader(data) {
      assert Seen(data, message, validators, 0, {});
      var r := Parse(data, message, validators);
      if r.Err? {
        var k := ScanRefuses(data, message, validators, 0, data[0], {});
        if i :| 0 <= i < data[0] && FirstRefused(data, message, validators, i, e) {
          OneFirstRefused(data, message, validators, k, r.error, i, e);
        }
      } else {
        ParseExactly(data, message, validators, r.value);
        forall i | 0 <= i < data[0] ensures !FirstRefused(data, message, validators, i, e) {
          AcceptedNotRefused(data, message, validators, i, e);
        }
      }
    }
  }

  lemma AcceptedNotRefused(data: seq<byte>, message: seq<byte>, validators: seq<Hash32>, i: nat, e: BridgeError)
    requires Accepts(data, message, validators) && i < data[0]
    ensures !FirstRefused(data, message, validators, i, e)
  {
    EntryFailsAs(data, message, validators, i, e);
    SignerExactly(data, message, validators, i);
    hide Signer, GoodEntry, KeyAt, FailsAs;
  }

  lemma GoodKey(data: seq<byte>, message: seq<byte>, validators: seq<Hash32>, i: nat) returns (key: Hash32)
    requires GoodEntry(data, message, validators, i)
    ensures KeyAt(data, i) == Some(key) && key in validators
  {
    key := KeyAt(data, i).value;
  }

  lemma {:induction false} KeysOf(data: seq<byte>, message: seq<byte>, validators: seq<Hash32>, n: nat) returns (keys: set<Hash32>)
    requires forall i :: 0 <= i < n ==> GoodEntry(data, message, validators, i)
    requires DistinctSigners(data, n)
    ensures |keys| == n && (forall key :: key in keys ==> key in validators)
    ensures forall key :: key in keys <==> exists i :: 0 <= i < n && KeyAt(data, i) == Some(key)
  {
    hide GoodEntry, KeyAt;
    if n == 0 {
      keys := {};
    } else {
      var rest := KeysOf(data, message, validators, n - 1);
      var key := GoodKey(data, message, validators, n - 1);
      assert key !in rest;
      keys := rest + {key};
    }
  }

  lemma {:induction false} SetOfSeq<T>(s: seq<T>) returns (all: set<T>)
    ensures |all| <= |s| && forall x :: x in s <==> x in all
  {
    if s == [] {
      all := {};
    } else {
      var rest := SetOfSeq(s[1..]);
      all := rest + {s[0]};
    }
  }

  lemma SubsetSize<T>(a: set<T>, b: set<T>)
    requires a <= b
    ensures |a| <= |b|
  {
    assert b == a + (b - a);
  }

  /** What the threshold rests on: a count of `k` is `k` different members of
      the validator set, so it never exceeds the size of that set. */
  lemma CountIsDistinctValidators(data: seq<byte>, message: seq<byte>, validators: seq<Hash32>) returns (keys: set<Hash32>)
    requires Parse(data, message, validators).Ok?
    ensures |keys| == Parse(data, message, validators).value
    ensures forall key :: key in keys ==> key in validators
    ensures 1 <= |keys| <= |validators|
  {
    hide Parse, GoodEntry, KeyAt;
    ParseExactly(data, message, validators, Parse(data, message, validators).value);
    keys := KeysOf(data, message, validators, data[0]);
    var all := SetOfSeq(validators);
    SubsetSize(keys, all);
  }

  // ------------------------------------------------------------ the parser

  /** `1u16 << p`. */
  function Bit(p: nat): bv16
    requires p < MASK_BITS
  {
    match p
    case 0 => 0x0001
    case 1 => 0x0002
    case 2 => 0x0004
    case 3 => 0x0008
    case 4 => 0x0010
    case 5 => 0x0020
    case 6 => 0x0040
    case 7 => 0x0080
    case 8 => 0x0100
    case 9 => 0x0200
    case 10 => 0x0400
    case 11 => 0x0800
    case 12 => 0x1000
    case 13 => 0x2000
    case 14 => 0x4000
    case _ => 0x8000
  }

  function And(x: bv16, y: bv16): bv16 { x & y }

  function Or(x: bv16, y: bv16): bv16 { x | y }

  lemma BitsDiffer(p: nat, q: nat)
    requires p < MASK_BITS && q < MASK_BITS
    ensures And(Bit(p), Bit(q)) != 0 <==> p == q
  {
  }

  lemma AndOverOr(mask: bv16, a: bv16, b: bv16)
    ensures And(Or(mask, a), b) == Or(And(mask, b), And(a, b))
  {
  }

  lemma OrNonZero(a: bv16, b: bv16)
    ensures Or(a, b) != 0 <==> a != 0 || b != 0
  {
  }

  /** `seen & bit != 0`. */
  predicate Has(mask: bv16, p: nat)
    requires p < MASK_BITS
  {
    And(mask, Bit(p)) != 0
  }

  /** `seen | bit`. */
  function With(mask: bv16, p: nat): bv16
    requires p < MASK_BITS
  {
    Or(mask, Bit(p))
  }

  lemma HasWith(mask: bv16, p: nat, q: nat)
    requires p < MASK_BITS && q < MASK_BITS
    ensures Has(With(mask, p), q) <==> Has(mask, q) || p == q
  {
    hide Bit, And, Or;
    BitsDiffer(p, q);
    AndOverOr(mask, Bit(p), Bit(q));
    OrNonZero(And(mask, Bit(q)), And(Bit(p), Bit(q)));
  }

  /** The 16-bit mask holds exactly the positions seen. */
  ghost predicate Refines(mask: bv16, seen: set<nat>) {
    && (forall p :: p in seen ==> p < MASK_BITS)
    && forall p: nat :: p < MASK_BITS ==> (p in seen <==> Has(mask, p))
  }

  lemma NothingSeen()
    ensures Refines(0, {})
  {
  }

  lemma MaskGrows(mask: bv16, seen: set<nat>, position: nat)
    requires Refines(mask, seen) && position < MASK_BITS
    ensures position in seen <==> Has(mask, position)
    ensures Refines(With(mask, position), seen + {position})
  {
    hide Has, With;
    forall p: nat | p < MASK_BITS ensures p in seen + {position} <==> Has(With(mask, position), p) {
      HasWith(mask, position, p);
    }
  }

  /** The checks of one loop iteration up to the duplicate test. */
  method CheckEntry(data: seq<byte>, message: seq<byte>, validators: seq<Hash32>, i: nat) returns (r: Result<nat, BridgeError>)
    ensures r == Signer(data, message, validators, i)
  {
    hide Position;
    var base := HEADER + i * ENTRY;
    var sigAt, sigIx := U16At(data, base), U16At(data, base + 2);
    var keyAt, keyIx := U16At(data, base + 4), U16At(data, base + 6);
    var msgAt, size, msgIx := U16At(data, base + 8), U16At(data, base + 10), U16At(data, base + 12);
    if sigAt == None || sigIx == None || keyAt == None || keyIx == None || msgAt == None || size == None || msgIx == None {
      return Err(MalformedSignatureVerification);
    }
    if sigIx.value != SELF_REFERENCE || keyIx.value != SELF_REFERENCE || msgIx.value != SELF_REFERENCE {
      return Err(MalformedSignatureVerification);
    }
    if Get(data, sigAt.value, SIGNATURE) == None {
      return Err(MalformedSignatureVerification);
    }
    var signed := Get(data, msgAt.value, size.value);
    if signed == None {
      return Err(MalformedSignatureVerification);
    }
    if signed.value != message {
      return Err(SignatureMessageMismatch);
    }
    var key := Get(data, keyAt.value, PUBKEY);
    if key == None {
      return Err(MalformedSignatureVerification);
    }
    var position := Position(validators, key.value);
    if position == |validators| {
      return Err(UnknownValidatorSignature);
    }
    if position >= MASK_BITS {
      return Err(MalformedSignatureVerification);
    }
    r := Ok(position);
  }

  method CountUniqueValidatorSigners(data: seq<byte>, message: seq<byte>, validators: seq<Hash32>)
    returns (r: Result<nat, BridgeError>)
    ensures r == Parse(data, message, validators)
    ensures r.Ok? <==> Accepts(data, message, validators)
    ensures r.Ok? ==> r.value == data[0]
  {
    hide Signer, Has, With, Refines, Accepts;
    ParsedIsAccepted(data, message, validators);
    if |data| < HEADER {
      return Err(MalformedSignatureVerification);
    }
    var n := data[0] as int;
    if n < 1 || data[1] != 0 {
      return Err(MalformedSignatureVerification);
    }
    var mask: bv16 := 0;
    ghost var seen: set<nat> := {};
    NothingSeen();
    var count := 0;
    for i := 0 to n
      invariant count == i && Refines(mask, seen)
      invariant Parse(data, message, validators) == Scan(data, message, validators, i, n, seen)
    {
      var signer := CheckEntry(data, message, validators, i);
      if signer.Err? {
        return Err(signer.error);
      }
      MaskGrows(mask, seen, signer.value);
      if Has(mask, signer.value) {
        return Err(DuplicateValidatorSignature);
      }
      mask := With(mask, signer.value);
      seen := seen + {signer.value};
      count := count + 1;
    }
    r := Ok(count);
  }

  lemma ParsedIsAccepted(data: seq<byte>, message: seq<byte>, validators: seq<Hash32>)
    ensures var r := Parse(data, message, validators);
            (r.Ok? <==> Accepts(data, message, validators)) && (r.Ok? ==> |data| > 0 && r.value == data[0])
  {
    hide Parse, GoodEntry, DistinctSigners;
    var r := Parse(data, message, validators);
    if r.Ok? {
      ParseExactly(data, message, validators, r.value);
    } else if |data| > 0 {
      ParseExactly(data, message, validators, data[0]);
    }
  }

  // ------------------------------------------- the reference instruction

  /** Where the parts of an instruction over `n` entries start. */
  function KeyOffset(n: nat, i: nat): nat { Base(n) + PUBKEY * i }
  function SigOffset(n: nat, i: nat): nat { KeyOffset(n, n) + SIGNATURE * i }
  function MessageOffset(n: nat): nat { SigOffset(n, n) }

  /** A Rust `as u16` cast. */
  function Truncate16(x: nat): u16 { x % 0x1_0000 }

  function Record(n: nat, i: nat, size: nat): (r: seq<byte>)
    ensures |r| == ENTRY
  {
    LE16(Truncate16(SigOffset(n, i))) + (LE16(SELF_REFERENCE)
    + (LE16(Truncate16(KeyOffset(n, i))) + (LE16(SELF_REFERENCE)
    + (LE16(Truncate16(MessageOffset(n))) + (LE16(Truncate16(size)) + LE16(SELF_REFERENCE))))))
  }

  predicate EntryWritten(data: seq<byte>, keys: seq<Hash32>, size: nat, i: nat)
    requires |data| == MessageOffset(|keys|) + size && i < |keys|
  {
    && data[Base(i)..Base(i) + ENTRY] == Record(|keys|, i, size)
    && data[KeyOffset(|keys|, i)..KeyOffset(|keys|, i) + PUBKEY] == keys[i]
  }

  /** Well-formed instruction data: a record and a key for each signer, room
      for the signatures, and one shared message. */
  ghost predicate IsInstruction(data: seq<byte>, keys: seq<Hash32>, message: seq<byte>) {
    && |data| == MessageOffset(|keys|) + |message|
    && data[0] == |keys| % 256 && data[1] == 0
    && (forall i :: 0 <= i < |keys| ==> EntryWritten(data, keys, |message|, i))
    && data[MessageOffset(|keys|)..] == message
  }

  lemma ReadsBack(data: seq<byte>, base: nat, record: seq<byte>, at: nat, x: u16)
    requires base + |record| <= |data| && data[base..base + |record|] == record
    requires at + 2 <= |record| && record[at..at + 2] == LE16(x)
    ensures U16At(data, base + at) == Some(x)
  {
    ReadBack16(x);
    var two := record[at..at + 2];
    assert two[0] == data[base..base + |record|][at] && two[1] == data[base..base + |record|][at + 1];
    assert two[1..] == [two[1]] && [two[1]][1..] == [];
    assert FromLE(two) == two[0] + 256 * FromLE([two[1]]);
    assert FromLE([two[1]]) == two[1] + 256 * FromLE([]);
  }

  lemma RecordFields(n: nat, i: nat, size: nat)
    ensures var r := Record(n, i, size);
            && r[0..2] == LE16(Truncate16(SigOffset(n, i))) && r[2..4] == LE16(SELF_REFERENCE)
            && r[4..6] == LE16(Truncate16(KeyOffset(n, i))) && r[6..8] == LE16(SELF_REFERENCE)
            && r[8..10] == LE16(Truncate16(MessageOffset(n))) && r[10..12] == LE16(Truncate16(size))
            && r[12..14] == LE16(SELF_REFERENCE)
  {
    hide LE16, SigOffset, KeyOffset, MessageOffset, Truncate16;
  }

  /** Up to 255 signers every offset fits 16 bits. */
  lemma OffsetsFit(n: nat, i: nat)
    requires i < n <= 255
    ensures Truncate16(SigOffset(n, i)) == SigOffset(n, i) && Truncate16(KeyOffset(n, i)) == KeyOffset(n, i)
    ensures Truncate16(MessageOffset(n)) == MessageOffset(n)
  {
  }

  lemma EntryReadsBack(data: seq<byte>, n: nat, i: nat, size: nat)
    requires i < n <= 255 && EntryInBounds(data, i) && data[Base(i)..Base(i) + ENTRY] == Record(n, i, size)
    ensures EntryAt(data, i) ==
              Entry(SigOffset(n, i), SELF_REFERENCE, KeyOffset(n, i), SELF_REFERENCE, MessageOffset(n), Truncate16(size), SELF_REFERENCE)
  {
    RecordFields(n, i, size);
    OffsetsFit(n, i);
    var b, r := Base(i), Record(n, i, size);
    hide Record, LE16, U16At, Truncate16, SigOffset, KeyOffset, MessageOffset;
    ReadsBack(data, b, r, 0, Truncate16(SigOffset(n, i)));
    ReadsBack(data, b, r, 2, SELF_REFERENCE);
    ReadsBack(data, b, r, 4, Truncate16(KeyOffset(n, i)));
    ReadsBack(data, b, r, 6, SELF_REFERENCE);
    ReadsBack(data, b, r, 8, Truncate16(MessageOffset(n)));
    ReadsBack(data, b, r, 10, Truncate16(size));
    ReadsBack(data, b, r, 12, SELF_REFERENCE);
  }

  lemma BuiltRecord(data: seq<byte>, keys: seq<Hash32>, message: seq<byte>, i: nat)
    requires IsInstruction(data, keys, message) && i < |keys| <= 255
    ensures EntryInBounds(data, i)
    ensures EntryAt(data, i) ==
              Entry(SigOffset(|keys|, i), SELF_REFERENCE, KeyOffset(|keys|, i), SELF_REFERENCE, MessageOffset(|keys|),
                    Truncate16(|message|), SELF_REFERENCE)
    ensures SigOffset(|keys|, i) + SIGNATURE <= |data|
    ensures KeyOffset(|keys|, i) + PUBKEY <= |data| && data[KeyOffset(|keys|, i)..KeyOffset(|keys|, i) + PUBKEY] == keys[i]
    ensures |data| == MessageOffset(|keys|) + |message| && data[MessageOffset(|keys|)..] == message
  {
    assert EntryWritten(data, keys, |message|, i);
    EntryReadsBack(data, |keys|, i, |message|);
    hide Record, EntryAt, Truncate16;
  }

  lemma BuiltEntry(data: seq<byte>, keys: seq<Hash32>, message: seq<byte>, validators: seq<Hash32>, i: nat)
    requires IsInstruction(data, keys, message) && i < |keys| <= 255
    ensures KeyAt(data, i) == Some(keys[i])
    ensures GoodEntry(data, message, validators, i) <==> |message| <= 0xFFFF && keys[i] in Countable(validators)
  {
    BuiltRecord(data, keys, message, i);
    MessageSlice(data, MessageOffset(|keys|), message);
    hide IsInstruction, EntryInBounds, Record, EntryAt, Countable, Truncate16, SigOffset, KeyOffset, MessageOffset;
  }

  /** A truncated length reads the whole message exactly when nothing is cut off. */
  lemma MessageSlice(data: seq<byte>, at: nat, message: seq<byte>)
    requires |data| == at + |message| && data[at..] == message
    ensures at + Truncate16(|message|) <= |data|
    ensures data[at..at + Truncate16(|message|)] == message <==> |message| <= 0xFFFF
  {
    assert |message| <= 0xFFFF ==> data[at..at + Truncate16(|message|)] == data[at..];
  }

  predicate Distinct(keys: seq<Hash32>) { forall i, j :: 0 <= i < j < |keys| ==> keys[i] != keys[j] }

  /** What the reference builder's output parses to: the number of its signers
      exactly when they are distinct validators within the mask and the
      message fits a 16-bit length. */
  lemma BuiltParses(data: seq<byte>, keys: seq<Hash32>, message: seq<byte>, validators: seq<Hash32>)
    requires IsInstruction(data, keys, message) && 1 <= |keys| <= 255
    ensures Parse(data, message, validators) == Ok(|keys|) <==>
              && Distinct(keys) && (forall k :: 0 <= k < |keys| ==> keys[k] in Countable(validators))
              && |message| <= 0xFFFF
  {
    ParseExactly(data, message, validators, |keys|);
    forall i | 0 <= i < |keys|
      ensures KeyAt(data, i) == Some(keys[i])
      ensures GoodEntry(data, message, validators, i) <==> |message| <= 0xFFFF && keys[i] in Countable(validators)
    {
      BuiltEntry(data, keys, message, validators, i);
    }
    hide Parse, GoodEntry, KeyAt, Countable, EntryWritten;
    if |message| > 0xFFFF {
      assert !GoodEntry(data, message, validators, 0);
    }
    if DistinctSigners(data, |keys|) {
      forall i, j | 0 <= i < j < |keys| ensures keys[i] != keys[j] {
        assert KeyAt(data, i) != KeyAt(data, j);
      }
    }
  }

  function Overwritten(s: seq<byte>, at: nat, src: seq<byte>): (r: seq<byte>)
    requires at + |src| <= |s|
    ensures |r| == |s|
  {
    s[..at] + src + s[at + |src|..]
  }

  lemma OverwrittenAt(s: seq<byte>, at: nat, src: seq<byte>, from: nat, to: nat)
    requires at + |src| <= |s| && from <= to <= |s|
    ensures Overwritten(s, at, src)[at..at + |src|] == src
    ensures to <= at || at + |src| <= from ==> Overwritten(s, at, src)[from..to] == s[from..to]
  {
    var r := Overwritten(s, at, src);
    assert forall k :: 0 <= k < at || at + |src| <= k < |s| ==> r[k] == s[k];
    if to <= at || at + |src| <= from {
      forall k | 0 <= k < to - from ensures r[from..to][k] == s[from..to][k] {
        assert r[from + k] == s[from + k];
      }
    }
  }

  /** `data[at..at + src.len()].copy_from_slice(src)`. */
  method Write(m: array<byte>, at: nat, src: seq<byte>)
    requires at + |src| <= m.Length
    modifies m
    ensures m[..] == Overwritten(old(m[..]), at, src)
  {
    forall k | 0 <= k < |src| {
      m[at + k] := src[k];
    }
  }

  /** The header and the first `i` entries are in place. */
  ghost predicate WrittenUpTo(data: seq<byte>, keys: seq<Hash32>, size: nat, i: nat) {
    && |data| == MessageOffset(|keys|) + size && i <= |keys|
    && data[0..2] == [|keys| % 256, 0]
    && forall k :: 0 <= k < i ==> EntryWritten(data, keys, size, k)
  }

  lemma RecordWritten(data: seq<byte>, keys: seq<Hash32>, size: nat, i: nat)
    requires WrittenUpTo(data, keys, size, i) && i < |keys|
    ensures var after := Overwritten(
                           Overwritten(data, Base(i), Record(|keys|, i, size)), KeyOffset(|keys|, i), keys[i]);
            WrittenUpTo(after, keys, size, i + 1)
  {
    hide Record, Overwritten;
    var n := |keys|;
    var mid := Overwritten(data, Base(i), Record(n, i, size));
    var after := Overwritten(mid, KeyOffset(n, i), keys[i]);
    OverwrittenAt(data, Base(i), Record(n, i, size), 0, 2);
    OverwrittenAt(mid, KeyOffset(n, i), keys[i], 0, 2);
    OverwrittenAt(mid, KeyOffset(n, i), keys[i], Base(i), Base(i) + ENTRY);
    forall k | 0 <= k < i ensures EntryWritten(after, keys, size, k) {
      EntryStays(data, keys, size, k, Base(i), Record(n, i, size));
      EntryStays(mid, keys, size, k, KeyOffset(n, i), keys[i]);
    }
  }

  lemma EntryStays(data: seq<byte>, keys: seq<Hash32>, size: nat, k: nat, at: nat, src: seq<byte>)
    requires |data| == MessageOffset(|keys|) + size && k < |keys| && EntryWritten(data, keys, size, k)
    requires at + |src| <= |data|
    requires Base(k) + ENTRY <= at
    requires at + |src| <= KeyOffset(|keys|, k) || KeyOffset(|keys|, k) + PUBKEY <= at
    ensures EntryWritten(Overwritten(data, at, src), keys, size, k)
  {
    hide Record, Overwritten;
    OverwrittenAt(data, at, src, Base(k), Base(k) + ENTRY);
    OverwrittenAt(data, at, src, KeyOffset(|keys|, k), KeyOffset(|keys|, k) + PUBKEY);
  }

  lemma MessageWritten(data: seq<byte>, keys: seq<Hash32>, message: seq<byte>)
    requires WrittenUpTo(data, keys, |message|, |keys|)
    ensures IsInstruction(Overwritten(data, MessageOffset(|keys|), message), keys, message)
  {
    hide Record, Overwritten;
    var m := MessageOffset(|keys|);
    var after := Overwritten(data, m, message);
    OverwrittenAt(data, m, message, 0, 2);
    assert after[0] == after[0..2][0] && after[1] == after[0..2][1];
    assert after[m..] == after[m..m + |message|];
    forall k | 0 <= k < |keys| ensures EntryWritten(after, keys, |message|, k) {
      EntryStays(data, keys, |message|, k, m, message);
    }
  }

  method Build(keys: seq<Hash32>, message: seq<byte>) returns (m: array<byte>)
    ensures fresh(m) && IsInstruction(m[..], keys, message)
  {
    var n := |keys|;
    m := new byte[MessageOffset(n) + |message|](_ => 0);
    Write(m, 0, [n % 256, 0]);
    hide Record, Overwritten, IsInstruction;
    for i := 0 to n
      invariant WrittenUpTo(m[..], keys, |message|, i)
    {
      RecordWritten(m[..], keys, |message|, i);
      Write(m, Base(i), Record(n, i, |message|));
      Write(m, KeyOffset(n, i), keys[i]);
    }
    MessageWritten(m[..], keys, message);
    Write(m, MessageOffset(n), message);
  }
}
