/** The relayer's hex codec. Text is ASCII. */
module Hex {
  import opened Bytes
  import opened Wrappers

  type nibble = x: int | 0 <= x < 16

  function Digit(n: nibble): (c: char) {
    if n < 10 then '0' + n as char else 'a' + (n - 10) as char
  }

  function DigitValue(c: char): (r: Option<nibble>) {
    if '0' <= c <= '9' then Some(c as int - '0' as int)
    else if 'a' <= c <= 'f' then Some(c as int - 'a' as int + 10)
    else if 'A' <= c <= 'F' then Some(c as int - 'A' as int + 10)
    else None
  }

  /** The value of a pair's first character, where a sign stands for zero. */
  function High(c: char): (r: Option<nibble>) { if c == '+' then Some(0) else DigitValue(c) }

  /** `u8::from_str_radix(s, 16)` on two characters, which also takes a sign. */
  function ByteValue(a: char, b: char): (r: Option<byte>) {
    var high, low := High(a), DigitValue(b);
    if high.Some? && low.Some? then Some(16 * high.value + low.value) else None
  }

  function Encode(bytes: seq<byte>): (s: string)
    ensures |s| == 2 * |bytes|
  {
    if bytes == [] then "" else [Digit(bytes[0] / 16), Digit(bytes[0] % 16)] + Encode(bytes[1..])
  }

  function Decode(s: string): (r: Option<seq<byte>>)
    ensures r.Some? ==> 2 * |r.value| == |s|
    decreases |s|
  {
    if s == "" then Some([])
    else if |s| == 1 then None
    else
      var b, rest := ByteValue(s[0], s[1]), Decode(s[2..]);
      if b.Some? && rest.Some? then Some([b.value] + rest.value) else None
  }

  method EncodeBytes(bytes: seq<byte>) returns (s: string)
    ensures s == Encode(bytes)
  {
    s := "";
    var i := 0;
    while i < |bytes|
      invariant 0 <= i <= |bytes|
      invariant s + Encode(bytes[i..]) == Encode(bytes)
    {
      assert bytes[i..][1..] == bytes[i + 1..];
      s := s + [Digit(bytes[i] / 16), Digit(bytes[i] % 16)];
      i := i + 1;
    }
  }

  method DecodeVec(s: string) returns (r: Option<seq<byte>>)
    ensures r == Decode(s)
  {
    if |s| % 2 != 0 {
      OddNeverDecodes(s);
      return None;
    }
    var out: seq<byte> := [];
    var i := 0;
    assert s[0..] == s;
    while i < |s|
      invariant 0 <= i <= |s| && i % 2 == 0
      invariant Decode(s).Some? <==> Decode(s[i..]).Some?
      invariant Decode(s).Some? ==> Decode(s).value == out + Decode(s[i..]).value
    {
      assert s[i..][2..] == s[i + 2..];
      var b := ByteValue(s[i], s[i + 1]);
      if b == None {
        return None;
      }
      out := out + [b.value];
      i := i + 2;
    }
    assert s[i..] == "" && out + [] == out;
    r := Some(out);
  }

  lemma {:induction false} OddNeverDecodes(s: string)
    requires |s| % 2 != 0
    ensures Decode(s) == None
    decreases |s|
  {
    if |s| > 1 {
      OddNeverDecodes(s[2..]);
    }
  }

  /** Decoding undoes encoding. The converse fails: a sign and upper case
      digits are accepted too. */
  lemma {:induction false} RoundTrip(bytes: seq<byte>)
    ensures Decode(Encode(bytes)) == Some(bytes)
  {
    if bytes == [] {
    } else {
      var s := Encode(bytes);
      RoundTrip(bytes[1..]);
      assert s[2..] == Encode(bytes[1..]);
      assert DigitValue(Digit(bytes[0] / 16)) == Some(bytes[0] / 16);
      assert DigitValue(Digit(bytes[0] % 16)) == Some(bytes[0] % 16);
      assert bytes == [bytes[0]] + bytes[1..];
    }
  }

  lemma EncodeInjective(a: seq<byte>, b: seq<byte>)
    requires Encode(a) == Encode(b)
    ensures a == b
  {
    RoundTrip(a);
    RoundTrip(b);
  }

  /** Lower-case digits only. */
  predicate Plain(s: string) { forall c :: c in s ==> '0' <= c <= '9' || 'a' <= c <= 'f' }

  lemma ByteReencodes(a: char, b: char)
    requires ByteValue(a, b).Some?
    ensures var v := ByteValue(a, b).value; [Digit(v / 16), Digit(v % 16)] == [a, b] <==> Plain([a, b])
  {
    var high := if a == '+' then 0 else DigitValue(a).value;
    var low := DigitValue(b).value;
    assert ByteValue(a, b).value / 16 == high && ByteValue(a, b).value % 16 == low;
    assert Plain([a, b]) <==> Plain([a]) && Plain([b]) by {
      assert a in [a, b] && b in [a, b] && a in [a] && b in [b];
    }
    assert Plain([a]) <==> ('0' <= a <= '9' || 'a' <= a <= 'f') by { assert a in [a]; }
    assert Plain([b]) <==> ('0' <= b <= '9' || 'a' <= b <= 'f') by { assert b in [b]; }
  }

  /** Of the texts that decode, exactly those of lower-case digits are what
      their bytes encode to: signs and upper-case digits are the difference. */
  lemma {:induction false} ReencodesExactly(s: string)
    requires Decode(s).Some?
    ensures Encode(Decode(s).value) == s <==> Plain(s)
    decreases |s|
  {
    if s == "" {
    } else {
      ReencodesExactly(s[2..]);
      ByteReencodes(s[0], s[1]);
      var bytes := Decode(s).value;
      assert bytes[1..] == Decode(s[2..]).value;
      assert s == [s[0], s[1]] + s[2..];
      var pair := [Digit(bytes[0] / 16), Digit(bytes[0] % 16)];
      assert Encode(bytes) == pair + Encode(bytes[1..]);
      assert Encode(bytes) == s <==> pair == [s[0], s[1]] && Encode(bytes[1..]) == s[2..] by {
        assert Encode(bytes)[..2] == pair && Encode(bytes)[2..] == Encode(bytes[1..]);
      }
      assert Plain(s) <==> Plain([s[0], s[1]]) && Plain(s[2..]) by {
        assert forall c :: c in s <==> c in [s[0], s[1]] || c in s[2..];
      }
    }
  }

  /** So decoding is not injective: a sign stands for a zero. */
  lemma SignsAreAccepted()
    ensures Decode("+f") == Decode("0f") == Some([15])
  {
    var s, t: string := "+f", "0f";
    assert s[2..] == "" && t[2..] == "";
    assert ByteValue(s[0], s[1]) == Some(15) == ByteValue(t[0], t[1]);
    var d: seq<byte> := [15] + [];
    assert d == [15];
  }

  function LowerChar(c: char): char { if 'A' <= c <= 'Z' then c - 'A' + 'a' else c }

  function Lower(s: string): (r: string)
    ensures |r| == |s|
  {
    seq(|s|, i requires 0 <= i < |s| => LowerChar(s[i]))
  }

  predicate EqIgnoreCase(a: string, b: string) { Lower(a) == Lower(b) }

  /** The same character, or the two cases of one ASCII letter. */
  predicate SameLetter(a: char, b: char) {
    || a == b
    || ('A' <= a <= 'Z' && 'a' <= b <= 'z' && a as int - 'A' as int == b as int - 'a' as int)
    || ('a' <= a <= 'z' && 'A' <= b <= 'Z' && a as int - 'a' as int == b as int - 'A' as int)
  }

  lemma LowerSameLetter(a: char, b: char)
    ensures LowerChar(a) == LowerChar(b) <==> SameLetter(a, b)
  {
  }

  /** Equal up to case is position by position the same letter. */
  lemma EqIgnoreCaseExactly(a: string, b: string)
    ensures EqIgnoreCase(a, b) <==> |a| == |b| && forall k :: 0 <= k < |a| ==> SameLetter(a[k], b[k])
  {
    if |a| == |b| {
      forall k | 0 <= k < |a| ensures Lower(a)[k] == Lower(b)[k] <==> SameLetter(a[k], b[k]) {
        LowerSameLetter(a[k], b[k]);
      }
      if Lower(a) == Lower(b) {
        forall k | 0 <= k < |a| ensures SameLetter(a[k], b[k]) {
          assert Lower(a)[k] == Lower(b)[k];
        }
      }
    }
  }

  /** The signs of two texts stand at the same positions. */
  predicate SameSigns(a: string, b: string) { |a| == |b| && forall k :: 0 <= k < |a| ==> (a[k] == '+' <==> b[k] == '+') }

  lemma SameDigit(a: char, b: char)
    requires DigitValue(b).Some?
    ensures DigitValue(a) == DigitValue(b) <==> SameLetter(a, b)
  {
  }

  lemma ByteExactly(a: char, b: char, c: char, d: char)
    requires High(c).Some? && DigitValue(d).Some?
    ensures ByteValue(c, d).Some?
    ensures ByteValue(a, b) == ByteValue(c, d) <==> High(a) == High(c) && DigitValue(b) == DigitValue(d)
  {
    hide DigitValue;
  }

  lemma SameByte(a: char, b: char, c: char, d: char)
    requires ByteValue(c, d).Some?
    ensures SameLetter(a, c) && SameLetter(b, d) <==>
              ByteValue(a, b) == ByteValue(c, d) && (a == '+' <==> c == '+') && (b == '+' <==> d == '+')
  {
    hide DigitValue, SameLetter;
    ByteExactly(a, b, c, d);
    SameDigit(b, d);
    SignIsNoDigit(a, c);
    SignIsNoDigit(b, d);
    if c != '+' {
      SameDigit(a, c);
    }
    hide ByteValue;
  }

  lemma SignIsNoDigit(a: char, b: char)
    ensures DigitValue('+') == None
    ensures a == '+' || b == '+' ==> (SameLetter(a, b) <==> a == b)
  {
  }

  /** Against a text that decodes, equality up to case is equality of the bytes
      written, with the signs in the same places. */
  lemma {:induction false} SameBytesExactly(a: string, b: string)
    requires Decode(b).Some?
    ensures EqIgnoreCase(a, b) <==> Decode(a) == Decode(b) && SameSigns(a, b)
    decreases |b|
  {
    EqIgnoreCaseExactly(a, b);
    if |a| == |b| && b != "" {
      SameBytesExactly(a[2..], b[2..]);
      EqIgnoreCaseExactly(a[2..], b[2..]);
      SameByte(a[0], a[1], b[0], b[1]);
      SplitPairs(a, b);
      hide EqIgnoreCase, SameLetter, ByteValue;
      if Decode(a) == Decode(b) {
        assert Decode(a).value[0] == Decode(b).value[0] && Decode(a).value[1..] == Decode(b).value[1..];
      }
    }
  }

  lemma SplitPairs(a: string, b: string)
    requires |a| == |b| >= 2
    ensures (forall k :: 0 <= k < |a| ==> SameLetter(a[k], b[k])) <==>
              SameLetter(a[0], b[0]) && SameLetter(a[1], b[1]) && forall k :: 0 <= k < |a| - 2 ==> SameLetter(a[2..][k], b[2..][k])
    ensures SameSigns(a, b) <==> (a[0] == '+' <==> b[0] == '+') && (a[1] == '+' <==> b[1] == '+') && SameSigns(a[2..], b[2..])
  {
    hide SameLetter;
    assert forall k :: 2 <= k < |a| ==> a[k] == a[2..][k - 2] && b[k] == b[2..][k - 2];
    assert forall k :: 0 <= k < |a| - 2 ==> a[2..][k] == a[k + 2] && b[2..][k] == b[k + 2];
  }

  /** Digits and letters of either case only. */
  predicate DigitsOnly(s: string) { forall k :: 0 <= k < |s| ==> DigitValue(s[k]).Some? }

  /** So between texts of digits, it is equality of the bytes. */
  lemma SameBytes(a: string, b: string)
    requires DigitsOnly(a) && DigitsOnly(b) && Decode(b).Some?
    ensures EqIgnoreCase(a, b) <==> Decode(a) == Decode(b)
  {
    SameBytesExactly(a, b);
  }

  /** The digits in order of their value, each standing for its position. */
  const DIGITS: string := "0123456789abcdef"

  lemma DigitsAreInOrder(n: nibble)
    ensures Digit(n) == DIGITS[n] && DigitValue(DIGITS[n]) == Some(n)
  {
  }

  /** Byte `k` is written as its high and then its low digit, at `2k`. */
  lemma {:induction false} EncodesInOrder(bytes: seq<byte>, k: nat)
    requires k < |bytes|
    ensures Encode(bytes)[2 * k] == DIGITS[bytes[k] / 16] && Encode(bytes)[2 * k + 1] == DIGITS[bytes[k] % 16]
  {
    if k == 0 {
      DigitsAreInOrder(bytes[0] / 16);
      DigitsAreInOrder(bytes[0] % 16);
    } else {
      EncodesInOrder(bytes[1..], k - 1);
    }
  }
}
