/** Script pushes and the splicing of signatures into a raw transaction, as the
    signature-ordering experiment does them. Python slices never fail; indexing
    past the end does. */
module Script {
  import opened Bytes
  import opened Wrappers

  /** `b[:n]` and `b[n:]`. */
  function Take(b: seq<byte>, n: nat): seq<byte> { if n <= |b| then b[..n] else b }
  function Drop(b: seq<byte>, n: nat): (r: seq<byte>)
    ensures |r| <= |b| && (b != [] && n > 0 ==> |r| < |b|)
  {
    if n <= |b| then b[n..] else []
  }

  lemma SplitAt(a: seq<byte>, b: seq<byte>)
    ensures Take(a + b, |a|) == a && Drop(a + b, |a|) == b
  {
  }

  // ------------------------------------------------------------------ pushes

  /** The push of an item, where a two-byte length can express it. */
  function Push(item: seq<byte>): (r: Option<seq<byte>>)
    ensures r.Some? <==> |item| <= 0xFFFF
  {
    if |item| < 0x4c then Some([|item|] + item)
    else if |item| <= 0xFF then Some([0x4c, |item|] + item)
    else if |item| <= 0xFFFF then Some([0x4d] + LE16(|item|) + item)
    else None
  }

  function Cons(item: seq<byte>, rest: Option<seq<seq<byte>>>): Option<seq<seq<byte>>> {
    if rest == None then None else Some([item] + rest.value)
  }

  /** The first item and what follows it; running off the end at a one-byte
      length fails. */
  function First(b: seq<byte>): (r: Option<(seq<byte>, seq<byte>)>)
    requires b != []
    ensures r.Some? ==> |r.value.1| < |b|
  {
    var op, rest := b[0], b[1..];
    if op == 0 then Some(([], rest))
    else if op < 0x4c then Some((Take(rest, op), Drop(rest, op)))
    else if op == 0x4c then
      if rest == [] then None else Some((Take(rest[1..], rest[0]), Drop(rest[1..], rest[0])))
    else if op == 0x4d then
      var n := FromLE(Take(rest, 2));
      Some((Take(Drop(rest, 2), n), Drop(Drop(rest, 2), n)))
    else Some(([op], rest))
  }

  function Items(b: seq<byte>): (r: Option<seq<seq<byte>>>)
    decreases |b|
  {
    if b == [] then Some([]) else
      var first := First(b);
      if first == None then None else Cons(first.value.0, Items(first.value.1))
  }

  lemma DropDrop(b: seq<byte>, i: nat, n: nat)
    ensures Drop(Drop(b, i), n) == Drop(b, i + n)
  {
  }

  lemma DropStep(b: seq<byte>, i: nat)
    ensures i < |b| ==> Drop(b, i) != [] && Drop(b, i)[0] == b[i] && Drop(b, i)[1..] == Drop(b, i + 1)
    ensures i >= |b| ==> Drop(b, i) == []
  {
  }

  /** One turn of the loop: the item at `i` and the cursor after it. */
  method NextItem(script: seq<byte>, i: nat) returns (item: Option<seq<byte>>, j: nat)
    requires i < |script|
    ensures item.Some? ==> j > i && First(Drop(script, i)) == Some((item.value, Drop(script, j)))
    ensures item == None ==> First(Drop(script, i)) == None
  {
    hide Take, Drop, FromLE;
    DropStep(script, i);
    var op := script[i];
    j := i + 1;
    if op == 0 {
      item := Some([]);
    } else if op < 0x4c {
      DropDrop(script, j, op);
      item := Some(Take(Drop(script, j), op));
      j := j + op;
    } else if op == 0x4c {
      DropStep(script, j);
      if j >= |script| {
        return None, j;
      }
      var n := script[j];
      j := j + 1;
      DropDrop(script, j, n);
      item := Some(Take(Drop(script, j), n));
      j := j + n;
    } else if op == 0x4d {
      var n := FromLE(Take(Drop(script, j), 2));
      DropDrop(script, j, 2);
      j := j + 2;
      DropDrop(script, j, n);
      item := Some(Take(Drop(script, j), n));
      j := j + n;
    } else {
      item := Some([op]);
    }
  }

  method ParseScript(script: seq<byte>) returns (items: Option<seq<seq<byte>>>)
    ensures items == Items(script)
  {
    hide First;
    var found: seq<seq<byte>> := [];
    var i := 0;
    assert Drop(script, 0) == script;
    while i < |script|
      invariant Items(script).Some? <==> Items(Drop(script, i)).Some?
      invariant Items(script).Some? ==> Items(script).value == found + Items(Drop(script, i)).value
      decreases |script| - i
    {
      var item, j := NextItem(script, i);
      if item == None {
        return None;
      }
      found, i := found + [item.value], j;
    }
    assert Drop(script, i) == [] && found + [] == found;
    items := Some(found);
  }

  lemma PushParses(item: seq<byte>, rest: seq<byte>)
    requires |item| <= 0xFFFF
    ensures Items(Push(item).value + rest) == Cons(item, Items(rest))
  {
    var b := Push(item).value + rest;
    SplitAt(item, rest);
    if |item| < 0x4c {
      assert b[1..] == item + rest;
      if item == [] {
        assert b[1..] == rest;
      }
    } else if |item| <= 0xFF {
      assert b[1..][1..] == item + rest;
    } else {
      ReadBack16(|item|);
      assert b[1..] == LE16(|item|) + (item + rest);
      SplitAt(LE16(|item|), item + rest);
    }
  }

  /** Any other opcode is an item of its own byte. */
  lemma OpcodeParses(op: byte, rest: seq<byte>)
    requires op > 0x4d
    ensures Items([op] + rest) == Cons([op], Items(rest))
  {
    assert ([op] + rest)[1..] == rest;
  }

  /** A short push cut off by the end of the script yields what is there. */
  lemma CutPushParses(item: seq<byte>, n: nat)
    requires n < |item| < 0x4c
    ensures Items(Push(item).value[..1 + n]) == Some([item[..n]])
  {
    var b := Push(item).value[..1 + n];
    assert b[0] == |item| && b[1..] == item[..n];
    assert Take(b[1..], |item|) == item[..n] && Drop(b[1..], |item|) == [];
    assert [item[..n]] + [] == [item[..n]];
  }

  /** A one-byte length beyond the end of the script fails. */
  lemma MissingLengthFails()
    ensures Items([0x4c]) == None
  {
    var b: seq<byte> := [0x4c];
    assert b[1..] == [];
  }

  function Pushes(items: seq<seq<byte>>): (b: seq<byte>)
    requires forall k :: 0 <= k < |items| ==> |items[k]| <= 0xFFFF
  {
    if items == [] then [] else Push(items[0]).value + Pushes(items[1..])
  }

  /** Concatenated pushes parse back to the items pushed, for every length a
      push can express. */
  lemma {:induction false} PushesRoundTrip(items: seq<seq<byte>>)
    requires forall k :: 0 <= k < |items| ==> |items[k]| <= 0xFFFF
    ensures Items(Pushes(items)) == Some(items)
  {
    if items == [] {
    } else {
      PushesRoundTrip(items[1..]);
      PushParses(items[0], Pushes(items[1..]));
      assert items == [items[0]] + items[1..];
    }
  }

  // ------------------------------------------------------------- transactions

  function Varint(n: nat): (r: Option<seq<byte>>)
    ensures r.Some? <==> n <= 0xFFFF_FFFF
  {
    if n < 0xfd then Some([n])
    else if n <= 0xFFFF then Some([0xfd] + LE16(n))
    else if n <= 0xFFFF_FFFF then Some([0xfe] + LE32(n))
    else None
  }

  type Outpoint = s: seq<byte> | |s| == 36 witness seq(36, _ => 0)
  type Word = s: seq<byte> | |s| == 4 witness [0, 0, 0, 0]

  datatype Input = Input(outpoint: Outpoint, script: seq<byte>, sequence: Word)

  /** Outputs and lock time are carried through unread. */
  datatype Tx = Tx(version: Word, inputs: seq<Input>, rest: seq<byte>)

  predicate Writable(tx: Tx) {
    |tx.inputs| <= 0xFFFF_FFFF && forall k :: 0 <= k < |tx.inputs| ==> |tx.inputs[k].script| <= 0xFFFF_FFFF
  }

  function InputBytes(x: Input): seq<byte>
    requires |x.script| <= 0xFFFF_FFFF
  {
    x.outpoint + (Varint(|x.script|).value + (x.script + x.sequence))
  }

  function InputsBytes(xs: seq<Input>): seq<byte>
    requires forall k :: 0 <= k < |xs| ==> |xs[k].script| <= 0xFFFF_FFFF
  {
    if xs == [] then [] else InputBytes(xs[0]) + InputsBytes(xs[1..])
  }

  function Serialize(tx: Tx): seq<byte>
    requires Writable(tx)
  {
    tx.version + (Varint(|tx.inputs|).value + (InputsBytes(tx.inputs) + tx.rest))
  }

  /** A length prefix and what follows it. */
  function ReadVarint(b: seq<byte>): Option<(nat, seq<byte>)> {
    if b == [] then None
    else if b[0] < 0xfd then Some((b[0], b[1..]))
    else if b[0] == 0xfd && |b| >= 3 then Some((FromLE(b[1..3]), b[3..]))
    else if b[0] == 0xfe && |b| >= 5 then Some((FromLE(b[1..5]), b[5..]))
    else None
  }

  lemma VarintReadsBack(n: nat, rest: seq<byte>)
    requires n <= 0xFFFF_FFFF
    ensures ReadVarint(Varint(n).value + rest) == Some((n, rest))
  {
    var b := Varint(n).value + rest;
    if n < 0xfd {
      assert b[1..] == rest;
    } else if n <= 0xFFFF {
      ReadBack16(n);
      assert b[1..3] == LE16(n) && b[3..] == rest;
    } else {
      ReadBack32(n);
      assert b[1..5] == LE32(n) && b[5..] == rest;
    }
  }

  /** A reader written from the wire format, not from the splicer. */
  function ReadInput(b: seq<byte>): Option<(Input, seq<byte>)> {
    if |b| < 36 then None else
      var size := ReadVarint(b[36..]);
      if size == None || |size.value.1| < size.value.0 + 4 then None else
        var n, tail := size.value.0, size.value.1;
        Some((Input(b[..36], tail[..n], tail[n..n + 4]), tail[n + 4..]))
  }

  function ReadInputs(b: seq<byte>, n: nat): Option<(seq<Input>, seq<byte>)> {
    if n == 0 then Some(([], b)) else
      var first := ReadInput(b);
      if first == None then None else
        var others := ReadInputs(first.value.1, n - 1);
        if others == None then None else Some(([first.value.0] + others.value.0, others.value.1))
  }

  function ParseTx(b: seq<byte>): Option<Tx> {
    if |b| < 4 then None else
      var count := ReadVarint(b[4..]);
      if count == None then None else
        var inputs := ReadInputs(count.value.1, count.value.0);
        if inputs == None then None else Some(Tx(b[..4], inputs.value.0, inputs.value.1))
  }

  lemma InputReadsBack(x: Input, rest: seq<byte>)
    requires |x.script| <= 0xFFFF_FFFF
    ensures ReadInput(InputBytes(x) + rest) == Some((x, rest))
  {
    var b := InputBytes(x) + rest;
    var tail := x.script + x.sequence + rest;
    assert b[..36] == x.outpoint && b[36..] == Varint(|x.script|).value + tail;
    hide Varint, ReadVarint;
    VarintReadsBack(|x.script|, tail);
    var n := |x.script|;
    assert tail[..n] == x.script && tail[n..n + 4] == x.sequence && tail[n + 4..] == rest;
  }

  lemma {:induction false} InputsReadBack(xs: seq<Input>, rest: seq<byte>)
    requires forall k :: 0 <= k < |xs| ==> |xs[k].script| <= 0xFFFF_FFFF
    ensures ReadInputs(InputsBytes(xs) + rest, |xs|) == Some((xs, rest))
  {
    hide ReadInput, InputBytes;
    if xs == [] {
      assert InputsBytes(xs) + rest == rest;
    } else {
      InputsReadBack(xs[1..], rest);
      InputReadsBack(xs[0], InputsBytes(xs[1..]) + rest);
      assert InputsBytes(xs) + rest == InputBytes(xs[0]) + (InputsBytes(xs[1..]) + rest);
      assert xs == [xs[0]] + xs[1..];
    }
  }

  lemma TxRoundTrip(tx: Tx)
    requires Writable(tx)
    ensures ParseTx(Serialize(tx)) == Some(tx)
  {
    var b := Serialize(tx);
    var tail := InputsBytes(tx.inputs) + tx.rest;
    assert b[..4] == tx.version && b[4..] == Varint(|tx.inputs|).value + tail;
    hide Varint, ReadVarint, InputsBytes, ReadInputs;
    VarintReadsBack(|tx.inputs|, tail);
    InputsReadBack(tx.inputs, tx.rest);
  }

  // ---------------------------------------------------------------- splicing

  /** One input with its script replaced, and the bytes after it. */
  function SplicedInput(b: seq<byte>, script: seq<byte>): Option<(seq<byte>, seq<byte>)> {
    if |b| <= 36 || Varint(|script|) == None then None else
      var after := Drop(b, 37 + b[36] as int);
      Some((b[..36] + (Varint(|script|).value + (script + Take(after, 4))), Drop(after, 4)))
  }

  /** What splicing does to the bytes after the input count, with the scripts
      still to be placed. */
  function SplicedInputs(b: seq<byte>, n: nat, scripts: seq<seq<byte>>): Option<seq<byte>>
    decreases n
  {
    if n == 0 then Some(b)
    else if scripts == [] || SplicedInput(b, scripts[0]) == None then None
    else
      var one := SplicedInput(b, scripts[0]).value;
      var others := SplicedInputs(one.1, n - 1, scripts[1..]);
      if others == None then None else Some(one.0 + others.value)
  }

  function Prefixed(done: seq<byte>, more: Option<seq<byte>>): Option<seq<byte>> {
    if more == None then None else Some(done + more.value)
  }

  function Spliced(raw: seq<byte>, scripts: seq<seq<byte>>): Option<seq<byte>> {
    if |raw| <= 4 then None else Prefixed(raw[..5], SplicedInputs(raw[5..], raw[4], scripts))
  }

  /** One turn of the loop: the bytes written for the input at `i`, and the
      cursor after it. */
  method SpliceInput(raw: seq<byte>, i: nat, script: seq<byte>) returns (out: Option<seq<byte>>, j: nat)
    ensures out.Some? ==> SplicedInput(Drop(raw, i), script) == Some((out.value, Drop(raw, j)))
    ensures out == None ==> SplicedInput(Drop(raw, i), script) == None
  {
    var size := Varint(|script|);
    if i + 36 >= |raw| || size == None {
      return None, i;
    }
    DropHead(raw, i);
    hide Take, Drop, Varint;
    j := i + 37 + raw[i + 36] as int;
    DropDrop(raw, i, 37 + raw[i + 36] as int);
    DropDrop(raw, j, 4);
    out := Some(raw[i..i + 36] + (size.value + (script + Take(Drop(raw, j), 4))));
    j := j + 4;
  }

  lemma DropHead(raw: seq<byte>, i: nat)
    requires i + 36 < |raw|
    ensures |Drop(raw, i)| > 36 && Drop(raw, i)[..36] == raw[i..i + 36] && Drop(raw, i)[36] == raw[i + 36]
  {
  }

  lemma OneMore(done: seq<byte>, b: seq<byte>, n: nat, scripts: seq<seq<byte>>)
    requires n > 0 && scripts != []
    ensures var one := SplicedInput(b, scripts[0]);
            Prefixed(done, SplicedInputs(b, n, scripts)) ==
            if one == None then None else Prefixed(done + one.value.0, SplicedInputs(one.value.1, n - 1, scripts[1..]))
  {
    hide SplicedInput;
    var one := SplicedInput(b, scripts[0]);
    if one.Some? {
      var others := SplicedInputs(one.value.1, n - 1, scripts[1..]);
      if others.Some? {
        assert done + (one.value.0 + others.value) == done + one.value.0 + others.value;
      }
    }
  }

  /** The loop over the inputs still to be written. */
  method SpliceFrom(raw: seq<byte>, start: nat, n: nat, head: seq<byte>, scripts: seq<seq<byte>>) returns (out: Option<seq<byte>>)
    ensures out == Prefixed(head, SplicedInputs(Drop(raw, start), n, scripts))
  {
    hide SplicedInput, Prefixed, Drop;
    var done, i := head, start;
    assert scripts[0..] == scripts;
    for k := 0 to n
      invariant k <= |scripts|
      invariant Prefixed(head, SplicedInputs(Drop(raw, start), n, scripts))
             == Prefixed(done, SplicedInputs(Drop(raw, i), n - k, scripts[k..]))
    {
      if k >= |scripts| {
        assert scripts[k..] == [];
        NoResult(done);
        return None;
      }
      assert scripts[k..][0] == scripts[k] && scripts[k..][1..] == scripts[k + 1..];
      OneMore(done, Drop(raw, i), n - k, scripts[k..]);
      var one, j := SpliceInput(raw, i, scripts[k]);
      if one == None {
        return None;
      }
      done, i := done + one.value, j;
    }
    Result(done, Drop(raw, i));
    out := Some(done + Drop(raw, i));
  }

  method Splice(raw: seq<byte>, scripts: seq<seq<byte>>) returns (out: Option<seq<byte>>)
    ensures out == Spliced(raw, scripts)
  {
    if |raw| <= 4 {
      return None;
    }
    out := SpliceFrom(raw, 5, raw[4], raw[..4] + [raw[4]], scripts);
    assert raw[..4] + [raw[4]] == raw[..5];
  }

  lemma NoResult(done: seq<byte>)
    ensures Prefixed(done, None) == None
  {
  }

  lemma Result(done: seq<byte>, b: seq<byte>)
    ensures Prefixed(done, Some(b)) == Some(done + b)
  {
  }

  /** The inputs with their scripts replaced in order. */
  function Replaced(xs: seq<Input>, scripts: seq<seq<byte>>): (r: seq<Input>)
    requires |xs| <= |scripts|
    ensures |r| == |xs|
    ensures forall k :: 0 <= k < |xs| ==> r[k] == xs[k].(script := scripts[k])
  {
    seq(|xs|, k requires 0 <= k < |xs| => xs[k].(script := scripts[k]))
  }

  predicate ShortScripts(xs: seq<Input>) { forall k :: 0 <= k < |xs| ==> |xs[k].script| < 0xfd }

  predicate Encodable(scripts: seq<seq<byte>>) { forall k :: 0 <= k < |scripts| ==> |scripts[k]| <= 0xFFFF_FFFF }

  lemma SpliceOne(x: Input, script: seq<byte>, tail: seq<byte>)
    requires |x.script| < 0xfd && |script| <= 0xFFFF_FFFF
    ensures SplicedInput(InputBytes(x) + tail, script) == Some((InputBytes(x.(script := script)), tail))
  {
    var b := InputBytes(x) + tail;
    var head := x.outpoint + [|x.script|] + x.script;
    assert b == head + (x.sequence + tail) && |head| == 37 + |x.script|;
    assert b[..36] == x.outpoint && b[36] == |x.script|;
    SplitAt(head, x.sequence + tail);
    SplitAt(x.sequence, tail);
  }

  lemma {:induction false} SplicesInputs(xs: seq<Input>, scripts: seq<seq<byte>>, rest: seq<byte>)
    requires ShortScripts(xs) && |xs| <= |scripts| && Encodable(scripts)
    ensures SplicedInputs(InputsBytes(xs) + rest, |xs|, scripts) == Some(InputsBytes(Replaced(xs, scripts)) + rest)
  {
    hide InputBytes, SplicedInput;
    if xs == [] {
      assert InputsBytes(xs) + rest == rest && InputsBytes(Replaced(xs, scripts)) + rest == rest;
    } else {
      var tail := InputsBytes(xs[1..]) + rest;
      SplicesInputs(xs[1..], scripts[1..], rest);
      SpliceOne(xs[0], scripts[0], tail);
      assert InputsBytes(xs) + rest == InputBytes(xs[0]) + tail;
      var ys := Replaced(xs, scripts);
      assert ys[1..] == Replaced(xs[1..], scripts[1..]);
      assert InputsBytes(ys) + rest == InputBytes(ys[0]) + (InputsBytes(ys[1..]) + rest);
    }
  }

  /** Splicing re-parses to the original transaction with only the scripts
      replaced, for fewer than 0xfd inputs with old scripts under 0xfd bytes. */
  lemma SpliceReplacesScriptsOnly(tx: Tx, scripts: seq<seq<byte>>)
    requires |tx.inputs| < 0xfd && ShortScripts(tx.inputs) && Encodable(scripts)
    requires |tx.inputs| <= |scripts|
    ensures var out := Spliced(Serialize(tx), scripts);
            out.Some? && ParseTx(out.value) == Some(tx.(inputs := Replaced(tx.inputs, scripts)))
  {
    SplitsAtInputs(tx);
    SplicesInputs(tx.inputs, scripts, tx.rest);
    var after := tx.(inputs := Replaced(tx.inputs, scripts));
    SplitsAtInputs(after);
    TxRoundTrip(after);
    hide Serialize, SplicedInputs, InputsBytes, ParseTx, Replaced;
    var raw, again := Serialize(tx), Serialize(after);
    assert Spliced(raw, scripts) == Some(raw[..5] + again[5..]);
    assert again == again[..5] + again[5..];
  }

  /** With fewer than 0xfd inputs the count is one byte. */
  lemma SplitsAtInputs(tx: Tx)
    requires Writable(tx) && |tx.inputs| < 0xfd
    ensures var raw := Serialize(tx);
            && |raw| >= 5 && raw[..5] == tx.version + [|tx.inputs|] && raw[4] == |tx.inputs|
            && raw[5..] == InputsBytes(tx.inputs) + tx.rest
  {
    hide InputsBytes;
  }

  /** For one input the bound is exact: from an old script of 0xfd bytes on,
      the length prefix is read as the length and the result is wrong. */
  lemma OneInputExactly(tx: Tx, scripts: seq<seq<byte>>)
    requires Writable(tx) && |tx.inputs| == 1 && scripts != [] && Encodable(scripts)
    ensures Spliced(Serialize(tx), scripts) == Some(Serialize(tx.(inputs := Replaced(tx.inputs, scripts))))
            <==> |tx.inputs[0].script| < 0xfd
  {
    var after := tx.(inputs := Replaced(tx.inputs, scripts));
    SplitsAtInputs(tx);
    SplitsAtInputs(after);
    if |tx.inputs[0].script| < 0xfd {
      SplicesInputs(tx.inputs, scripts, tx.rest);
      SpliceReplacesScriptsOnly(tx, scripts);
      OneSplice(tx, after, scripts);
    } else {
      LongScriptLengths(tx, scripts);
    }
  }

  lemma OneSplice(tx: Tx, after: Tx, scripts: seq<seq<byte>>)
    requires Writable(tx) && |tx.inputs| == 1 && Writable(after) && |after.inputs| == 1 && after.version == tx.version
    requires SplicedInputs(InputsBytes(tx.inputs) + tx.rest, 1, scripts) == Some(InputsBytes(after.inputs) + after.rest)
    ensures Spliced(Serialize(tx), scripts) == Some(Serialize(after))
  {
    SplitsAtInputs(tx);
    SplitsAtInputs(after);
    hide Serialize, SplicedInputs, InputsBytes;
    assert Serialize(after) == Serialize(after)[..5] + Serialize(after)[5..];
  }

  lemma LongScriptLengths(tx: Tx, scripts: seq<seq<byte>>)
    requires Writable(tx) && |tx.inputs| == 1 && scripts != [] && Encodable(scripts) && |tx.inputs[0].script| >= 0xfd
    ensures var out := Spliced(Serialize(tx), scripts);
            out.Some? ==> |out.value| != |Serialize(tx.(inputs := Replaced(tx.inputs, scripts)))|
  {
    var x := tx.inputs[0];
    var b := InputsBytes(tx.inputs) + tx.rest;
    SplitsAtInputs(tx);
    SplitsAtInputs(tx.(inputs := Replaced(tx.inputs, scripts)));
    assert InputsBytes(tx.inputs) == InputBytes(x) by { assert tx.inputs[1..] == []; }
    var ys := Replaced(tx.inputs, scripts);
    assert InputsBytes(ys) == InputBytes(ys[0]) by { assert ys[1..] == []; }
    assert b[36] == Varint(|x.script|).value[0];
  }

  /** With too few scripts there is no result. */
  lemma {:induction false} TooFewScripts(b: seq<byte>, n: nat, scripts: seq<seq<byte>>)
    requires |scripts| < n
    ensures SplicedInputs(b, n, scripts) == None
    decreases n
  {
    if scripts != [] && SplicedInput(b, scripts[0]).Some? {
      TooFewScripts(SplicedInput(b, scripts[0]).value.1, n - 1, scripts[1..]);
    }
  }
}
