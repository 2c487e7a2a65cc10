/** Consistent overhead byte stuffing (src/protocol/cobs.c). The encoding is the one of Cheshire and Baker,
    "Consistent Overhead Byte Stuffing", IEEE/ACM Transactions on Networking 7(2), 1999. */
module Cobs {
  import opened Machine

  predicate NonZero(s: seq<byte>) {
    forall i :: 0 <= i < |s| ==> s[i] != 0
  }

  /** Length of the non-zero run at the front, at most 254. */
  function RunLength(x: seq<byte>): (n: nat)
    ensures n <= |x| && n <= 254
    ensures NonZero(x[..n])
    ensures n < |x| && n < 254 ==> x[n] == 0
  {
    RunFrom(x, 0)
  }

  function RunFrom(x: seq<byte>, i: nat): (n: nat)
    requires i <= |x| && i <= 254 && NonZero(x[..i])
    ensures i <= n <= |x| && n <= 254
    ensures NonZero(x[..n])
    ensures n < |x| && n < 254 ==> x[n] == 0
    decreases |x| - i
  {
    if i == |x| || i == 254 || x[i] == 0 then i else RunFrom(x, i + 1)
  }

  /** The encoding, block by block: a code byte, then a run of non-zero bytes. A block of 254 bytes stands
      for itself; a shorter one stands for itself and a zero, except at the end. */
  function Encoded(x: seq<byte>): seq<byte>
    decreases |x|
  {
    var n := RunLength(x);
    if n == 254 then [255] + x[..254] + Encoded(x[254..])
    else if n == |x| then [n + 1] + x
    else [n + 1] + x[..n] + Encoded(x[n + 1..])
  }

  function Prefixed(p: seq<byte>, r: Option<seq<byte>>): Option<seq<byte>> {
    if r.None? then None else Some(p + r.value)
  }

  /** What a decoder makes of a byte string; None when it is malformed. */
  function Decoded(y: seq<byte>): Option<seq<byte>>
    decreases |y|
  {
    if y == [] then Some([])
    else if y[0] == 0 || |y| < y[0] then None
    else Prefixed(FirstBlock(y), Decoded(y[y[0]..]))
  }

  /** The bytes that the first block stands for. */
  function FirstBlock(y: seq<byte>): seq<byte>
    requires y != [] && 0 < y[0] <= |y|
  {
    y[1..y[0]] + if y[0] < 255 && y[0] < |y| then [0] else []
  }

  lemma RunOf(block: seq<byte>, rest: seq<byte>)
    requires NonZero(block) && |block| <= 254
    requires |block| == 254 || rest == [] || rest[0] == 0
    ensures RunLength(block + rest) == |block|
  {
    var x := block + rest;
    var n := RunLength(x);
    assert forall i :: 0 <= i < |block| ==> x[i] == block[i];
    assert rest != [] ==> x[|block|] == rest[0];
    assert forall i :: 0 <= i < n ==> x[..n][i] == x[i];
  }

  /** The encoding in three equations: bytes without a zero, up to 254 of them, get a code byte in front; before a
      zero at most 253 do, and the zero is left out; and 254 bytes before more get code 255 and stand for
      themselves. Every byte string is of exactly one of these forms. */
  lemma EncodedSpelled(run: seq<byte>, more: seq<byte>)
    requires NonZero(run)
    ensures |run| <= 253 ==> Encoded(run) == [|run| + 1] + run
    ensures |run| <= 253 ==> Encoded(run + [0] + more) == [|run| + 1] + run + Encoded(more)
    ensures |run| == 254 ==> Encoded(run + more) == [255] + run + Encoded(more)
  {
    if |run| <= 253 {
      RunOf(run, []);
      RunOf(run, [0] + more);
      assert run + [] == run && run + ([0] + more) == run + [0] + more;
      assert (run + [0] + more)[..|run|] == run && (run + [0] + more)[|run| + 1..] == more;
    } else if |run| == 254 {
      RunOf(run, more);
      assert (run + more)[..254] == run && (run + more)[254..] == more;
    }
  }

  /** Every byte string is of one of the three forms. */
  lemma FormOf(x: seq<byte>) returns (run: seq<byte>, more: seq<byte>)
    ensures NonZero(run)
    ensures (|run| <= 253 && (x == run || x == run + [0] + more)) || (|run| == 254 && x == run + more)
  {
    var n := RunLength(x);
    run := x[..n];
    if n == |x| || n == 254 {
      more := x[n..];
    } else {
      more := x[n + 1..];
    }
  }

  // ------------------------------------------------------- laws of the encoding

  lemma {:induction false} EncodedNonZero(x: seq<byte>)
    ensures NonZero(Encoded(x))
    decreases |x|
  {
    var n := RunLength(x);
    if n == 254 {
      EncodedNonZero(x[254..]);
    } else if n < |x| {
      EncodedNonZero(x[n + 1..]);
    } else {
      assert x[..n] == x;
    }
  }

  lemma {:induction false} EncodedLength(x: seq<byte>)
    ensures 1 <= |Encoded(x)| <= |x| + |x| / 254 + 1
    decreases |x|
  {
    var n := RunLength(x);
    if n == 254 {
      EncodedLength(x[254..]);
    } else if n < |x| {
      EncodedLength(x[n + 1..]);
    }
  }

  lemma DecodedBlock(block: seq<byte>, rest: seq<byte>)
    requires |block| <= 254
    ensures Decoded([|block| + 1] + block + rest) ==
            Prefixed(block + if |block| < 254 && rest != [] then [0] else [], Decoded(rest))
  {
    var y := [|block| + 1] + block + rest;
    assert y[1..y[0]] == block && y[y[0]..] == rest;
  }

  /** Decoding undoes encoding, for every byte string. */
  lemma {:induction false} RoundTrip(x: seq<byte>)
    ensures Decoded(Encoded(x)) == Some(x)
    decreases |x|
  {
    var n := RunLength(x);
    hide Decoded;
    if n == 254 {
      DecodedBlock(x[..254], Encoded(x[254..]));
      RoundTrip(x[254..]);
      assert x == x[..254] + [] + x[254..];
    } else if n < |x| {
      DecodedBlock(x[..n], Encoded(x[n + 1..]));
      RoundTrip(x[n + 1..]);
      EncodedLength(x[n + 1..]);
      assert x == x[..n] + [0] + x[n + 1..];
    } else {
      DecodedBlock(x, []);
      DecodedEmpty();
      assert [n + 1] + x + [] == [n + 1] + x;
      assert x + [] + [] == x;
    }
  }

  lemma DecodedEmpty()
    ensures Decoded([]) == Some([])
  {
  }

  // -------------------------------------------------- the two loops in C

  lemma CloseZero(block: seq<byte>, rest: seq<byte>)
    requires NonZero(block) && |block| < 254
    ensures Encoded(block + [0] + rest) == [|block| + 1] + block + Encoded(rest)
  {
    var x := block + [0] + rest;
    assert x == block + ([0] + rest);
    RunOf(block, [0] + rest);
    assert x[..|block|] == block && x[|block| + 1..] == rest;
  }

  lemma CloseFull(block: seq<byte>, rest: seq<byte>)
    requires NonZero(block) && |block| == 254
    ensures Encoded(block + rest) == [255] + block + Encoded(rest)
  {
    RunOf(block, rest);
    assert (block + rest)[..254] == block && (block + rest)[254..] == rest;
  }

  lemma CloseEnd(block: seq<byte>)
    requires NonZero(block) && |block| < 254
    ensures Encoded(block) == [|block| + 1] + block
  {
    assert block + [] == block;
    RunOf(block, []);
  }

  /** A non-zero run of at most 254 bytes is encoded with one byte more than its length. */
  lemma LongEnough(block: seq<byte>, rest: seq<byte>)
    requires NonZero(block) && |block| <= 254
    ensures |Encoded(block + rest)| >= |block| + 1
  {
    var x := block + rest;
    assert forall i :: 0 <= i < |block| ==> x[i] == block[i];
  }

  /** The encoder's bookkeeping: `done` is final, `block` waits for its code byte, `rest` is unread. */
  predicate Pending(x: seq<byte>, done: seq<byte>, block: seq<byte>, rest: seq<byte>) {
    NonZero(block) && |block| < 254 && Encoded(x) == done + Encoded(block + rest)
  }

  lemma PendingStart(x: seq<byte>)
    ensures Pending(x, [], [], x)
  {
    hide Encoded;
    assert [] + x == x;
    assert [] + Encoded(x) == Encoded(x);
  }

  lemma PendingZero(x: seq<byte>, done: seq<byte>, block: seq<byte>, rest: seq<byte>)
    requires Pending(x, done, block, [0] + rest)
    ensures Pending(x, done + [|block| + 1] + block, [], rest)
  {
    hide Encoded;
    assert block + ([0] + rest) == block + [0] + rest;
    CloseZero(block, rest);
    assert [] + rest == rest;
    assert done + ([|block| + 1] + block + Encoded(rest)) == done + [|block| + 1] + block + Encoded(rest);
  }

  lemma PendingByte(x: seq<byte>, done: seq<byte>, block: seq<byte>, b: byte, rest: seq<byte>)
    requires Pending(x, done, block, [b] + rest) && b != 0
    ensures |block| < 253 ==> Pending(x, done, block + [b], rest)
    ensures |block| == 253 ==> Pending(x, done + [255] + (block + [b]), [], rest)
  {
    hide Encoded;
    assert block + ([b] + rest) == block + [b] + rest;
    if |block| == 253 {
      CloseFull(block + [b], rest);
      assert [] + rest == rest;
      assert done + ([255] + (block + [b]) + Encoded(rest)) == done + [255] + (block + [b]) + Encoded(rest);
    }
  }

  lemma PendingEnd(x: seq<byte>, done: seq<byte>, block: seq<byte>)
    requires Pending(x, done, block, [])
    ensures Encoded(x) == done + [|block| + 1] + block
  {
    hide Encoded;
    assert block + [] == block;
    CloseEnd(block);
  }

  lemma PendingRoom(x: seq<byte>, done: seq<byte>, block: seq<byte>, rest: seq<byte>)
    requires Pending(x, done, block, rest)
    ensures |done| + 1 + |block| <= |x| + |x| / 254 + 1
    ensures rest != [] && rest[0] != 0 ==> |done| + 2 + |block| <= |x| + |x| / 254 + 1
  {
    hide Encoded;
    EncodedLength(x);
    LongEnough(block, rest);
    if rest != [] && rest[0] != 0 {
      assert block + rest == block + [rest[0]] + rest[1..];
      LongEnough(block + [rest[0]], rest[1..]);
    }
  }

  /** The encoder patches each code byte once its block is complete. */
  method Encode(input: array<byte>, length: nat, output: array<byte>) returns (written: nat)
    requires length <= input.Length && input != output
    requires output.Length >= length + length / 254 + 1
    modifies output
    ensures written <= output.Length && output[..written] == Encoded(input[..length])
  {
    hide Pending;
    hide Encoded;
    ghost var x := input[..length];
    ghost var done: seq<byte>, block: seq<byte> := [], [];
    PendingStart(x);
    var readIndex, writeIndex, codeIndex := 0, 1, 0;
    var code := 1;
    assert x[0..] == x;
    while readIndex < length
      invariant 0 <= readIndex <= length && codeIndex == |done| && writeIndex == codeIndex + code
      invariant code == |block| + 1 && writeIndex <= output.Length
      invariant input[..length] == x
      invariant output[..codeIndex] == done && output[codeIndex + 1..writeIndex] == block
      invariant Pending(x, done, block, x[readIndex..])
    {
      ghost var rest := x[readIndex + 1..];
      assert x[readIndex..] == [x[readIndex]] + rest;
      PendingRoom(x, done, block, x[readIndex..]);
      PendingShort(x, done, block, x[readIndex..]);
      if input[readIndex] == 0 {
        PendingZero(x, done, block, rest);
        PendingRoom(x, done + [|block| + 1] + block, [], rest);
        output[codeIndex] := code;
        done, block := done + [code] + block, [];
        code := 1;
        codeIndex := writeIndex;
        writeIndex := writeIndex + 1;
        readIndex := readIndex + 1;
      } else {
        PendingByte(x, done, block, x[readIndex], rest);
        output[writeIndex] := input[readIndex];
        writeIndex := writeIndex + 1;
        readIndex := readIndex + 1;
        code := code + 1;
        block := block + [output[writeIndex - 1]];
        if code == 255 {
          PendingRoom(x, done + [255] + block, [], rest);
          output[codeIndex] := code;
          done, block := done + [255] + block, [];
          code := 1;
          codeIndex := writeIndex;
          writeIndex := writeIndex + 1;
        }
      }
    }
    assert x[readIndex..] == [];
    PendingShort(x, done, block, []);
    PendingEnd(x, done, block);
    output[codeIndex] := code;
    return writeIndex;
  }

  lemma PendingShort(x: seq<byte>, done: seq<byte>, block: seq<byte>, rest: seq<byte>)
    requires Pending(x, done, block, rest)
    ensures |block| < 254
  {
  }

  lemma PrefixedNothing(r: Option<seq<byte>>)
    ensures Prefixed([], r) == r
  {
    if r.Some? {
      assert [] + r.value == r.value;
    }
  }

  lemma PrefixedTwice(p: seq<byte>, q: seq<byte>, r: Option<seq<byte>>)
    ensures Prefixed(p, Prefixed(q, r)) == Prefixed(p + q, r)
  {
    if r.Some? {
      assert p + (q + r.value) == p + q + r.value;
    }
  }

  // ------------------------------------------------ what the decoder writes

  /** How many bytes the decoding loop writes, also when it gives up on a malformed input. */
  function Touched(y: seq<byte>): nat
    decreases |y|
  {
    if y == [] || y[0] == 0 then 0
    else if |y| < y[0] then |y| - 1
    else |FirstBlock(y)| + Touched(y[y[0]..])
  }

  /** A successful decoding writes its result and nothing else. */
  lemma {:induction false} TouchedDecoded(y: seq<byte>)
    ensures Decoded(y).Some? ==> Touched(y) == |Decoded(y).value|
    decreases |y|
  {
    if y != [] && 0 < y[0] <= |y| {
      TouchedDecoded(y[y[0]..]);
    }
  }

  /** The decoder writes fewer bytes than it reads, malformed input included. */
  lemma {:induction false} TouchedShorter(y: seq<byte>)
    requires y != []
    ensures Touched(y) < |y|
    decreases |y|
  {
    if 0 < y[0] < |y| {
      TouchedShorter(y[y[0]..]);
    }
  }

  /** Code bytes of one are decoded to zeros, one fewer than there are. */
  lemma {:induction false} TouchedOnes(n: nat)
    requires n > 0
    ensures Touched(Repeat(1 as byte, n)) == n - 1
    decreases n
  {
    var y := Repeat(1 as byte, n);
    assert y[1..] == Repeat(1 as byte, n - 1);
    if n > 1 {
      TouchedOnes(n - 1);
    }
  }

  /** A buffer of `room` bytes holds the decoding of every input of `n` bytes exactly when n <= room + 1. */
  lemma RoomExact(n: nat, room: nat)
    ensures (forall y: seq<byte> :: |y| == n ==> Touched(y) <= room) <==> n <= room + 1
  {
    if n <= room + 1 {
      forall y: seq<byte> | |y| == n ensures Touched(y) <= room {
        if n > 0 {
          TouchedShorter(y);
        }
      }
    } else {
      TouchedOnes(n);
      assert |Repeat(1 as byte, n)| == n;
    }
  }

  /** The bytes of a block are among those written. */
  lemma TouchedBlock(y: seq<byte>)
    requires y != [] && y[0] != 0
    ensures |y| < y[0] ==> Touched(y) == |y| - 1
    ensures |y| >= y[0] ==> Touched(y) == |FirstBlock(y)| + Touched(y[y[0]..])
  {
  }

  lemma DecodedStep(y: seq<byte>)
    requires y != []
    ensures y[0] == 0 || |y| < y[0] ==> Decoded(y) == None
    ensures 0 < y[0] <= |y| ==> Decoded(y) == Prefixed(FirstBlock(y), Decoded(y[y[0]..]))
  {
  }

  /** The block's bytes and the zero it may stand for. */
  lemma BlockIs(y: seq<byte>)
    requires y != [] && 0 < y[0] <= |y|
    ensures FirstBlock(y) == y[1..y[0]] + if y[0] < 255 && y[0] < |y| then [0] else []
  {
  }

  lemma PrefixedEnd(p: seq<byte>)
    ensures Prefixed(p, Some([])) == Some(p)
  {
    assert p + [] == p;
  }

  lemma PrefixedNone(p: seq<byte>)
    ensures Prefixed(p, None) == None
  {
  }

  /** The inner loop: copies up to `code - 1` bytes, and fails when the input ends first. */
  method CopyBlock(input: array<byte>, length: nat, start: nat, code: byte, output: array<byte>, begin: nat)
      returns (complete: bool, readIndex: nat, written: nat)
    requires start <= length <= input.Length && code > 0 && input != output
    requires begin + (if length - start < code - 1 then length - start else code - 1) <= output.Length
    modifies output
    ensures complete <==> start + code - 1 <= length
    ensures readIndex == if complete then start + code - 1 else length
    ensures written == begin + (readIndex - start) <= output.Length
    ensures output[..written] == old(output[..begin]) + input[..length][start..readIndex]
    ensures forall k :: written <= k < output.Length ==> output[k] == old(output[k])
  {
    ghost var x := input[..length];
    readIndex, written := start, begin;
    var i := 1;
    while i < code
      invariant 1 <= i <= code && readIndex == start + i - 1 <= length
      invariant written == begin + i - 1
      invariant written <= output.Length && output[..written] == old(output[..begin]) + x[start..readIndex]
      invariant forall k :: written <= k < output.Length ==> output[k] == old(output[k])
    {
      if readIndex >= length {
        return false, readIndex, written;
      }
      ghost var before := output[..written];
      assert x[start..readIndex + 1] == x[start..readIndex] + [x[readIndex]];
      output[written] := input[readIndex];
      assert output[..written + 1] == before + [input[readIndex]];
      written := written + 1;
      readIndex := readIndex + 1;
      i := i + 1;
    }
    complete := true;
  }

  /** Returns the decoded length, or 0 when the input is malformed. The output needs room for what is
      written, which may be a malformed input's beginning, and is unchanged behind that. */
  method Decode(input: array<byte>, length: nat, output: array<byte>) returns (written: nat)
    requires length <= input.Length && input != output
    requires Touched(input[..length]) <= output.Length
    modifies output
    ensures written <= Touched(input[..length])
    ensures match Decoded(input[..length])
            case None => written == 0
            case Some(x) => output[..written] == x
    ensures forall k :: Touched(input[..length]) <= k < output.Length ==> output[k] == old(output[k])
  {
    hide Touched;
    hide Decoded;
    hide FirstBlock;
    hide Prefixed;
    ghost var y := input[..length];
    ghost var total := Touched(y);
    var readIndex := 0;
    written := 0;
    assert y[0..] == y;
    assert output[..0] == [];
    PrefixedNothing(Decoded(y));
    while readIndex < length
      invariant 0 <= readIndex <= length && written <= total
      invariant input[..length] == y
      invariant written + Touched(y[readIndex..]) == total
      invariant Decoded(y) == Prefixed(output[..written], Decoded(y[readIndex..]))
      invariant forall k :: total <= k < output.Length ==> output[k] == old(output[k])
      decreases length - readIndex
    {
      ghost var tail := y[readIndex..];
      ghost var before := output[..written];
      DecodedStep(tail);
      PrefixedNone(before);
      var code := input[readIndex];
      assert tail[0] == code;
      if code == 0 {
        return 0;
      }
      TouchedBlock(tail);
      assert |tail| >= code ==> FirstBlock(tail) == tail[1..code] + if code < 255 && code < |tail| then [0] else [] by {
        if |tail| >= code {
          BlockIs(tail);
        }
      }
      var start := readIndex + 1;
      assert tail[1..] == y[start..];
      var complete;
      complete, readIndex, written := CopyBlock(input, length, start, code, output, written);
      if !complete {
        return 0;
      }
      assert tail[1..code] == y[start..readIndex];
      assert tail[code..] == y[readIndex..];
      ghost var plain := output[..written];
      if code < 255 && readIndex < length {
        output[written] := 0;
        written := written + 1;
        assert output[..written] == plain + [0];
      }
      assert output[..written] == before + FirstBlock(tail);
      PrefixedTwice(before, FirstBlock(tail), Decoded(y[readIndex..]));
    }
    assert y[readIndex..] == [];
    DecodedEmpty();
    PrefixedEnd(output[..written]);
  }
}
