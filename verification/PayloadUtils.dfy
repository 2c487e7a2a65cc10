/** Reading and writing packet payloads field by field (include/protocol/payload_utils.h). */
module PayloadUtils {
  import opened Machine

  type NonZeroByte = b: int | 0 < b < 256 witness 1

  /** A field to write. A Pascal string is a C string: it has no zero byte. */
  datatype Field =
    | U8(b: byte)
    | U16(w: word16)
    | U32(d: nat)
    | U64(q: nat)
    | Bytes(bytes: seq<byte>)
    | Pstr(text: seq<NonZeroByte>)

  /** A field to read; for a Pascal string, the size of the destination. */
  datatype Shape = ShapeU8 | ShapeU16 | ShapeU32 | ShapeU64 | ShapeBytes(size: nat) | ShapePstr(maxDest: nat)

  predicate IsField(f: Field) {
    (f.U32? ==> f.d < TWO_32) && (f.U64? ==> f.q < TWO_64)
  }

  /** `n` bytes of a number, the lowest first. */
  function LeBytes(v: nat, n: nat): (s: seq<byte>)
    ensures |s| == n
  {
    if n == 0 then [] else [v % 256] + LeBytes(v / 256, n - 1)
  }

  function LeValue(s: seq<byte>): nat {
    if s == [] then 0 else
      var low: nat := s[0];
      low + 256 * LeValue(s[1..])
  }

  function Plain(text: seq<NonZeroByte>): (s: seq<byte>)
    ensures |s| == |text|
    ensures forall i :: 0 <= i < |text| ==> s[i] == text[i]
  {
    seq(|text|, i requires 0 <= i < |text| => text[i])
  }

  function Coded(f: Field): seq<byte>
    requires Writable(f)
  {
    match f
    case U8(b) => [b]
    case U16(w) => LeBytes(w, 2)
    case U32(d) => LeBytes(d, 4)
    case U64(q) => LeBytes(q, 8)
    case Bytes(s) => s
    case Pstr(t) => [|t|] + Plain(t)
  }

  /** A Pascal string's length must fit in its length byte. */
  predicate Writable(f: Field) {
    f.Pstr? ==> |f.text| <= 255
  }

  /** The written bytes of a buffer, its capacity, and the error flag. */
  datatype Out = Out(written: seq<byte>, capacity: nat, error: bool)

  function Put(o: Out, f: Field): Out {
    if Writable(f) && |o.written| + |Coded(f)| <= o.capacity then o.(written := o.written + Coded(f))
    else o.(error := true)
  }

  function PutAll(o: Out, fs: seq<Field>): Out
    decreases |fs|
  {
    if fs == [] then o else PutAll(Put(o, fs[0]), fs[1..])
  }

  /** The unread bytes and the error flag. */
  datatype In = In(data: seq<byte>, error: bool)

  datatype Value = Number(n: nat) | Octets(s: seq<byte>)

  /** What was read, with the cursor after it. */
  datatype Got = Got(value: Value, rest: In)

  function GetNumber(i: In, n: nat): Got {
    if |i.data| < n then Got(Number(0), i.(error := true))
    else Got(Number(LeValue(i.data[..n])), i.(data := i.data[n..]))
  }

  function GetBytes(i: In, n: nat): Got {
    if |i.data| < n then Got(Octets(Repeat<byte>(0, n)), i.(error := true))
    else Got(Octets(i.data[..n]), i.(data := i.data[n..]))
  }

  /** The first bytes of a string that fit a destination with its terminating zero. */
  function Cut(s: seq<byte>, maxDest: nat): (r: seq<byte>)
    requires maxDest > 0
    ensures |r| == if |s| >= maxDest then maxDest - 1 else |s|
  {
    if |s| >= maxDest then s[..maxDest - 1] else s
  }

  /** The string's bytes are consumed whole even when the destination cannot hold them. */
  function GetPstr(i: In, maxDest: nat): Got
    requires maxDest > 0
  {
    if |i.data| < 1 then Got(Octets([]), i.(error := true))
    else
      var length: nat := i.data[0];
      var rest := i.(data := i.data[1..]);
      if |rest.data| < length then Got(Octets([]), rest.(error := true))
      else Got(Octets(Cut(rest.data[..length], maxDest)), rest.(data := rest.data[length..]))
  }

  predicate IsShape(s: Shape) {
    s.ShapePstr? ==> s.maxDest > 0
  }

  function Get(i: In, s: Shape): Got
    requires IsShape(s)
  {
    match s
    case ShapeU8 => GetNumber(i, 1)
    case ShapeU16 => GetNumber(i, 2)
    case ShapeU32 => GetNumber(i, 4)
    case ShapeU64 => GetNumber(i, 8)
    case ShapeBytes(n) => GetBytes(i, n)
    case ShapePstr(m) => GetPstr(i, m)
  }

  predicate AreShapes(shapes: seq<Shape>) {
    forall k :: 0 <= k < |shapes| ==> IsShape(shapes[k])
  }

  function GetAll(i: In, shapes: seq<Shape>): (r: (seq<Value>, In))
    requires AreShapes(shapes)
    decreases |shapes|
  {
    if shapes == [] then ([], i)
    else
      var first := Get(i, shapes[0]);
      var rest := GetAll(first.rest, shapes[1..]);
      ([first.value] + rest.0, rest.1)
  }

  /** How many bytes a field takes from the front of some data. */
  function Needed(data: seq<byte>, s: Shape): nat {
    match s
    case ShapeU8 => 1
    case ShapeU16 => 2
    case ShapeU32 => 4
    case ShapeU64 => 8
    case ShapeBytes(n) => n
    case ShapePstr(_) => if data == [] then 1 else 1 + (data[0] as int)
  }

  /** Reading errs exactly when the bytes run out, and then gives zero, zeros or nothing and leaves the bytes, save
      a string's length byte; otherwise it takes what the field needs. */
  lemma ReadingExact(i: In, s: Shape)
    requires IsShape(s)
    ensures var got, need := Get(i, s), Needed(i.data, s);
            if |i.data| >= need then
              got.rest == In(i.data[need..], i.error) &&
              match s {
                case ShapeBytes(n) => got.value == Octets(i.data[..n])
                case ShapePstr(m) => got.value == Octets(i.data[1..if need < m then need else m])
                case _ => got.value == Number(LeValue(i.data[..need]))
              }
            else
              got.rest == In(if s.ShapePstr? && i.data != [] then i.data[1..] else i.data, true) &&
              got.value == if s.ShapeBytes? then Octets(Repeat(0 as byte, s.size)) else if s.ShapePstr? then Octets([])
                           else Number(0)
  {
    if s.ShapePstr? && i.data != [] {
      var n: nat := i.data[0];
      assert |i.data| >= 1 + n ==> i.data[1..][n..] == i.data[1 + n..];
      if |i.data| >= 1 + n {
        CutIs(i.data[1..][..n], s.maxDest);
        var k := if n >= s.maxDest then s.maxDest - 1 else n;
        assert i.data[1..][..n][..k] == i.data[1..1 + k];
      }
    }
    hide LeValue;
    hide Cut;
  }

  /** Numbers are read and written lowest byte first. */
  lemma LittleEndian(v: nat, s: seq<byte>)
    ensures LeBytes(v, 1) == [v % 256] && LeBytes(v, 2) == [v % 256, v / 256 % 256]
    ensures LeBytes(v, 4) == [v % 256, v / 256 % 256, v / 256 / 256 % 256, v / 256 / 256 / 256 % 256]
    ensures |s| >= 1 ==> LeValue(s[..1]) == s[0]
    ensures |s| >= 2 ==> LeValue(s[..2]) == (s[0] as int) + 256 * (s[1] as int)
  {
    assert LeBytes(v, 4) == [v % 256] + LeBytes(v / 256, 3);
    assert LeBytes(v / 256, 3) == [v / 256 % 256] + LeBytes(v / 256 / 256, 2);
    assert LeBytes(v / 256 / 256, 2) == [v / 256 / 256 % 256] + LeBytes(v / 256 / 256 / 256, 1);
    if |s| >= 1 {
      assert s[..1][1..] == [];
    }
    if |s| >= 2 {
      assert s[..2][1..] == [s[1]] && [s[1]][1..] == [];
    }
  }

  // ---------------------------------------------------------------- the laws

  lemma {:induction false} LeRoundTrip(v: nat, n: nat)
    requires v < Power256(n)
    ensures LeValue(LeBytes(v, n)) == v
    decreases n
  {
    if n > 0 {
      DivLess(v, 256, Power256(n - 1));
      LeRoundTrip(v / 256, n - 1);
    }
  }

  function Power256(n: nat): nat {
    if n == 0 then 1 else Power256(n - 1) * 256
  }

  lemma Powers()
    ensures Power256(1) == 256 && Power256(2) == 0x1_0000 && Power256(4) == TWO_32 && Power256(8) == TWO_64
  {
    assert Power256(3) == 0x100_0000;
    assert Power256(5) == 0x100_0000_0000;
    assert Power256(6) == 0x1_0000_0000_0000;
    assert Power256(7) == 0x100_0000_0000_0000;
  }

  function ValueOf(f: Field): Value {
    match f
    case U8(b) => Number(b)
    case U16(w) => Number(w)
    case U32(d) => Number(d)
    case U64(q) => Number(q)
    case Bytes(s) => Octets(s)
    case Pstr(t) => Octets(Plain(t))
  }

  /** The shape reads the kind of field that was written. */
  predicate Reads(s: Shape, f: Field) {
    match f
    case U8(_) => s.ShapeU8?
    case U16(_) => s.ShapeU16?
    case U32(_) => s.ShapeU32?
    case U64(_) => s.ShapeU64?
    case Bytes(b) => s == ShapeBytes(|b|)
    case Pstr(_) => s.ShapePstr? && s.maxDest > 0
  }

  /** A string's destination holds it with its terminating zero. */
  predicate Roomy(s: Shape, f: Field) {
    f.Pstr? && s.ShapePstr? ==> s.maxDest > |f.text|
  }

  /** What the reader gets for a field: the field, or the part of a string that its destination holds. */
  function Seen(s: Shape, f: Field): Value
    requires Reads(s, f)
  {
    if f.Pstr? then Octets(Cut(Plain(f.text), s.maxDest)) else ValueOf(f)
  }

  lemma SeenWhole(s: Shape, f: Field)
    requires Reads(s, f)
    ensures Seen(s, f) == ValueOf(f) <==> Roomy(s, f)
  {
  }

  lemma NumberRead(v: nat, n: nat, rest: seq<byte>)
    requires v < Power256(n)
    ensures GetNumber(In(LeBytes(v, n) + rest, false), n) == Got(Number(v), In(rest, false))
  {
    LeRoundTrip(v, n);
    var data := LeBytes(v, n) + rest;
    assert data[..n] == LeBytes(v, n) && data[n..] == rest;
  }

  /** Reading a field back consumes exactly its bytes. */
  lemma FieldRead(f: Field, s: Shape, rest: seq<byte>)
    requires IsField(f) && Writable(f) && Reads(s, f)
    ensures Get(In(Coded(f) + rest, false), s) == Got(Seen(s, f), In(rest, false))
  {
    Powers();
    match f
    case U8(b) =>
      NumberRead(b, 1, rest);
      assert LeBytes(b / 256, 0) == [];
      assert LeBytes(b, 1) == [b];
    case U16(w) => NumberRead(w, 2, rest);
    case U32(d) => NumberRead(d, 4, rest);
    case U64(q) => NumberRead(q, 8, rest);
    case Bytes(b) =>
      assert (b + rest)[..|b|] == b && (b + rest)[|b|..] == rest;
    case Pstr(t) =>
      var data := [|t|] + Plain(t) + rest;
      assert data[1..] == Plain(t) + rest;
      assert data[1..][..|t|] == Plain(t) && data[1..][|t|..] == rest;
  }

  function TotalSize(fs: seq<Field>): nat
    requires forall k :: 0 <= k < |fs| ==> Writable(fs[k])
  {
    if fs == [] then 0 else |Coded(fs[0])| + TotalSize(fs[1..])
  }

  predicate AllWritable(fs: seq<Field>) {
    forall k :: 0 <= k < |fs| && fs[k].Pstr? ==> |fs[k].text| <= 255
  }

  lemma {:induction false} ErrorSticks(o: Out, fs: seq<Field>)
    ensures o.error ==> PutAll(o, fs).error
    decreases |fs|
  {
    if fs != [] {
      ErrorSticks(Put(o, fs[0]), fs[1..]);
    }
  }

  /** Writing reports an error exactly when a string is too long or the fields together do not fit; without
      one, exactly the fields' bytes are written. */
  lemma {:induction false} WritingExact(o: Out, fs: seq<Field>)
    requires !o.error && |o.written| <= o.capacity
    ensures !PutAll(o, fs).error <==> AllWritable(fs) && |o.written| + TotalSize(fs) <= o.capacity
    ensures !PutAll(o, fs).error ==>
      PutAll(o, fs).written == o.written + AllCoded(fs) && |AllCoded(fs)| == TotalSize(fs)
    decreases |fs|
  {
    hide Coded;
    if fs == [] {
      assert o.written + [] == o.written;
    } else {
      var p := Put(o, fs[0]);
      assert AllWritable(fs) <==> Writable(fs[0]) && AllWritable(fs[1..]) by {
        assert forall k :: 0 <= k < |fs| - 1 ==> fs[1..][k] == fs[k + 1];
      }
      if p.error {
        ErrorSticks(p, fs[1..]);
      } else {
        WritingExact(p, fs[1..]);
        assert AllWritable(fs) ==> o.written + Coded(fs[0]) + AllCoded(fs[1..]) == o.written + AllCoded(fs);
      }
    }
  }

  function AllCoded(fs: seq<Field>): seq<byte> {
    if fs == [] || !Writable(fs[0]) then [] else Coded(fs[0]) + AllCoded(fs[1..])
  }

  /** The shapes read the kinds of fields that were written, one for one. */
  predicate ReadsAll(shapes: seq<Shape>, fs: seq<Field>) {
    |shapes| == |fs| && forall k :: 0 <= k < |fs| ==> Reads(shapes[k], fs[k]) && IsField(fs[k])
  }

  lemma {:induction false} FieldsRead(fs: seq<Field>, shapes: seq<Shape>, rest: seq<byte>)
    requires AllWritable(fs) && ReadsAll(shapes, fs)
    ensures AreShapes(shapes)
    ensures var got := GetAll(In(AllCoded(fs) + rest, false), shapes);
            |got.0| == |fs| && got.1 == In(rest, false) &&
            forall k :: 0 <= k < |fs| ==> got.0[k] == Seen(shapes[k], fs[k])
    decreases |fs|
  {
    hide Coded;
    hide Get;
    hide Seen;
    if fs == [] {
      assert [] + rest == rest;
    } else {
      assert Reads(shapes[0], fs[0]) && Writable(fs[0]);
      var later := AllCoded(fs[1..]) + rest;
      assert AllCoded(fs) + rest == Coded(fs[0]) + later;
      FieldRead(fs[0], shapes[0], later);
      ReadsLater(fs, shapes);
      FieldsRead(fs[1..], shapes[1..], rest);
    }
  }

  lemma ReadsLater(fs: seq<Field>, shapes: seq<Shape>)
    requires fs != [] && AllWritable(fs) && ReadsAll(shapes, fs)
    ensures AllWritable(fs[1..]) && ReadsAll(shapes[1..], fs[1..])
  {
  }

  function ValuesOf(fs: seq<Field>): (vs: seq<Value>)
    ensures |vs| == |fs|
    ensures forall k :: 0 <= k < |fs| ==> vs[k] == ValueOf(fs[k])
  {
    seq(|fs|, k requires 0 <= k < |fs| => ValueOf(fs[k]))
  }

  /** Fields written without an error and read back by the same kinds: no read error, exactly the written
      bytes consumed, and the same values exactly when every string's destination holds it. */
  lemma RoundTrip(fs: seq<Field>, shapes: seq<Shape>, capacity: nat, rest: seq<byte>)
    requires ReadsAll(shapes, fs) && !PutAll(Out([], capacity, false), fs).error
    ensures AreShapes(shapes)
    ensures var out := PutAll(Out([], capacity, false), fs);
            var got := GetAll(In(out.written + rest, false), shapes);
            got.1 == In(rest, false) && |out.written| <= capacity &&
            (got.0 == ValuesOf(fs) <==> forall k :: 0 <= k < |fs| ==> Roomy(shapes[k], fs[k]))
  {
    WritingExact(Out([], capacity, false), fs);
    var out := PutAll(Out([], capacity, false), fs);
    assert [] + AllCoded(fs) == AllCoded(fs);
    FieldsRead(fs, shapes, rest);
    hide PutAll;
    hide GetAll;
    hide Roomy;
    hide Seen;
    var got := GetAll(In(out.written + rest, false), shapes);
    forall k | 0 <= k < |fs| ensures got.0[k] == ValuesOf(fs)[k] <==> Roomy(shapes[k], fs[k]) {
      SeenWhole(shapes[k], fs[k]);
    }
  }

  lemma LeBytesFirst(v: nat, n: nat)
    requires n > 0
    ensures LeBytes(v, n) == [v % 256] + LeBytes(v / 256, n - 1)
  {
  }

  lemma CutIs(s: seq<byte>, maxDest: nat)
    requires maxDest > 0
    ensures Cut(s, maxDest) == s[..if |s| >= maxDest then maxDest - 1 else |s|]
  {
  }

  lemma Tails(s: seq<byte>, i: nat, n: nat)
    requires n > 0 && i + n <= |s|
    ensures s[i..][n..] == s[i + n..] && s[i..][1..n] == s[i + 1..i + n]
  {
  }

  /** What reading a string at a place of the received bytes gives. */
  function PstrAt(data: seq<byte>, ptr: nat, error: bool, maxDest: nat): Got
    requires ptr <= |data| && maxDest > 0
  {
    if ptr == |data| then Got(Octets([]), In([], true))
    else
      var length: nat := data[ptr];
      if |data| < ptr + 1 + length then Got(Octets([]), In(data[ptr + 1..], true))
      else Got(Octets(data[ptr + 1..ptr + 1 + if length >= maxDest then maxDest - 1 else length]),
               In(data[ptr + 1 + length..], error))
  }

  lemma PstrAtIs(data: seq<byte>, ptr: nat, error: bool, maxDest: nat)
    requires ptr <= |data| && maxDest > 0
    ensures GetPstr(In(data[ptr..], error), maxDest) == PstrAt(data, ptr, error, maxDest)
  {
    if ptr < |data| {
      var length: nat := data[ptr];
      Tails(data, ptr, 1);
      if |data| >= ptr + 1 + length {
        Tails(data, ptr, 1 + length);
        assert data[ptr + 1..][..length] == data[ptr + 1..ptr + 1 + length];
        CutIs(data[ptr + 1..ptr + 1 + length], maxDest);
        var copied := if length >= maxDest then maxDest - 1 else length;
        assert data[ptr + 1..ptr + 1 + length][..copied] == data[ptr + 1..ptr + 1 + copied];
      }
    }
  }

  // ---------------------------------------------------------------- the classes

  /** `memcpy`, and `memset` with equal bytes. */
  method Memcpy(dest: array<byte>, at: nat, src: seq<byte>)
    requires at + |src| <= dest.Length
    modifies dest
    ensures dest[at..at + |src|] == src
    ensures dest[..at] == old(dest[..at]) && dest[at + |src|..] == old(dest[at + |src|..])
  {
    for k := 0 to |src|
      invariant forall j :: 0 <= j < dest.Length ==>
        dest[j] == if at <= j < at + k then src[j - at] else old(dest[j])
    {
      dest[at + k] := src[k];
    }
  }

  /** `sys_put_le16` and its wider forms. */
  method PutLe(dest: array<byte>, at: nat, v: nat, n: nat)
    requires at + n <= dest.Length
    modifies dest
    ensures dest[at..at + n] == LeBytes(v, n)
    ensures dest[..at] == old(dest[..at]) && dest[at + n..] == old(dest[at + n..])
    ensures dest[..at + n] == old(dest[..at]) + LeBytes(v, n)
  {
    hide LeBytes;
    ghost var bytes := LeBytes(v, n);
    var rest := v;
    assert bytes[0..] == bytes;
    for k := 0 to n
      invariant bytes[k..] == LeBytes(rest, n - k)
      invariant forall j :: 0 <= j < dest.Length ==>
        dest[j] == if at <= j < at + k then bytes[j - at] else old(dest[j])
    {
      LeBytesFirst(rest, n - k);
      assert bytes[k] == bytes[k..][0] && bytes[k + 1..] == bytes[k..][1..];
      dest[at + k] := rest % 256;
      rest := rest / 256;
    }
  }

  /** A place in a buffer, the room left and the error flag. */
  class Writer {
    const buffer: array<byte>
    var ptr: nat
    var remaining: nat
    var error: bool

    ghost predicate Valid()
      reads this
    {
      ptr + remaining == buffer.Length
    }

    ghost function State(): Out
      requires Valid()
      reads this, buffer
    {
      Out(buffer[..ptr], buffer.Length, error)
    }

    constructor (buffer: array<byte>)
      ensures Valid() && this.buffer == buffer && State() == Out([], buffer.Length, false)
    {
      this.buffer := buffer;
      ptr, remaining, error := 0, buffer.Length, false;
    }

    /** `writer_get_length`. */
    function Length(): (n: nat)
      requires Valid()
      reads this, buffer
      ensures n == |State().written|
    {
      ptr
    }

    /** A little-endian number of `n` bytes. */
    method PutNumber(v: nat, n: nat)
      requires Valid()
      modifies this, buffer
      ensures Valid()
      ensures State() == if |old(State().written)| + n <= buffer.Length
                         then old(State()).(written := old(State().written) + LeBytes(v, n))
                         else old(State()).(error := true)
    {
      hide LeBytes;
      if remaining < n {
        error := true;
        return;
      }
      PutLe(buffer, ptr, v, n);
      ptr := ptr + n;
      remaining := remaining - n;
    }

    method PutU8(val: byte)
      requires Valid()
      modifies this, buffer
      ensures Valid() && State() == Put(old(State()), U8(val))
    {
      if remaining < 1 {
        error := true;
        return;
      }
      buffer[ptr] := val;
      ptr := ptr + 1;
      remaining := remaining - 1;
    }

    method PutU16(val: word16)
      requires Valid()
      modifies this, buffer
      ensures Valid() && State() == Put(old(State()), U16(val))
    {
      PutNumber(val, 2);
    }

    method PutU32(val: nat)
      requires Valid() && val < TWO_32
      modifies this, buffer
      ensures Valid() && State() == Put(old(State()), U32(val))
    {
      PutNumber(val, 4);
    }

    method PutU64(val: nat)
      requires Valid() && val < TWO_64
      modifies this, buffer
      ensures Valid() && State() == Put(old(State()), U64(val))
    {
      PutNumber(val, 8);
    }

    method PutBytes(src: seq<byte>)
      requires Valid()
      modifies this, buffer
      ensures Valid() && State() == Put(old(State()), Bytes(src))
    {
      if remaining < |src| {
        error := true;
        return;
      }
      Memcpy(buffer, ptr, src);
      ptr := ptr + |src|;
      remaining := remaining - |src|;
    }

    method PutPstr(src: seq<NonZeroByte>)
      requires Valid()
      modifies this, buffer
      ensures Valid() && State() == Put(old(State()), Pstr(src))
    {
      if |src| > 255 {
        error := true;
        return;
      }
      if remaining < 1 + |src| {
        error := true;
        return;
      }
      PutU8(|src|);
      PutBytes(Plain(src));
      assert old(State().written) + [|src|] + Plain(src) == old(State().written) + ([|src|] + Plain(src));
    }
  }

  /** A place in received bytes, what is left of them and the error flag. */
  class Cursor {
    const data: seq<byte>
    var ptr: nat
    var remaining: nat
    var error: bool

    ghost predicate Valid()
      reads this
    {
      ptr + remaining == |data|
    }

    ghost function State(): In
      requires Valid()
      reads this
    {
      In(data[ptr..], error)
    }

    constructor (data: seq<byte>)
      ensures Valid() && State() == In(data, false)
    {
      this.data := data;
      ptr, remaining, error := 0, |data|, false;
    }

    method GetNumberOf(n: nat) returns (val: nat)
      requires Valid()
      modifies this
      ensures Valid() && Got(Number(val), State()) == GetNumber(old(State()), n)
    {
      if remaining < n {
        error := true;
        return 0;
      }
      assert data[ptr..][..n] == data[ptr..ptr + n] && data[ptr..][n..] == data[ptr + n..];
      val := 0;
      for k := n downto 0
        modifies {}
        invariant val == LeValue(data[ptr + k..ptr + n])
      {
        var low: nat := data[ptr + k];
        assert data[ptr + k..ptr + n][1..] == data[ptr + k + 1..ptr + n];
        val := low + 256 * val;
      }
      ptr := ptr + n;
      remaining := remaining - n;
    }

    /** The destination gets the bytes, or zeros when there are not enough. */
    method GetBytesInto(dest: array<byte>, size: nat)
      requires Valid() && size <= dest.Length
      modifies this, dest
      ensures Valid() && Got(Octets(dest[..size]), State()) == GetBytes(old(State()), size)
      ensures dest[size..] == old(dest[size..])
    {
      if remaining < size {
        error := true;
        Memcpy(dest, 0, Repeat<byte>(0, size));
        return;
      }
      assert data[ptr..][..size] == data[ptr..ptr + size] && data[ptr..][size..] == data[ptr + size..];
      Memcpy(dest, 0, data[ptr..ptr + size]);
      ptr := ptr + size;
      remaining := remaining - size;
    }

    /** The destination gets what it can hold of the string, and a terminating zero. */
    method GetPstrInto(dest: array<byte>, maxDestLen: nat) returns (copyLen: nat)
      requires Valid() && 0 < maxDestLen <= dest.Length
      modifies this, dest
      ensures Valid() && copyLen < maxDestLen && dest[copyLen] == 0
      ensures Got(Octets(dest[..copyLen]), State()) == GetPstr(old(State()), maxDestLen)
    {
      hide GetPstr;
      PstrAtIs(data, ptr, error, maxDestLen);
      if remaining < 1 {
        error := true;
        dest[0] := 0;
        return 0;
      }
      var strLen: nat := data[ptr];
      ptr := ptr + 1;
      remaining := remaining - 1;
      if remaining < strLen {
        error := true;
        dest[0] := 0;
        return 0;
      }
      copyLen := if strLen >= maxDestLen then maxDestLen - 1 else strLen;
      Memcpy(dest, 0, data[ptr..ptr + copyLen]);
      dest[copyLen] := 0;
      ptr := ptr + strLen;
      remaining := remaining - strLen;
    }
  }
}
