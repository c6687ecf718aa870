/** Reading and writing DNS wire data: the byte cursor over a slice and the
    append-only byte sink over a growable vector. Multi-byte integers are big
    endian (network byte order) and are converted by explicit arithmetic. */
module Bytes {
  import opened Errors

  type Byte = b: int | 0 <= b < 0x100
  type U16 = v: int | 0 <= v < 0x1_0000
  type U32 = v: int | 0 <= v < 0x1_0000_0000

  //------------ Big-endian conversion ----------------------------------------

  /** The 16-bit value whose network-order bytes are `hi`, `lo`. */
  function BeU16(hi: Byte, lo: Byte): U16 {
    hi * 0x100 + lo
  }

  /** The 32-bit value whose network-order bytes are `b0` (most significant) to `b3`. */
  function BeU32(b0: Byte, b1: Byte, b2: Byte, b3: Byte): U32 {
    BeU16(b0, b1) * 0x1_0000 + BeU16(b2, b3)
  }

  /** The two bytes of `v`, most significant first. */
  function U16Bytes(v: U16): (b: seq<Byte>)
    ensures |b| == 2 && BeU16(b[0], b[1]) == v
  {
    [v / 0x100, v % 0x100]
  }

  /** The four bytes of `v`, most significant first: the bytes of its high
      16-bit half, then those of its low half. */
  function U32Bytes(v: U32): (b: seq<Byte>)
    ensures |b| == 4 && BeU32(b[0], b[1], b[2], b[3]) == v
  {
    U16Bytes(v / 0x1_0000) + U16Bytes(v % 0x1_0000)
  }

  /** Big-endian encoding is injective: two bytes are recovered from the value they form. */
  lemma BeU16Bytes(hi: Byte, lo: Byte)
    ensures U16Bytes(BeU16(hi, lo)) == [hi, lo]
  {
  }

  /** Four bytes are recovered from the value they form. */
  lemma BeU32Bytes(b0: Byte, b1: Byte, b2: Byte, b3: Byte)
    ensures U32Bytes(BeU32(b0, b1, b2, b3)) == [b0, b1, b2, b3]
  {
    var hi, lo := BeU16(b0, b1), BeU16(b2, b3);
    assert BeU32(b0, b1, b2, b3) / 0x1_0000 == hi && BeU32(b0, b1, b2, b3) % 0x1_0000 == lo;
    BeU16Bytes(b0, b1);
    BeU16Bytes(b2, b3);
  }

  //------------ BytesSlice -----------------------------------------------------

  /** The single bounds check: `len` bytes are available iff `len` does not
      exceed the view. */
  function CheckLen(s: seq<Byte>, len: nat): (r: ParseResult<()>)
    ensures r.Ok? <==> len <= |s|
    ensures r.Err? ==> r.error == UnexpectedEnd
  {
    if len > |s| then Err(UnexpectedEnd) else Ok(())
  }

  /** Splits off the first byte. */
  function SplitU8(s: seq<Byte>): (r: ParseResult<(Byte, seq<Byte>)>)
    ensures r.Ok? <==> |s| > 0
    ensures r.Err? ==> r.error == UnexpectedEnd
    ensures r.Ok? ==> [r.value.0] + r.value.1 == s
  {
    if |s| == 0 then Err(UnexpectedEnd) else Ok((s[0], s[1..]))
  }

  /** Splits off a big-endian 16-bit integer. */
  function SplitU16(s: seq<Byte>): (r: ParseResult<(U16, seq<Byte>)>)
    ensures r.Ok? <==> |s| >= 2
    ensures r.Err? ==> r.error == UnexpectedEnd
    ensures r.Ok? ==> r.value.0 == (s[0] as int) * 0x100 + s[1] && r.value.1 == s[2..]
    ensures r.Ok? ==> U16Bytes(r.value.0) + r.value.1 == s
  {
    match CheckLen(s, 2)
    case Err(e) => Err(e)
    case Ok(_) =>
      var (l, rest) := (s[..2], s[2..]);
      BeU16Bytes(l[0], l[1]);
      Ok((BeU16(l[0], l[1]), rest))
  }

  /** Splits off a big-endian 32-bit integer. The second length test repeats
      the one made by `CheckLen`, as the source does. */
  function SplitU32(s: seq<Byte>): (r: ParseResult<(U32, seq<Byte>)>)
    ensures r.Ok? <==> |s| >= 4
    ensures r.Err? ==> r.error == UnexpectedEnd
    ensures r.Ok? ==> r.value.0 == (s[0] as int) * 0x100_0000 + (s[1] as int) * 0x1_0000 + (s[2] as int) * 0x100 + s[3]
    ensures r.Ok? ==> r.value.1 == s[4..] && |r.value.1| == |s| - 4
    ensures r.Ok? ==> U32Bytes(r.value.0) + r.value.1 == s
  {
    match CheckLen(s, 4)
    case Err(e) => Err(e)
    case Ok(_) =>
      if |s| < 4 then Err(UnexpectedEnd)
      else
        var (l, rest) := (s[..4], s[4..]);
        BeU32Bytes(l[0], l[1], l[2], l[3]);
        Ok((BeU32(l[0], l[1], l[2], l[3]), rest))
  }

  /** Splits the view into the first `at` bytes and the rest. */
  function SplitBytes(s: seq<Byte>, at: nat): (r: ParseResult<(seq<Byte>, seq<Byte>)>)
    ensures r.Ok? <==> at <= |s|
    ensures r.Err? ==> r.error == UnexpectedEnd
    ensures r.Ok? ==> |r.value.0| == at && r.value.0 + r.value.1 == s
  {
    match CheckLen(s, at)
    case Err(e) => Err(e)
    case Ok(_) => Ok((s[..at], s[at..]))
  }

  /** The view from `start` to its end. The second length test repeats the
      one made by `CheckLen`, as the source does. */
  function Tail(s: seq<Byte>, start: nat): (r: ParseResult<seq<Byte>>)
    ensures r.Ok? <==> start <= |s|
    ensures r.Err? ==> r.error == UnexpectedEnd
    ensures r.Ok? ==> |r.value| == |s| - start && s[..start] + r.value == s
  {
    match CheckLen(s, start)
    case Err(e) => Err(e)
    case Ok(_) => if |s| < start then Err(UnexpectedEnd) else Ok(s[start..])
  }

  /** Reading back what `PushU8` appended yields the value and the untouched rest. */
  lemma SplitPushU8(v: Byte, rest: seq<Byte>)
    ensures SplitU8([v] + rest) == Ok((v, rest))
  {
    assert ([v] + rest)[1..] == rest;
  }

  /** Reading back what `PushU16` appended yields the value and the untouched rest. */
  lemma SplitPushU16(v: U16, rest: seq<Byte>)
    ensures SplitU16(U16Bytes(v) + rest) == Ok((v, rest))
  {
    var s := U16Bytes(v) + rest;
    assert s[2..] == rest;
  }

  /** Reading back what `PushU32` appended yields the value and the untouched rest. */
  lemma SplitPushU32(v: U32, rest: seq<Byte>)
    ensures SplitU32(U32Bytes(v) + rest) == Ok((v, rest))
  {
    var s := U32Bytes(v) + rest;
    assert s[4..] == rest;
  }

  /** Network byte order, not host order: `[0x01, 0x02]` reads as 0x0102 and
      0x0102 is written as `[0x01, 0x02]`. */
  lemma Endianness()
    ensures SplitU16([0x01, 0x02]) == Ok((0x0102, []))
    ensures U16Bytes(0x0102) == [0x01, 0x02]
  {
  }

  //------------ BytesBuf -------------------------------------------------------

  /** A growable byte vector that raw DNS data is appended to. Bytes already
      pushed are never changed. */
  class BytesBuf {
    var bytes: seq<Byte>

    constructor ()
      ensures bytes == []
    {
      bytes := [];
    }

    /** A capacity hint; it has no observable effect. */
    method Reserve(additional: nat)
      ensures unchanged(this)
    {
    }

    /** Appends `data` verbatim; every other push goes through here. */
    method PushBytes(data: seq<Byte>)
      modifies this
      ensures bytes == old(bytes) + data
    {
      bytes := bytes + data;
    }

    method PushU8(v: Byte)
      modifies this
      ensures bytes == old(bytes) + [v]
    {
      PushBytes([v]);
    }

    method PushU16(v: U16)
      modifies this
      ensures |bytes| == |old(bytes)| + 2 && bytes[..|old(bytes)|] == old(bytes)
      ensures BeU16(bytes[|old(bytes)|], bytes[|old(bytes)| + 1]) == v
      ensures bytes == old(bytes) + U16Bytes(v)
    {
      PushBytes(U16Bytes(v));
    }

    method PushU32(v: U32)
      modifies this
      ensures |bytes| == |old(bytes)| + 4 && bytes[..|old(bytes)|] == old(bytes)
      ensures bytes == old(bytes) + U32Bytes(v)
    {
      PushBytes(U32Bytes(v));
    }
  }
}
