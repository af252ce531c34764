/**
 * The byte layout of a node account (`pNodeLayout` in src/services/pnodeDecoder.ts),
 * read with the Borsh rules it uses: `u8` is one byte, `u32` and `u64` are
 * little-endian, a string is a `u32` byte count followed by that many bytes, and
 * an `f32` is kept here as its 4-byte word. A read fails only when the bytes run
 * out; bytes after the last field are ignored.
 */
module Borsh {
  import opened Common

  // ---------------------------------------------------------------- integers

  function Pow256(k: nat): (r: nat)
    ensures r >= 1
  {
    if k == 0 then 1 else 256 * Pow256(k - 1)
  }

  /** The value of bytes read least significant first. */
  function LittleEndian(bs: seq<Byte>): (r: nat)
    ensures r < Pow256(|bs|)
  {
    if |bs| == 0 then 0 else bs[0] as nat + 256 * LittleEndian(bs[1..])
  }

  /** The `width` bytes of `n`, least significant first. */
  function ToLittleEndian(n: nat, width: nat): (r: seq<Byte>)
    ensures |r| == width
  {
    if width == 0 then [] else [(n % 256) as Byte] + ToLittleEndian(n / 256, width - 1)
  }

  /** Writing then reading a number that fits gives the number back. */
  lemma {:induction false} LittleEndianRoundTrip(n: nat, width: nat)
    requires n < Pow256(width)
    ensures LittleEndian(ToLittleEndian(n, width)) == n
  {
    if width > 0 {
      LittleEndianRoundTrip(n / 256, width - 1);
      var r := ToLittleEndian(n, width);
      assert r[1..] == ToLittleEndian(n / 256, width - 1);
    }
  }

  /** Reading then writing bytes gives the bytes back. */
  lemma {:induction false} ToLittleEndianRoundTrip(bs: seq<Byte>)
    ensures ToLittleEndian(LittleEndian(bs), |bs|) == bs
  {
    if |bs| > 0 {
      ToLittleEndianRoundTrip(bs[1..]);
      var n := LittleEndian(bs);
      assert n % 256 == bs[0] as nat;
      assert n / 256 == LittleEndian(bs[1..]);
    }
  }

  const U32Bound: nat := 0x1_0000_0000
  const U64Bound: nat := 0x1_0000_0000_0000_0000

  lemma Pow256Widths()
    ensures Pow256(4) == U32Bound && Pow256(8) == U64Bound
  {
    assert Pow256(4) == 256 * 256 * 256 * 256;
    assert Pow256(8) == Pow256(4) * Pow256(4) by {
      assert Pow256(8) == 256 * 256 * 256 * 256 * Pow256(4);
    }
  }

  // ---------------------------------------------------------------- readers

  /** A value read and the bytes after it. */
  datatype Read<+T> = Read(value: T, rest: seq<Byte>)

  /** The next `n` bytes. */
  function ReadBytes(bs: seq<Byte>, n: nat): (r: Option<Read<seq<Byte>>>)
    ensures r.Some? <==> n <= |bs|
    ensures r.Some? ==> bs == r.value.value + r.value.rest && |r.value.value| == n
  {
    if n <= |bs| then Some(Read(bs[..n], bs[n..])) else None
  }

  function ReadU8(bs: seq<Byte>): (r: Option<Read<Byte>>)
    ensures r.Some? <==> |bs| >= 1
    ensures r.Some? ==> bs == [r.value.value] + r.value.rest
  {
    if |bs| >= 1 then Some(Read(bs[0], bs[1..])) else None
  }

  function ReadU32(bs: seq<Byte>): (r: Option<Read<nat>>)
    ensures r.Some? <==> |bs| >= 4
    ensures r.Some? ==> r.value.value < U32Bound && |r.value.rest| == |bs| - 4
  {
    Pow256Widths();
    var b :- ReadBytes(bs, 4);
    Some(Read(LittleEndian(b.value), b.rest))
  }

  function ReadU64(bs: seq<Byte>): (r: Option<Read<nat>>)
    ensures r.Some? <==> |bs| >= 8
    ensures r.Some? ==> r.value.value < U64Bound && |r.value.rest| == |bs| - 8
  {
    Pow256Widths();
    var b :- ReadBytes(bs, 8);
    Some(Read(LittleEndian(b.value), b.rest))
  }

  /** An `f32`, kept as its 4-byte word. */
  function ReadF32(bs: seq<Byte>): (r: Option<Read<seq<Byte>>>)
    ensures r.Some? <==> |bs| >= 4
    ensures r.Some? ==> |r.value.value| == 4 && bs == r.value.value + r.value.rest
  {
    ReadBytes(bs, 4)
  }

  /** Bytes as characters, one character per byte. */
  function BytesToText(bs: seq<Byte>): (s: string)
    ensures |s| == |bs|
    ensures forall i :: 0 <= i < |bs| ==> s[i] as int == bs[i] as int
  {
    seq(|bs|, i requires 0 <= i < |bs| => bs[i] as char)
  }

  /** Characters below 256 as bytes. */
  function TextToBytes(s: string): (bs: seq<Byte>)
    requires forall i :: 0 <= i < |s| ==> s[i] as int < 256
    ensures |bs| == |s|
  {
    seq(|s|, i requires 0 <= i < |s| => s[i] as int as Byte)
  }

  /** A `str`: a `u32` byte count, then that many bytes. */
  function ReadStr(bs: seq<Byte>): (r: Option<Read<string>>)
    ensures r.Some? ==> |bs| >= 4 + |r.value.value| && |r.value.rest| == |bs| - 4 - |r.value.value|
    ensures r.Some? <==> |bs| >= 4 && LittleEndian(bs[..4]) <= |bs| - 4
  {
    var n :- ReadU32(bs);
    var b :- ReadBytes(n.rest, n.value);
    Some(Read(BytesToText(b.value), b.rest))
  }

  // ---------------------------------------------------------------- the layout

  /** The fields of `pNodeLayout`, in order, as Borsh reads them. */
  datatype Layout = Layout(
    identity: string,
    status: Byte,
    uptime: seq<Byte>,
    performance: seq<Byte>,
    reputation: seq<Byte>,
    storageUsed: nat,
    storageCap: nat,
    slotsProduced: nat,
    slotsSkipped: nat,
    peerId: string,
    version: string,
    lastHeartbeat: nat)

  /** The first five fields: identity, status and the three `f32` words. */
  datatype Head = Head(identity: string, status: Byte, uptime: seq<Byte>, performance: seq<Byte>, reputation: seq<Byte>)

  /** The four `u64` counters. */
  datatype Counters = Counters(storageUsed: nat, storageCap: nat, slotsProduced: nat, slotsSkipped: nat)

  /** The last three fields. */
  datatype Tail = Tail(peerId: string, version: string, lastHeartbeat: nat)

  function ReadHead(bs: seq<Byte>): (r: Option<Read<Head>>)
    ensures |bs| < 17 ==> r.None?
    ensures r.Some? ==> |bs| == 17 + |r.value.value.identity| + |r.value.rest|
  {
    var identity :- ReadStr(bs);
    var status :- ReadU8(identity.rest);
    var uptime :- ReadF32(status.rest);
    var performance :- ReadF32(uptime.rest);
    var reputation :- ReadF32(performance.rest);
    Some(Read(Head(identity.value, status.value, uptime.value, performance.value, reputation.value), reputation.rest))
  }

  function ReadCounters(bs: seq<Byte>): (r: Option<Read<Counters>>)
    ensures r.Some? <==> |bs| >= 32
    ensures r.Some? ==> |r.value.rest| == |bs| - 32
  {
    var storageUsed :- ReadU64(bs);
    var storageCap :- ReadU64(storageUsed.rest);
    var slotsProduced :- ReadU64(storageCap.rest);
    var slotsSkipped :- ReadU64(slotsProduced.rest);
    Some(Read(Counters(storageUsed.value, storageCap.value, slotsProduced.value, slotsSkipped.value), slotsSkipped.rest))
  }

  function ReadTail(bs: seq<Byte>): (r: Option<Read<Tail>>)
    ensures |bs| < 16 ==> r.None?
    ensures r.Some? ==> |bs| == 16 + |r.value.value.peerId| + |r.value.value.version| + |r.value.rest|
  {
    var peerId :- ReadStr(bs);
    var version :- ReadStr(peerId.rest);
    var lastHeartbeat :- ReadU64(version.rest);
    Some(Read(Tail(peerId.value, version.value, lastHeartbeat.value), lastHeartbeat.rest))
  }

  function Assemble(h: Head, c: Counters, t: Tail): Layout {
    Layout(h.identity, h.status, h.uptime, h.performance, h.reputation,
      c.storageUsed, c.storageCap, c.slotsProduced, c.slotsSkipped,
      t.peerId, t.version, t.lastHeartbeat)
  }

  function HeadOf(l: Layout): Head {
    Head(l.identity, l.status, l.uptime, l.performance, l.reputation)
  }

  function CountersOf(l: Layout): Counters {
    Counters(l.storageUsed, l.storageCap, l.slotsProduced, l.slotsSkipped)
  }

  function TailOf(l: Layout): Tail {
    Tail(l.peerId, l.version, l.lastHeartbeat)
  }

  /** `pNodeLayout.decode(bytes)`: the fields in layout order, then whatever bytes are left. */
  function DecodeLayout(bs: seq<Byte>): (r: Option<Read<Layout>>)
    ensures |bs| < 65 ==> r.None?
    ensures r.Some? ==>
      |bs| == 65 + |r.value.value.identity| + |r.value.value.peerId| + |r.value.value.version| + |r.value.rest|
  {
    var h :- ReadHead(bs);
    var c :- ReadCounters(h.rest);
    var t :- ReadTail(c.rest);
    Some(Read(Assemble(h.value, c.value, t.value), t.rest))
  }

  /** A string Borsh can write with one byte per character. */
  predicate EncodableText(s: string) {
    |s| < U32Bound && forall i :: 0 <= i < |s| ==> s[i] as int < 256
  }

  predicate EncodableHead(h: Head) {
    EncodableText(h.identity) && |h.uptime| == 4 && |h.performance| == 4 && |h.reputation| == 4
  }

  predicate EncodableCounters(c: Counters) {
    c.storageUsed < U64Bound && c.storageCap < U64Bound
    && c.slotsProduced < U64Bound && c.slotsSkipped < U64Bound
  }

  predicate EncodableTail(t: Tail) {
    EncodableText(t.peerId) && EncodableText(t.version) && t.lastHeartbeat < U64Bound
  }

  /** A record whose every field fits its layout slot. */
  predicate Encodable(l: Layout) {
    EncodableHead(HeadOf(l)) && EncodableCounters(CountersOf(l)) && EncodableTail(TailOf(l))
  }

  function EncodeStr(s: string): (bs: seq<Byte>)
    requires EncodableText(s)
    ensures |bs| == 4 + |s|
  {
    ToLittleEndian(|s|, 4) + TextToBytes(s)
  }

  function EncodeHead(h: Head): (bs: seq<Byte>)
    requires EncodableHead(h)
    ensures |bs| == 17 + |h.identity|
  {
    EncodeStr(h.identity) + [h.status] + h.uptime + h.performance + h.reputation
  }

  function EncodeCounters(c: Counters): (bs: seq<Byte>)
    requires EncodableCounters(c)
    ensures |bs| == 32
  {
    ToLittleEndian(c.storageUsed, 8) + ToLittleEndian(c.storageCap, 8)
    + ToLittleEndian(c.slotsProduced, 8) + ToLittleEndian(c.slotsSkipped, 8)
  }

  function EncodeTail(t: Tail): (bs: seq<Byte>)
    requires EncodableTail(t)
    ensures |bs| == 16 + |t.peerId| + |t.version|
  {
    EncodeStr(t.peerId) + EncodeStr(t.version) + ToLittleEndian(t.lastHeartbeat, 8)
  }

  /** Borsh serialization of a record, the inverse of `DecodeLayout`. */
  function Encode(l: Layout): (bs: seq<Byte>)
    requires Encodable(l)
    ensures |bs| == 65 + |l.identity| + |l.peerId| + |l.version|
  {
    EncodeHead(HeadOf(l)) + EncodeCounters(CountersOf(l)) + EncodeTail(TailOf(l))
  }

  // ---------------------------------------------------------------- encode, then decode

  lemma ReadStrEncoded(s: string, rest: seq<Byte>)
    requires EncodableText(s)
    ensures ReadStr(EncodeStr(s) + rest) == Some(Read(s, rest))
  {
    Pow256Widths();
    var bs := EncodeStr(s) + rest;
    LittleEndianRoundTrip(|s|, 4);
    assert bs[..4] == ToLittleEndian(|s|, 4);
    assert bs[4..] == TextToBytes(s) + rest;
    assert (TextToBytes(s) + rest)[..|s|] == TextToBytes(s);
    assert (TextToBytes(s) + rest)[|s|..] == rest;
    assert BytesToText(TextToBytes(s)) == s;
  }

  lemma ReadU64Encoded(n: nat, rest: seq<Byte>)
    requires n < U64Bound
    ensures ReadU64(ToLittleEndian(n, 8) + rest) == Some(Read(n, rest))
  {
    Pow256Widths();
    LittleEndianRoundTrip(n, 8);
    var bs := ToLittleEndian(n, 8) + rest;
    assert bs[..8] == ToLittleEndian(n, 8);
    assert bs[8..] == rest;
  }

  lemma ReadWordEncoded(w: seq<Byte>, rest: seq<Byte>)
    requires |w| == 4
    ensures ReadF32(w + rest) == Some(Read(w, rest))
  {
    assert (w + rest)[..4] == w;
    assert (w + rest)[4..] == rest;
  }

  lemma ReadHeadEncoded(h: Head, rest: seq<Byte>)
    requires EncodableHead(h)
    ensures ReadHead(EncodeHead(h) + rest) == Some(Read(h, rest))
  {
    var t5 := h.reputation + rest;
    var t4 := h.performance + t5;
    var t3 := h.uptime + t4;
    var t2 := [h.status] + t3;
    assert EncodeHead(h) + rest == EncodeStr(h.identity) + t2;
    ReadStrEncoded(h.identity, t2);
    assert ReadU8(t2) == Some(Read(h.status, t3));
    ReadWordEncoded(h.uptime, t4);
    ReadWordEncoded(h.performance, t5);
    ReadWordEncoded(h.reputation, rest);
  }

  lemma ReadCountersEncoded(c: Counters, rest: seq<Byte>)
    requires EncodableCounters(c)
    ensures ReadCounters(EncodeCounters(c) + rest) == Some(Read(c, rest))
  {
    var t4 := ToLittleEndian(c.slotsSkipped, 8) + rest;
    var t3 := ToLittleEndian(c.slotsProduced, 8) + t4;
    var t2 := ToLittleEndian(c.storageCap, 8) + t3;
    assert EncodeCounters(c) + rest == ToLittleEndian(c.storageUsed, 8) + t2;
    ReadU64Encoded(c.storageUsed, t2);
    ReadU64Encoded(c.storageCap, t3);
    ReadU64Encoded(c.slotsProduced, t4);
    ReadU64Encoded(c.slotsSkipped, rest);
  }

  lemma ReadTailEncoded(t: Tail, rest: seq<Byte>)
    requires EncodableTail(t)
    ensures ReadTail(EncodeTail(t) + rest) == Some(Read(t, rest))
  {
    var t3 := ToLittleEndian(t.lastHeartbeat, 8) + rest;
    var t2 := EncodeStr(t.version) + t3;
    assert EncodeTail(t) + rest == EncodeStr(t.peerId) + t2;
    ReadStrEncoded(t.peerId, t2);
    ReadStrEncoded(t.version, t3);
    ReadU64Encoded(t.lastHeartbeat, rest);
  }

  /** Decoding an encoded record gives the record back, and the trailing bytes untouched. */
  lemma DecodeEncode(l: Layout, rest: seq<Byte>)
    requires Encodable(l)
    ensures DecodeLayout(Encode(l) + rest) == Some(Read(l, rest))
  {
    var t3 := EncodeTail(TailOf(l)) + rest;
    var t2 := EncodeCounters(CountersOf(l)) + t3;
    assert Encode(l) + rest == EncodeHead(HeadOf(l)) + t2;
    ReadHeadEncoded(HeadOf(l), t2);
    ReadCountersEncoded(CountersOf(l), t3);
    ReadTailEncoded(TailOf(l), rest);
  }

  // ---------------------------------------------------------------- decode, then encode

  lemma StrIsEncoding(bs: seq<Byte>)
    requires ReadStr(bs).Some?
    ensures EncodableText(ReadStr(bs).value.value)
    ensures bs == EncodeStr(ReadStr(bs).value.value) + ReadStr(bs).value.rest
  {
    Pow256Widths();
    var r := ReadStr(bs).value;
    var n := LittleEndian(bs[..4]);
    var body := bs[4..][..n];
    assert r.value == BytesToText(body);
    assert r.rest == bs[4..][n..];
    assert TextToBytes(r.value) == body;
    ToLittleEndianRoundTrip(bs[..4]);
    assert |r.value| == n;
    assert bs == bs[..4] + body + r.rest;
  }

  lemma U64IsEncoding(bs: seq<Byte>)
    requires ReadU64(bs).Some?
    ensures ReadU64(bs).value.value < U64Bound
    ensures bs == ToLittleEndian(ReadU64(bs).value.value, 8) + ReadU64(bs).value.rest
  {
    ToLittleEndianRoundTrip(bs[..8]);
    assert bs == bs[..8] + bs[8..];
  }

  lemma HeadIsEncoding(bs: seq<Byte>)
    requires ReadHead(bs).Some?
    ensures EncodableHead(ReadHead(bs).value.value)
    ensures bs == EncodeHead(ReadHead(bs).value.value) + ReadHead(bs).value.rest
  {
    var i := ReadStr(bs).value;
    StrIsEncoding(bs);
    var st := ReadU8(i.rest).value;
    var u := ReadF32(st.rest).value;
    var p := ReadF32(u.rest).value;
    var rp := ReadF32(p.rest).value;
    var h := ReadHead(bs).value.value;
    assert h == Head(i.value, st.value, u.value, p.value, rp.value);
    var ei, es := EncodeStr(h.identity), [h.status];
    assert bs == ei + (es + (h.uptime + (h.performance + (h.reputation + rp.rest))));
    assert EncodeHead(h) == ei + es + h.uptime + h.performance + h.reputation;
    AppendAssociative(ei + es + h.uptime + h.performance, h.reputation, rp.rest);
    AppendAssociative(ei + es + h.uptime, h.performance, h.reputation + rp.rest);
    AppendAssociative(ei + es, h.uptime, h.performance + (h.reputation + rp.rest));
    AppendAssociative(ei, es, h.uptime + (h.performance + (h.reputation + rp.rest)));
  }

  lemma CountersIsEncoding(bs: seq<Byte>)
    requires ReadCounters(bs).Some?
    ensures EncodableCounters(ReadCounters(bs).value.value)
    ensures bs == EncodeCounters(ReadCounters(bs).value.value) + ReadCounters(bs).value.rest
  {
    var a := ReadU64(bs).value;
    U64IsEncoding(bs);
    var b := ReadU64(a.rest).value;
    U64IsEncoding(a.rest);
    var c := ReadU64(b.rest).value;
    U64IsEncoding(b.rest);
    var d := ReadU64(c.rest).value;
    U64IsEncoding(c.rest);
    var k := ReadCounters(bs).value.value;
    assert k == Counters(a.value, b.value, c.value, d.value);
    var ea, eb, ec, ed := ToLittleEndian(a.value, 8), ToLittleEndian(b.value, 8), ToLittleEndian(c.value, 8), ToLittleEndian(d.value, 8);
    assert bs == ea + (eb + (ec + (ed + d.rest)));
    assert EncodeCounters(k) == ea + eb + ec + ed;
    AppendAssociative(ea + eb + ec, ed, d.rest);
    AppendAssociative(ea + eb, ec, ed + d.rest);
    AppendAssociative(ea, eb, ec + (ed + d.rest));
  }

  lemma TailIsEncoding(bs: seq<Byte>)
    requires ReadTail(bs).Some?
    ensures EncodableTail(ReadTail(bs).value.value)
    ensures bs == EncodeTail(ReadTail(bs).value.value) + ReadTail(bs).value.rest
  {
    var a := ReadStr(bs).value;
    StrIsEncoding(bs);
    var b := ReadStr(a.rest).value;
    StrIsEncoding(a.rest);
    var c := ReadU64(b.rest).value;
    U64IsEncoding(b.rest);
    var t := ReadTail(bs).value.value;
    assert t == Tail(a.value, b.value, c.value);
    var ea, eb, ec := EncodeStr(a.value), EncodeStr(b.value), ToLittleEndian(c.value, 8);
    assert bs == ea + (eb + (ec + c.rest));
    assert EncodeTail(t) == ea + eb + ec;
    AppendAssociative(ea + eb, ec, c.rest);
    AppendAssociative(ea, eb, ec + c.rest);
  }

  /**
   * A successful decode read an encodable record from the front of the bytes:
   * the bytes are its encoding followed by what was left. So a decode consumes at
   * least 65 bytes and every `u64` it returns is below 2^64.
   */
  lemma DecodedIsEncoding(bs: seq<Byte>)
    ensures DecodeLayout(bs).Some? ==>
      && Encodable(DecodeLayout(bs).value.value)
      && bs == Encode(DecodeLayout(bs).value.value) + DecodeLayout(bs).value.rest
      && |bs| >= 65 + |DecodeLayout(bs).value.rest|
  {
    if DecodeLayout(bs).Some? {
      var h := ReadHead(bs).value;
      HeadIsEncoding(bs);
      var c := ReadCounters(h.rest).value;
      CountersIsEncoding(h.rest);
      var t := ReadTail(c.rest).value;
      TailIsEncoding(c.rest);
      var l := DecodeLayout(bs).value.value;
      assert l == Assemble(h.value, c.value, t.value);
      assert HeadOf(l) == h.value && CountersOf(l) == c.value && TailOf(l) == t.value;
      var eh, ec, et := EncodeHead(h.value), EncodeCounters(c.value), EncodeTail(t.value);
      assert Encode(l) == eh + ec + et;
      AppendAssociative(eh + ec, et, t.rest);
      AppendAssociative(eh, ec, et + t.rest);
    }
  }

  /** Fewer than 65 bytes never decode. */
  lemma ShortNeverDecodes(bs: seq<Byte>)
    requires |bs| < 65
    ensures DecodeLayout(bs).None?
  {
    if DecodeLayout(bs).Some? {
      DecodedIsEncoding(bs);
    }
  }
}
