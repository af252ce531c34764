/**
 * Decoding node accounts (src/services/pnodeDecoder.ts). An account's data is
 * either an object the RPC endpoint already parsed, which is mapped field by field
 * with defaults, or base64 text holding the record's bytes, which are decoded
 * against `pNodeLayout` after an optional 8-byte discriminator. Every failure
 * ends in `null` (here `None`); nothing is thrown to the caller.
 *
 * The base64 text is taken as already decoded: `Valid(bytes)` stands for text
 * `atob` accepts, `Invalid` for text it rejects.
 */
module Decoder {
  import opened Common
  import opened Text
  import opened Borsh

  // ---------------------------------------------------------------- inputs

  /** The JavaScript values a field of a parsed object can hold. `Big` is a `BN`. */
  datatype JsValue = Undefined | Null | Bool(b: bool) | Number(x: real) | Str(s: string) | Big(n: int) | Object

  /** JavaScript truthiness (`NaN` is not modelled). */
  predicate Truthy(v: JsValue) {
    match v
    case Undefined => false
    case Null => false
    case Bool(b) => b
    case Number(x) => x != 0.0
    case Str(s) => s != ""
    case Big(_) => true
    case Object => true
  }

  /** The fields of a pre-parsed account the mapping reads. Text fields are strings or absent. */
  datatype ParsedObject = ParsedObject(
    identity: Option<string>,
    status: JsValue,
    uptime: JsValue,
    performance: JsValue,
    reputation: JsValue,
    storageUsed: JsValue,
    storageCap: JsValue,
    slotsProduced: JsValue,
    slotsSkipped: JsValue,
    peerId: Option<string>,
    version: Option<string>,
    lastHeartbeat: JsValue)

  /** The `parsed` member of an object: missing or falsy, truthy but not an object, or an object. */
  datatype Parsed = Unparsed | NotAnObject | Fields(o: ParsedObject)

  /** Base64 text, as the bytes `atob` gives for it, or text `atob` rejects. */
  datatype Base64 = Valid(bytes: seq<Byte>) | Invalid

  /**
   * `account.data`: missing, a base64 string, an array whose first element may be
   * a base64 string (`None` when it is not a string), or an object.
   */
  datatype AccountData = NoData | Text(text: Base64) | List(first: Option<Base64>) | Record(parsed: Parsed)

  datatype Account = Account(pubkey: string, data: AccountData)

  // ---------------------------------------------------------------- the decoded record

  /** An `f32` field: a number from a parsed object, or the 4-byte word from the bytes. */
  datatype RawFloat = Plain(x: real) | Word(bits: seq<Byte>)

  /** `RawPNodeData`. The `u64` fields are `BN`s, kept as integers; a parsed object can make them negative. */
  datatype RawRecord = RawRecord(
    identity: string,
    status: real,
    uptime: RawFloat,
    performance: RawFloat,
    reputation: RawFloat,
    storageUsed: int,
    storageCap: int,
    slotsProduced: int,
    slotsSkipped: int,
    peerId: string,
    version: string,
    lastHeartbeat: int)

  // ---------------------------------------------------------------- the parsed path

  /** `typeof v === 'number' ? v : 0`. */
  function IfNumber(v: JsValue): (r: real)
    ensures v.Number? ==> r == v.x
    ensures !v.Number? ==> r == 0.0
  {
    if v.Number? then v.x else 0.0
  }

  /** `v || ''` for a field holding a string or nothing. */
  function TextOrEmpty(v: Option<string>): (r: string)
    ensures v.Some? ==> r == v.value
    ensures v.None? ==> r == ""
  {
    v.GetOr("")
  }

  /** Whitespace removed, as `BN` does before parsing. */
  function Squeeze(s: string): (r: string)
    ensures forall i :: 0 <= i < |r| ==> r[i] !in Whitespace
  {
    Filter(s, NotWhitespace)
  }

  function NotWhitespace(c: char): bool {
    c !in Whitespace
  }

  predicate AllDigits(s: string) {
    forall i :: 0 <= i < |s| ==> '0' <= s[i] <= '9'
  }

  /**
   * `new BN(s)` in base 10: whitespace is dropped, a leading `-` negates, and
   * every other character must be a decimal digit or the constructor throws
   * (`None`). No digits at all give zero.
   */
  function ParseBN(s: string): (r: Option<int>)
    ensures r.Some? <==> (var t := Squeeze(s); if |t| > 0 && t[0] == '-' then AllDigits(t[1..]) else AllDigits(t))
  {
    var t := Squeeze(s);
    if |t| > 0 && t[0] == '-' then
      if AllDigits(t[1..]) then Some(0 - ParseNat(t[1..])) else None
    else if AllDigits(t) then Some(ParseNat(t)) else None
  }

  /** How `String(x)` writes a number whose text `BN` accepts: an integer below 10^21 in size. */
  predicate DecimalInteger(x: real) {
    x == x.Floor as real && -1_000_000_000_000_000_000_000.0 < x < 1_000_000_000_000_000_000_000.0
  }

  /**
   * `BN.isBN(v) ? v : new BN(String(v || 0))`: a `BN` is kept, a falsy value is
   * zero, an integer number or a string of digits is parsed, and anything else
   * makes the constructor throw (`None`): a fraction, an exponent, `true`, an object.
   */
  function U64Field(v: JsValue): (r: Option<int>)
    ensures v.Big? ==> r == Some(v.n)
    ensures !Truthy(v) ==> r == Some(0)
    ensures v.Number? && Truthy(v) ==> (r.Some? <==> DecimalInteger(v.x))
    ensures v.Number? && DecimalInteger(v.x) ==> r == Some(v.x.Floor)
    ensures v.Str? && Truthy(v) ==> r == ParseBN(v.s)
    ensures v == Bool(true) || v == Object ==> r.None?
  {
    match v
    case Big(n) => Some(n)
    case Number(x) =>
      if x == 0.0 then Some(0)
      else if DecimalInteger(x) then
        ParseBNRoundTrip(x.Floor);
        ParseBN(IntToString(x.Floor))
      else None
    case Str(s) => if s == "" then Some(0) else ParseBN(s)
    case Bool(b) => if b then None else Some(0)
    case Object => None
    case _ => Some(0)
  }

  /** Digits without whitespace pass through `Squeeze` unchanged. */
  lemma SqueezeDigits(s: string)
    requires forall i :: 0 <= i < |s| ==> '0' <= s[i] <= '9' || (i == 0 && s[i] == '-')
    ensures Squeeze(s) == s
  {
    assert forall i :: 0 <= i < |s| ==> NotWhitespace(s[i]);
    FilterKeepsAll(s, NotWhitespace);
  }

  /** `BN` reads back every integer `String` writes. */
  lemma ParseBNRoundTrip(n: int)
    ensures ParseBN(IntToString(n)) == Some(n)
  {
    if n < 0 {
      var d := NatToString(-n);
      var s := "-" + d;
      assert s == IntToString(n);
      assert s[1..] == d;
      SqueezeDigits(s);
      assert AllDigits(d);
      NatToStringRoundTrip(-n);
      assert ParseNat(d) == -n;
    } else {
      var d := NatToString(n);
      assert d == IntToString(n);
      SqueezeDigits(d);
      assert AllDigits(d) && d[0] != '-';
      NatToStringRoundTrip(n);
    }
  }

  /** A `u64` field given as an integer number, or as its decimal text, is read as that integer. */
  lemma U64FieldIntegers(n: int)
    ensures U64Field(Str(IntToString(n))) == Some(n)
    ensures -1_000_000_000_000_000_000_000 < n < 1_000_000_000_000_000_000_000 ==> U64Field(Number(n as real)) == Some(n)
  {
    ParseBNRoundTrip(n);
  }

  /**
   * The object mapping: text fields default to `''`, number fields to 0 unless
   * they hold a number, and `u64` fields become `BN`s. When one of those `BN`
   * constructions throws, the mapping fails (`None`).
   */
  function MapParsed(o: ParsedObject): (r: Option<RawRecord>)
    ensures r.Some? <==>
      U64Field(o.storageUsed).Some? && U64Field(o.storageCap).Some? && U64Field(o.slotsProduced).Some?
      && U64Field(o.slotsSkipped).Some? && U64Field(o.lastHeartbeat).Some?
    ensures r.Some? ==>
      r.value.identity == TextOrEmpty(o.identity) && r.value.peerId == TextOrEmpty(o.peerId)
      && r.value.version == TextOrEmpty(o.version)
      && r.value.status == IfNumber(o.status)
      && r.value.uptime == Plain(IfNumber(o.uptime))
      && r.value.performance == Plain(IfNumber(o.performance))
      && r.value.reputation == Plain(IfNumber(o.reputation))
      && Some(r.value.storageUsed) == U64Field(o.storageUsed)
      && Some(r.value.storageCap) == U64Field(o.storageCap)
      && Some(r.value.slotsProduced) == U64Field(o.slotsProduced)
      && Some(r.value.slotsSkipped) == U64Field(o.slotsSkipped)
      && Some(r.value.lastHeartbeat) == U64Field(o.lastHeartbeat)
  {
    var storageUsed :- U64Field(o.storageUsed);
    var storageCap :- U64Field(o.storageCap);
    var slotsProduced :- U64Field(o.slotsProduced);
    var slotsSkipped :- U64Field(o.slotsSkipped);
    var lastHeartbeat :- U64Field(o.lastHeartbeat);
    Some(RawRecord(
      TextOrEmpty(o.identity), IfNumber(o.status),
      Plain(IfNumber(o.uptime)), Plain(IfNumber(o.performance)), Plain(IfNumber(o.reputation)),
      storageUsed, storageCap, slotsProduced, slotsSkipped,
      TextOrEmpty(o.peerId), TextOrEmpty(o.version), lastHeartbeat))
  }

  /** An object with none of the fields maps to the all-defaults record. */
  lemma EmptyObjectDefaults()
    ensures MapParsed(ParsedObject(None, Undefined, Undefined, Undefined, Undefined, Undefined,
      Undefined, Undefined, Undefined, None, None, Undefined))
      == Some(RawRecord("", 0.0, Plain(0.0), Plain(0.0), Plain(0.0), 0, 0, 0, 0, "", "", 0))
  {
  }

  // ---------------------------------------------------------------- the byte path

  /** The record a layout decode yields. */
  function FromLayout(l: Layout): (r: RawRecord)
    ensures r.status == l.status as real
    ensures r.uptime == Word(l.uptime) && r.performance == Word(l.performance) && r.reputation == Word(l.reputation)
    ensures r.identity == l.identity && r.peerId == l.peerId && r.version == l.version
    ensures r.storageUsed == l.storageUsed && r.storageCap == l.storageCap
    ensures r.slotsProduced == l.slotsProduced && r.slotsSkipped == l.slotsSkipped
    ensures r.lastHeartbeat == l.lastHeartbeat
  {
    RawRecord(l.identity, l.status as real, Word(l.uptime), Word(l.performance), Word(l.reputation),
      l.storageUsed, l.storageCap, l.slotsProduced, l.slotsSkipped, l.peerId, l.version, l.lastHeartbeat)
  }

  /** The bytes behind the data's base64 text, if it has any. */
  function ByteData(d: AccountData): (r: Option<seq<Byte>>)
    ensures r.Some? ==> d == Text(Valid(r.value)) || d == List(Some(Valid(r.value)))
    ensures r.None? ==> !(d.Text? && d.text.Valid?) && !(d.List? && d.first.Some? && d.first.value.Valid?)
  {
    match d
    case Text(Valid(b)) => Some(b)
    case List(Some(Valid(b))) => Some(b)
    case _ => None
  }

  /** The discriminator sizes tried, in order. */
  const Offsets: seq<nat> := [0, 8]

  /** Below this many bytes a slice is skipped without a decode. */
  const MinSlice: nat := 10

  /** `buffer.slice(offset)`: empty when the offset is past the end. */
  function From(bs: seq<Byte>, offset: nat): (r: seq<Byte>)
    ensures offset <= |bs| ==> r == bs[offset..]
    ensures offset > |bs| ==> r == []
  {
    if offset <= |bs| then bs[offset..] else []
  }

  /** One attempt: skip a slice shorter than `MinSlice`, otherwise decode it. */
  function Attempt(bs: seq<Byte>, offset: nat): (r: Option<RawRecord>)
    ensures r.Some? <==> |From(bs, offset)| >= MinSlice && DecodeLayout(From(bs, offset)).Some?
  {
    var slice := From(bs, offset);
    if |slice| < MinSlice then None
    else
      match DecodeLayout(slice)
      case Some(d) => Some(FromLayout(d.value))
      case None => None
  }

  /** The attempts on one buffer, by offset. */
  function AttemptOn(bs: seq<Byte>): nat -> Option<RawRecord> {
    (offset: nat) => Attempt(bs, offset)
  }

  /** The offset loop: the first attempt that succeeds, or `None`. */
  function Probe<T>(attempt: nat -> Option<T>, offsets: seq<nat>): (r: Option<T>)
    ensures r.Some? ==> |offsets| > 0
  {
    if |offsets| == 0 then None
    else
      var first := attempt(offsets[0]);
      if first.Some? then first else Probe(attempt, offsets[1..])
  }

  /** The attempt at position `i` is the first to succeed. */
  predicate FirstSuccess<T>(attempt: nat -> Option<T>, offsets: seq<nat>, i: int) {
    0 <= i < |offsets| && attempt(offsets[i]).Some?
    && forall j :: 0 <= j < i ==> attempt(offsets[j]).None?
  }

  /**
   * The loop returns the first attempt that succeeds, and `None` exactly when
   * every attempt fails.
   */
  lemma {:induction false} ProbeFindsFirst<T>(attempt: nat -> Option<T>, offsets: seq<nat>)
    ensures Probe(attempt, offsets).None? <==> forall i :: 0 <= i < |offsets| ==> attempt(offsets[i]).None?
    ensures Probe(attempt, offsets).Some? ==>
      exists i :: FirstSuccess(attempt, offsets, i) && Probe(attempt, offsets) == attempt(offsets[i])
  {
    if |offsets| > 0 {
      var tail := offsets[1..];
      ProbeFindsFirst(attempt, tail);
      assert forall i :: 1 <= i < |offsets| ==> offsets[i] == tail[i - 1];
      if attempt(offsets[0]).Some? {
        assert FirstSuccess(attempt, offsets, 0);
      } else if Probe(attempt, tail).Some? {
        var i :| FirstSuccess(attempt, tail, i) && Probe(attempt, tail) == attempt(tail[i]);
        assert FirstSuccess(attempt, offsets, i + 1);
      } else {
        forall i | 0 <= i < |offsets|
          ensures attempt(offsets[i]).None?
        {
          if i > 0 {
            assert offsets[i] == tail[i - 1];
          }
        }
      }
    }
  }

  /**
   * `decodePNodeAccount`. A parsed object is mapped; when the mapping throws, the
   * byte path finds no text in an object, so the result is `None`. Base64 text
   * is decoded at offset 0, then at offset 8. Anything else is `None`.
   */
  function DecodeAccount(a: Account): (r: Option<RawRecord>)
    ensures a.data.Record? ==> r == if a.data.parsed.Fields? then MapParsed(a.data.parsed.o) else None
    ensures ByteData(a.data).None? && !a.data.Record? ==> r.None?
    ensures ByteData(a.data).Some? ==> r == Probe(AttemptOn(ByteData(a.data).value), Offsets)
  {
    match a.data
    case Record(Fields(o)) => MapParsed(o)
    case Record(_) => None
    case _ =>
      match ByteData(a.data)
      case Some(bs) => Probe(AttemptOn(bs), Offsets)
      case None => None
  }

  /**
   * Offset 0 is tried first and, when it decodes, offset 8 is never looked at;
   * otherwise the result is the decode at offset 8, if that succeeds.
   */
  lemma FirstOffsetWins(bs: seq<Byte>)
    ensures DecodeLayout(bs).Some? ==> Probe(AttemptOn(bs), Offsets) == Some(FromLayout(DecodeLayout(bs).value.value))
    ensures DecodeLayout(bs).None? ==>
      Probe(AttemptOn(bs), Offsets) ==
        (if DecodeLayout(From(bs, 8)).Some? then Some(FromLayout(DecodeLayout(From(bs, 8)).value.value)) else None)
  {
    if DecodeLayout(bs).Some? {
      DecodedIsEncoding(bs);
    } else if DecodeLayout(From(bs, 8)).Some? {
      DecodedIsEncoding(From(bs, 8));
    }
    assert Probe(AttemptOn(bs), Offsets[1..][1..]) == None;
  }

  /**
   * The check for slices shorter than 10 bytes changes nothing: no slice shorter
   * than 65 bytes decodes anyway.
   */
  lemma ShortSliceSkipIsRedundant(bs: seq<Byte>, offset: nat)
    ensures Attempt(bs, offset) ==
      (if DecodeLayout(From(bs, offset)).Some? then Some(FromLayout(DecodeLayout(From(bs, offset)).value.value)) else None)
  {
    if |From(bs, offset)| < MinSlice {
      ShortNeverDecodes(From(bs, offset));
    }
  }

  /** The bytes of an encoded record, with anything after them, decode to that record. */
  lemma EncodedAccountDecodes(key: string, l: Layout, rest: seq<Byte>)
    requires Encodable(l)
    ensures DecodeAccount(Account(key, Text(Valid(Encode(l) + rest)))) == Some(FromLayout(l))
  {
    DecodeEncode(l, rest);
    FirstOffsetWins(Encode(l) + rest);
  }

  /**
   * Behind an 8-byte discriminator a record is always found: either the offset 0
   * attempt happens to decode, or offset 8 yields the record itself.
   */
  lemma DiscriminatedAccountDecodes(key: string, disc: seq<Byte>, l: Layout, rest: seq<Byte>)
    requires |disc| == 8 && Encodable(l)
    ensures var bs := disc + Encode(l) + rest;
      DecodeAccount(Account(key, Text(Valid(bs)))).Some?
      && (DecodeLayout(bs).None? ==> DecodeAccount(Account(key, Text(Valid(bs)))) == Some(FromLayout(l)))
  {
    var bs := disc + Encode(l) + rest;
    assert From(bs, 8) == Encode(l) + rest;
    DecodeEncode(l, rest);
    FirstOffsetWins(bs);
  }

  // ---------------------------------------------------------------- all accounts

  /** The positions of the accounts that decode, in order. */
  function DecodedIndices(accounts: seq<Account>): (r: seq<nat>)
    ensures forall k :: 0 <= k < |r| ==> r[k] < |accounts| && DecodeAccount(accounts[r[k]]).Some?
    ensures forall k, m :: 0 <= k < m < |r| ==> r[k] < r[m]
  {
    if |accounts| == 0 then []
    else
      var n := |accounts| - 1;
      var front := DecodedIndices(accounts[..n]);
      assert forall i :: 0 <= i < n ==> accounts[..n][i] == accounts[i];
      if DecodeAccount(accounts[n]).Some? then front + [n] else front
  }

  /** Every account that decodes has its position listed. */
  lemma {:induction false} DecodedIndicesComplete(accounts: seq<Account>)
    ensures forall i :: 0 <= i < |accounts| && DecodeAccount(accounts[i]).Some? ==> i in DecodedIndices(accounts)
  {
    if |accounts| > 0 {
      var n := |accounts| - 1;
      DecodedIndicesComplete(accounts[..n]);
      assert forall i :: 0 <= i < n ==> accounts[..n][i] == accounts[i];
    }
  }

  /** `decodePNodeAccounts`: the records of the accounts that decode, in account order. */
  function DecodeAccounts(accounts: seq<Account>): (r: seq<RawRecord>)
    ensures |r| == |DecodedIndices(accounts)| <= |accounts|
    ensures forall k :: 0 <= k < |r| ==> Some(r[k]) == DecodeAccount(accounts[DecodedIndices(accounts)[k]])
  {
    if |accounts| == 0 then []
    else
      var n := |accounts| - 1;
      var front := DecodeAccounts(accounts[..n]);
      assert forall i :: 0 <= i < n ==> accounts[..n][i] == accounts[i];
      IndicesBound(DecodedIndices(accounts), |accounts|);
      match DecodeAccount(accounts[n])
      case Some(raw) => front + [raw]
      case None => front
  }

  /** Strictly increasing indices below `n` number at most `n`. */
  lemma {:induction false} IndicesBound(idx: seq<nat>, n: nat)
    requires forall k :: 0 <= k < |idx| ==> idx[k] < n
    requires forall k, m :: 0 <= k < m < |idx| ==> idx[k] < idx[m]
    ensures |idx| <= n
  {
    if |idx| > 0 {
      var last := idx[|idx| - 1];
      IndicesBound(idx[..|idx| - 1], last);
    }
  }

  /** When every account decodes, the records line up with the accounts one for one. */
  lemma AllDecodeAligned(accounts: seq<Account>)
    requires forall i :: 0 <= i < |accounts| ==> DecodeAccount(accounts[i]).Some?
    ensures |DecodeAccounts(accounts)| == |accounts|
    ensures forall i :: 0 <= i < |accounts| ==> Some(DecodeAccounts(accounts)[i]) == DecodeAccount(accounts[i])
  {
    var idx := DecodedIndices(accounts);
    DecodedIndicesComplete(accounts);
    IndicesAreAll(idx, |accounts|);
  }

  /** Strictly increasing indices below `n` that include every index below `n` are `0, 1, …, n - 1`. */
  lemma {:induction false} IndicesAreAll(idx: seq<nat>, n: nat)
    requires forall k :: 0 <= k < |idx| ==> idx[k] < n
    requires forall k, m :: 0 <= k < m < |idx| ==> idx[k] < idx[m]
    requires forall i :: 0 <= i < n ==> i in idx
    ensures |idx| == n
    ensures forall k :: 0 <= k < n ==> idx[k] == k
  {
    IndicesBound(idx, n);
    if n > 0 {
      assert n - 1 in idx;
      var j :| 0 <= j < |idx| && idx[j] == n - 1;
      var last := idx[|idx| - 1];
      assert last < n;
      assert forall k :: 0 <= k < |idx| - 1 ==> idx[k] < last;
      assert j == |idx| - 1;
      var front := idx[..|idx| - 1];
      forall i | 0 <= i < n - 1
        ensures i in front
      {
        assert i in idx;
        var k :| 0 <= k < |idx| && idx[k] == i;
        assert k < |idx| - 1;
        assert front[k] == i;
      }
      IndicesAreAll(front, n - 1);
    }
  }
}
