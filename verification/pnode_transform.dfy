/**
 * Turning decoded account records into dashboard nodes
 * (src/services/pnodeTransform.ts): the status code becomes a status, byte
 * counts become GB, and empty text fields fall back to values derived from the
 * account's public key.
 *
 * How an `f32` word reads as a number is not modelled: it is the parameter
 * `f32`, applied to the words the byte decoder produced.
 */
module PNodeTransform {
  import opened Common
  import opened Node
  import opened Decoder
  import PodTransform

  /** `mapStatus`: code 1 is active, code 2 syncing, anything else inactive. */
  function MapStatus(code: real): (s: Status)
    ensures s == Active <==> code == 1.0
    ensures s == Syncing <==> code == 2.0
    ensures s == Inactive <==> code != 1.0 && code != 2.0
  {
    if code == 1.0 then Active else if code == 2.0 then Syncing else Inactive
  }

  /** `bytesToGB`: the exact quotient by 2^30, with no rounding. */
  function BytesToGB(bytes: int): (gb: real)
    ensures gb * PodTransform.BytesPerGB == bytes as real
    ensures bytes >= 0 ==> gb >= 0.0
  {
    bytes as real / PodTransform.BytesPerGB
  }

  /** A whole number of GB converts to exactly that number. */
  lemma WholeGB(k: int)
    ensures BytesToGB(k * 1024 * 1024 * 1024) == k as real
  {
  }

  /** `bnToNumber`: an absent value is 0, a `BN` its value. */
  function BnToNumber(v: Option<int>): (n: int)
    ensures v.None? ==> n == 0
    ensures v.Some? ==> n == v.value
  {
    v.GetOr(0)
  }

  /** The number an `f32` field holds. */
  function FloatValue(f: RawFloat, f32: seq<Byte> -> real): (x: real)
    ensures f.Plain? ==> x == f.x
    ensures f.Word? ==> x == f32(f.bits)
  {
    match f
    case Plain(x) => x
    case Word(bits) => f32(bits)
  }

  /** The first eight characters of the key, or all of it when it is shorter. */
  function KeyPrefix(pubkey: string): (p: string)
    ensures |p| == if |pubkey| < 8 then |pubkey| else 8
    ensures pubkey == p + pubkey[|p|..]
  {
    if |pubkey| < 8 then pubkey else pubkey[..8]
  }

  /** The identity a record without one is given. */
  function FallbackIdentity(pubkey: string): string {
    "pNode-" + KeyPrefix(pubkey)
  }

  /**
   * `transformPNode`. Text fields fall back when empty: identity to
   * `"pNode-"` and the key's first eight characters, peer id to the key, version to
   * `"unknown"`. Scores pass through unclamped. The heartbeat's seconds become
   * milliseconds.
   */
  function TransformPNode(raw: RawRecord, pubkey: string, f32: seq<Byte> -> real): (n: PNode)
    ensures raw.identity != "" ==> n.identity == raw.identity
    ensures raw.identity == "" ==> n.identity == FallbackIdentity(pubkey)
    ensures raw.peerId != "" ==> n.peerId == raw.peerId
    ensures raw.peerId == "" ==> n.peerId == pubkey
    ensures raw.version != "" ==> n.version == raw.version
    ensures raw.version == "" ==> n.version == "unknown"
    ensures n.status == MapStatus(raw.status)
    ensures n.uptime == FloatValue(raw.uptime, f32) && n.performance == FloatValue(raw.performance, f32)
    ensures n.reputation == FloatValue(raw.reputation, f32)
    ensures n.lastHeartbeat == raw.lastHeartbeat * 1000
    ensures n.storageUsed * PodTransform.BytesPerGB == raw.storageUsed as real
    ensures n.storageCap * PodTransform.BytesPerGB == raw.storageCap as real
    ensures n.slotsProduced == raw.slotsProduced && n.slotsSkipped == raw.slotsSkipped
  {
    PNode(
      identity := if raw.identity != "" then raw.identity else FallbackIdentity(pubkey),
      status := MapStatus(raw.status),
      uptime := FloatValue(raw.uptime, f32),
      performance := FloatValue(raw.performance, f32),
      lastHeartbeat := raw.lastHeartbeat * 1000,
      storageUsed := BytesToGB(raw.storageUsed),
      storageCap := BytesToGB(raw.storageCap),
      slotsProduced := BnToNumber(Some(raw.slotsProduced)),
      slotsSkipped := BnToNumber(Some(raw.slotsSkipped)),
      peerId := if raw.peerId != "" then raw.peerId else pubkey,
      version := if raw.version != "" then raw.version else "unknown",
      reputation := FloatValue(raw.reputation, f32))
  }

  /**
   * Every node has a non-empty identity and version, and a non-empty peer id when
   * the key is non-empty; an identity made up from the key starts with `"pNode-"`
   * and then the key's own first characters.
   */
  lemma TextFieldsNeverEmpty(raw: RawRecord, pubkey: string, f32: seq<Byte> -> real)
    ensures TransformPNode(raw, pubkey, f32).identity != ""
    ensures TransformPNode(raw, pubkey, f32).version != ""
    ensures pubkey != "" ==> TransformPNode(raw, pubkey, f32).peerId != ""
    ensures raw.identity == "" ==>
      var id := TransformPNode(raw, pubkey, f32).identity;
      id[..6] == "pNode-" && IsPrefixOf(id[6..], pubkey)
  {
  }

  predicate IsPrefixOf(p: string, s: string) {
    |p| <= |s| && s[..|p|] == p
  }

  /**
   * `transformPNodes`: record `i` is paired with account `i`. Reading past the
   * end of the accounts would throw, so there must be at least as many accounts as
   * records.
   */
  function TransformPNodes(raws: seq<RawRecord>, accounts: seq<Account>, f32: seq<Byte> -> real): (r: seq<PNode>)
    requires |accounts| >= |raws|
    ensures |r| == |raws|
    ensures forall i :: 0 <= i < |raws| ==> r[i] == TransformPNode(raws[i], accounts[i].pubkey, f32)
  {
    seq(|raws|, i requires 0 <= i < |raws| => TransformPNode(raws[i], accounts[i].pubkey, f32))
  }
}
