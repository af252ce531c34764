/**
 * The account ingest of `useFetchPnodes` (src/hooks/useFetchPnodes.ts): decode
 * every account, then turn the decoded records into nodes.
 *
 * As written, the records that decoded are paired with the accounts by
 * position, but `decodePNodeAccounts` drops the accounts that fail. Once one
 * account before a record fails, that record is paired with another account's
 * key, and its identity and peer id fallbacks name the wrong node. `Ingest`
 * pairs each record with the account it came from.
 */
module FetchPnodes {
  import opened Common
  import opened Node
  import opened Decoder
  import opened PNodeTransform

  /** The ingest as written: the decoded records, paired with the accounts by position. */
  function IngestAsWritten(accounts: seq<Account>, f32: seq<Byte> -> real): (r: seq<PNode>)
    ensures |r| == |DecodeAccounts(accounts)|
  {
    TransformPNodes(DecodeAccounts(accounts), accounts, f32)
  }

  /** An account whose data holds nothing decodable. */
  const Blank: AccountData := NoData

  /** A parsed account with every field missing. */
  const EmptyFields: ParsedObject := ParsedObject(None, Undefined, Undefined, Undefined, Undefined, Undefined,
    Undefined, Undefined, Undefined, None, None, Undefined)

  /**
   * Account A decodes to nothing and account B to a record without identity. The
   * one node produced is B's record, but named after A's key.
   */
  lemma MisalignedFallback(f32: seq<Byte> -> real)
    ensures var accounts := [Account("AAAAAAAAAAAA", Blank), Account("BBBBBBBBBBBB", Record(Fields(EmptyFields)))];
      var nodes := IngestAsWritten(accounts, f32);
      |nodes| == 1 && nodes[0].identity == "pNode-AAAAAAAA" && nodes[0].peerId == "AAAAAAAAAAAA"
  {
    var accounts := [Account("AAAAAAAAAAAA", Blank), Account("BBBBBBBBBBBB", Record(Fields(EmptyFields)))];
    EmptyObjectDefaults();
    var raw := RawRecord("", 0.0, Plain(0.0), Plain(0.0), Plain(0.0), 0, 0, 0, 0, "", "", 0);
    assert DecodeAccount(accounts[0]) == None;
    assert DecodeAccount(accounts[1]) == Some(raw);
    assert accounts[..1] == [accounts[0]];
    assert DecodeAccounts(accounts[..1]) == [] by {
      assert accounts[..1][..0] == [];
    }
    assert DecodeAccounts(accounts) == [raw];
    assert "AAAAAAAAAAAA"[..8] == "AAAAAAAA";
  }

  /** The ingest with each record paired with the account it was decoded from. */
  function Ingest(accounts: seq<Account>, f32: seq<Byte> -> real): (r: seq<PNode>)
    ensures |r| == |DecodedIndices(accounts)|
    ensures forall k :: 0 <= k < |r| ==>
      var i := DecodedIndices(accounts)[k];
      r[k] == TransformPNode(DecodeAccount(accounts[i]).value, accounts[i].pubkey, f32)
  {
    if |accounts| == 0 then []
    else
      var n := |accounts| - 1;
      var front := Ingest(accounts[..n], f32);
      assert forall i :: 0 <= i < n ==> accounts[..n][i] == accounts[i];
      match DecodeAccount(accounts[n])
      case Some(raw) => front + [TransformPNode(raw, accounts[n].pubkey, f32)]
      case None => front
  }

  /** The corrected ingest yields one node per decoded record, each built from that record. */
  lemma IngestMatchesDecode(accounts: seq<Account>, f32: seq<Byte> -> real)
    ensures |Ingest(accounts, f32)| == |DecodeAccounts(accounts)|
    ensures forall k :: 0 <= k < |DecodeAccounts(accounts)| ==>
      Ingest(accounts, f32)[k] == TransformPNode(DecodeAccounts(accounts)[k], accounts[DecodedIndices(accounts)[k]].pubkey, f32)
  {
  }

  /** The two agree whenever every account decodes, which is why the slip only shows with failures. */
  lemma AgreeWhenAllDecode(accounts: seq<Account>, f32: seq<Byte> -> real)
    requires forall i :: 0 <= i < |accounts| ==> DecodeAccount(accounts[i]).Some?
    ensures IngestAsWritten(accounts, f32) == Ingest(accounts, f32)
  {
    var idx := DecodedIndices(accounts);
    DecodedIndicesComplete(accounts);
    IndicesAreAll(idx, |accounts|);
    var written, fixed := IngestAsWritten(accounts, f32), Ingest(accounts, f32);
    assert |written| == |idx| == |fixed|;
    forall i | 0 <= i < |idx|
      ensures written[i] == fixed[i]
    {
      assert idx[i] == i;
      AgreeAt(accounts, f32, i);
    }
    assert written == fixed;
  }

  /** Position `i` of both, when the `i`-th decoded record is account `i`'s. */
  lemma AgreeAt(accounts: seq<Account>, f32: seq<Byte> -> real, i: nat)
    requires i < |DecodedIndices(accounts)| && DecodedIndices(accounts)[i] == i
    ensures i < |IngestAsWritten(accounts, f32)| && i < |Ingest(accounts, f32)|
    ensures IngestAsWritten(accounts, f32)[i] == Ingest(accounts, f32)[i]
  {
    var raws := DecodeAccounts(accounts);
    assert Some(raws[i]) == DecodeAccount(accounts[i]);
  }

  /** In the corrected ingest a made-up identity always carries the key of the record's own account. */
  lemma FallbackUsesOwnKey(accounts: seq<Account>, f32: seq<Byte> -> real, k: nat)
    requires k < |Ingest(accounts, f32)|
    requires DecodeAccounts(accounts)[k].identity == ""
    ensures Ingest(accounts, f32)[k].identity == FallbackIdentity(accounts[DecodedIndices(accounts)[k]].pubkey)
    ensures Some(DecodeAccounts(accounts)[k]) == DecodeAccount(accounts[DecodedIndices(accounts)[k]])
  {
    IngestMatchesDecode(accounts, f32);
  }
}
