/** The Borsh layout of `NFTRecord`, fields in declaration order:
    `hero_id` as one byte, `content_uri` as a `u32` little-endian length
    followed by its bytes, `key_nft` as 32 raw bytes, then `last_price`
    and `listed_price` as `u64` little-endian. Decoding reads from the
    front of a byte slice, advancing past what it has read. */
module BorshRecord {
  import opened Types
  import opened LittleEndian

  /** Bytes of an encoding besides the URI: 1 + 4 + 32 + 8 + 8. */
  const FIXED_BYTES: nat := 53

  /** The longest URI whose record still fits one slot. */
  const MAX_URI_BYTES: nat := NFT_RECORD_SIZE - FIXED_BYTES

  /** A Borsh `String`: `u32` length, then the bytes. */
  function EncodeString(u: Uri): (e: seq<u8>)
    ensures |e| == 4 + |u|
  {
    ToLe(|u|, 4) + u
  }

  /** `NFTRecord::serialize`: the bytes written for a record. */
  function Encode(r: NftRecord): (e: seq<u8>)
    ensures |e| == FIXED_BYTES + |r.contentUri|
  {
    [r.heroId] + EncodeString(r.contentUri) + r.keyNft
      + ToLe(r.lastPrice, 8) + ToLe(r.listedPrice, 8)
  }

  /** An encoding followed by other bytes, field by field from the front. */
  lemma EncodeThenRest(r: NftRecord, rest: seq<u8>)
    ensures Encode(r) + rest
         == [r.heroId] + (EncodeString(r.contentUri) + (r.keyNft
              + (ToLe(r.lastPrice, 8) + (ToLe(r.listedPrice, 8) + rest))))
  {
  }

  /** Takes n bytes off the front, or fails when fewer remain. */
  function ReadBytes(s: seq<u8>, n: nat): (d: Option<(seq<u8>, seq<u8>)>)
    ensures d.Some? <==> n <= |s|
    ensures d.Some? ==> |d.value.0| == n && s == d.value.0 + d.value.1
  {
    if |s| < n then None else Some((s[..n], s[n..]))
  }

  function ReadU8(s: seq<u8>): (d: Option<(u8, seq<u8>)>)
    ensures d.Some? ==> s == [d.value.0] + d.value.1
  {
    var p :- ReadBytes(s, 1);
    Some((p.0[0], p.1))
  }

  function ReadU64(s: seq<u8>): (d: Option<(u64, seq<u8>)>)
    ensures d.Some? ==> s == ToLe(d.value.0, 8) + d.value.1
  {
    var p :- ReadBytes(s, 8);
    U64Bound();
    ToFromLe(p.0);
    Some((FromLe(p.0), p.1))
  }

  function ReadString(s: seq<u8>): (d: Option<(Uri, seq<u8>)>)
    ensures d.Some? ==> s == EncodeString(d.value.0) + d.value.1
  {
    var len :- ReadBytes(s, 4);
    U32Bound();
    ToFromLe(len.0);
    var bytes :- ReadBytes(len.1, FromLe(len.0));
    Some((bytes.0, bytes.1))
  }

  /** `NFTRecord::deserialize` on a byte slice: reads one record from the
      front of `s` and reports how many bytes it consumed; the bytes after
      the record are ignored. Fails when `s` ends before the record does.
      Whatever decodes is exactly the encoding of the record it decodes to,
      so no two byte strings decode to the same record with the same length. */
  function Decode(s: seq<u8>): (d: Option<(NftRecord, nat)>)
    ensures d.Some? ==> d.value.1 <= |s| && s[..d.value.1] == Encode(d.value.0)
  {
    var id :- ReadU8(s);
    var uri :- ReadString(id.1);
    var key :- ReadBytes(uri.1, 32);
    var last :- ReadU64(key.1);
    var listed :- ReadU64(last.1);
    var r := NftRecord(id.0, uri.0, key.0, last.0, listed.0);
    EncodeThenRest(r, listed.1);
    assert s[..|s| - |listed.1|] == Encode(r) by {
      assert s == Encode(r) + listed.1;
    }
    Some((r, |s| - |listed.1|))
  }

  lemma ReadBytesPrefix(p: seq<u8>, rest: seq<u8>)
    ensures ReadBytes(p + rest, |p|) == Some((p, rest))
  {
    assert (p + rest)[..|p|] == p;
    assert (p + rest)[|p|..] == rest;
  }

  lemma ReadU8Encode(b: u8, rest: seq<u8>)
    ensures ReadU8([b] + rest) == Some((b, rest))
  {
    ReadBytesPrefix([b], rest);
  }

  lemma ReadU64Encode(x: u64, rest: seq<u8>)
    ensures ReadU64(ToLe(x, 8) + rest) == Some((x, rest))
  {
    ReadBytesPrefix(ToLe(x, 8), rest);
    U64Bound();
    FromToLe(x, 8);
  }

  lemma ReadStringEncode(u: Uri, rest: seq<u8>)
    ensures ReadString(EncodeString(u) + rest) == Some((u, rest))
  {
    U32Bound();
    var len := ToLe(|u|, 4);
    assert EncodeString(u) + rest == len + (u + rest);
    ReadBytesPrefix(len, u + rest);
    FromToLe(|u|, 4);
    ReadBytesPrefix(u, rest);
  }

  /** Round trip: decoding an encoding gives the record back and consumes
      exactly the encoding, whatever bytes follow it. */
  lemma DecodeEncode(r: NftRecord, rest: seq<u8>)
    ensures Decode(Encode(r) + rest) == Some((r, |Encode(r)|))
  {
    var t4 := ToLe(r.listedPrice, 8) + rest;
    var t3 := ToLe(r.lastPrice, 8) + t4;
    var t2 := r.keyNft + t3;
    var t1 := EncodeString(r.contentUri) + t2;
    EncodeThenRest(r, rest);
    ReadU8Encode(r.heroId, t1);
    ReadStringEncode(r.contentUri, t2);
    ReadBytesPrefix(r.keyNft, t3);
    ReadU64Encode(r.lastPrice, t4);
    ReadU64Encode(r.listedPrice, rest);
  }

  /** A slot that was never written (all zero) still decodes: to hero 0 with
      an empty URI, the all-zero key and zero prices. */
  lemma ZeroSlotDecodes()
    ensures Decode(seq(NFT_RECORD_SIZE, _ => 0))
         == Some((NftRecord(0, [], seq(32, _ => 0), 0, 0), FIXED_BYTES))
  {
    var zero := NftRecord(0, [], seq(32, _ => 0), 0, 0);
    U64Bound();
    assert ToLe(0, 4) == [0, 0, 0, 0];
    assert ToLe(0, 8) == [0, 0, 0, 0, 0, 0, 0, 0];
    assert seq(NFT_RECORD_SIZE, _ => 0) == Encode(zero) + seq(NFT_RECORD_SIZE - FIXED_BYTES, _ => 0);
    DecodeEncode(zero, seq(NFT_RECORD_SIZE - FIXED_BYTES, _ => 0));
  }
}
