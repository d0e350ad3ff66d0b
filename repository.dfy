/** The repository account: one byte buffer cut into fixed-width slots, slot
    `h` holding the Borsh encoding of hero `h`'s record at its front. */
module Repository {
  import opened Types
  import opened BorshRecord

  /** `hero_id as usize * NFT_RECORD_SIZE`: first byte of slot h. The hero
      id is recovered from the offset, which is a whole number of slots. */
  function SlotStart(h: u8): (s: nat)
    ensures s % NFT_RECORD_SIZE == 0 && s / NFT_RECORD_SIZE == h
  {
    h * NFT_RECORD_SIZE
  }

  /** `start + NFT_RECORD_SIZE`: one past the last byte of slot h. The
      slot is one record wide, and no `u8` hero id takes the offset past
      256 slots, so the `usize` arithmetic cannot overflow. */
  function SlotEnd(h: u8): (e: nat)
    ensures e - SlotStart(h) == NFT_RECORD_SIZE
    ensures e <= 256 * NFT_RECORD_SIZE
  {
    SlotStart(h) + NFT_RECORD_SIZE
  }

  /** Slots of distinct heroes never share a byte. */
  lemma SlotsDisjoint(h: u8, g: u8, i: int)
    requires h != g
    requires SlotStart(h) <= i < SlotEnd(h)
    ensures !(SlotStart(g) <= i < SlotEnd(g))
  {
    if g < h {
      assert SlotEnd(g) <= SlotStart(h) by {
        assert SlotEnd(g) == (g + 1) * NFT_RECORD_SIZE;
      }
    } else {
      assert SlotEnd(h) <= SlotStart(g) by {
        assert SlotEnd(h) == (h + 1) * NFT_RECORD_SIZE;
      }
    }
  }

  /** The slice `[start..end]` of a buffer of `len` bytes does not panic. */
  predicate SlotInBounds(len: nat, h: u8)
  {
    SlotEnd(h) <= len
  }

  /** The bytes of slot h. */
  function SlotBytes(buf: seq<u8>, h: u8): (s: seq<u8>)
    requires SlotInBounds(|buf|, h)
    ensures |s| == NFT_RECORD_SIZE
    ensures forall i :: 0 <= i < NFT_RECORD_SIZE ==> s[i] == buf[SlotStart(h) + i]
  {
    buf[SlotStart(h)..SlotEnd(h)]
  }

  /** `buf` with `bytes` written from offset `at` on. */
  function Overwrite(buf: seq<u8>, at: nat, bytes: seq<u8>): (r: seq<u8>)
    requires at + |bytes| <= |buf|
    ensures |r| == |buf|
    ensures forall i :: 0 <= i < |buf| && !(at <= i < at + |bytes|) ==> r[i] == buf[i]
    ensures forall i :: 0 <= i < |bytes| ==> r[at + i] == bytes[i]
  {
    buf[..at] + bytes + buf[at + |bytes|..]
  }

  /** How many bytes a save of r writes: its whole encoding, or as much of it
      as the slot holds. */
  function WriteLength(r: NftRecord): (n: nat)
    ensures n <= NFT_RECORD_SIZE && n <= |Encode(r)|
    ensures n == |Encode(r)| <==> |r.contentUri| <= MAX_URI_BYTES
  {
    if |Encode(r)| <= NFT_RECORD_SIZE then |Encode(r)| else NFT_RECORD_SIZE
  }

  /** A sequence that agrees with `bytes` from `at` on and with `buf`
      elsewhere is `Overwrite(buf, at, bytes)`. */
  lemma OverwriteByPoints(a: seq<u8>, buf: seq<u8>, at: nat, bytes: seq<u8>)
    requires at + |bytes| <= |buf| == |a|
    requires forall j :: 0 <= j < |a| && !(at <= j < at + |bytes|) ==> a[j] == buf[j]
    requires forall j :: 0 <= j < |bytes| ==> a[at + j] == bytes[j]
    ensures a == Overwrite(buf, at, bytes)
  {
    var o := Overwrite(buf, at, bytes);
    forall j | 0 <= j < |a|
      ensures a[j] == o[j]
    {
      if at <= j < at + |bytes| {
        assert a[at + (j - at)] == o[at + (j - at)];
      }
    }
  }

  /** The buffer and status left by `save_nft_data_to_repository`. */
  datatype Written = Written(buf: seq<u8>, status: Status)

  /** `save_nft_data_to_repository`: the slot is chosen by the record's own
      `hero_id`; slicing past the end of the buffer panics before anything is
      written. Serializing into the 250-byte slot writes as much of the
      encoding as fits and fails with an I/O error if it does not all fit. */
  function SaveEffect(buf: seq<u8>, r: NftRecord): (w: Written)
    ensures |w.buf| == |buf|
    ensures w.status == Ok(()) || w.status == Err(BorshIoError) || w.status == Abort(SliceOutOfRange)
  {
    if !SlotInBounds(|buf|, r.heroId) then Written(buf, Abort(SliceOutOfRange))
    else
      var e := Encode(r);
      if |e| <= NFT_RECORD_SIZE then Written(Overwrite(buf, SlotStart(r.heroId), e), Ok(()))
      else Written(Overwrite(buf, SlotStart(r.heroId), e[..NFT_RECORD_SIZE]), Err(BorshIoError))
  }

  /** Inside the buffer, a save writes the first `WriteLength(r)` bytes of
      the encoding at the slot's start. */
  lemma SaveEffectInBounds(buf: seq<u8>, r: NftRecord)
    requires SlotInBounds(|buf|, r.heroId)
    ensures SaveEffect(buf, r).buf == Overwrite(buf, SlotStart(r.heroId), Encode(r)[..WriteLength(r)])
    ensures SaveEffect(buf, r).status == if WriteLength(r) == |Encode(r)| then Ok(()) else Err(BorshIoError)
  {
    assert Encode(r)[..|Encode(r)|] == Encode(r);
  }

  /** A save succeeds exactly when the slot lies inside the buffer and the
      encoding fits the slot; it panics exactly when the slot does not lie
      inside the buffer, and otherwise returns an I/O error. */
  lemma SaveStatus(buf: seq<u8>, r: NftRecord)
    ensures SaveEffect(buf, r).status.Ok?
        <==> SlotInBounds(|buf|, r.heroId) && |r.contentUri| <= MAX_URI_BYTES
    ensures SaveEffect(buf, r).status == Abort(SliceOutOfRange) <==> !SlotInBounds(|buf|, r.heroId)
    ensures SaveEffect(buf, r).status == Err(BorshIoError)
        <==> SlotInBounds(|buf|, r.heroId) && |r.contentUri| > MAX_URI_BYTES
  {
  }

  /** A save keeps the buffer's length and touches only the bytes
      `[start, start + WriteLength(r))` of the record's own slot, which is
      `[start, start + |Encode(r)|)` when the save succeeds; when the slot is
      out of range it touches nothing. */
  lemma SaveConfined(buf: seq<u8>, r: NftRecord)
    ensures |SaveEffect(buf, r).buf| == |buf|
    ensures forall i :: 0 <= i < |buf| && !(SlotStart(r.heroId) <= i < SlotStart(r.heroId) + WriteLength(r))
                 ==> SaveEffect(buf, r).buf[i] == buf[i]
    ensures !SlotInBounds(|buf|, r.heroId) ==> SaveEffect(buf, r).buf == buf
  {
  }

  /** Slot isolation: a save leaves every other slot byte for byte as it was. */
  lemma SaveIsolatesSlots(buf: seq<u8>, r: NftRecord, h: u8)
    requires h != r.heroId
    requires SlotInBounds(|buf|, h)
    ensures SlotBytes(SaveEffect(buf, r).buf, h) == SlotBytes(buf, h)
  {
    SaveConfined(buf, r);
    var after := SaveEffect(buf, r).buf;
    forall i | 0 <= i < NFT_RECORD_SIZE
      ensures SlotBytes(after, h)[i] == SlotBytes(buf, h)[i]
    {
      var j := SlotStart(h) + i;
      if SlotStart(r.heroId) <= j < SlotStart(r.heroId) + WriteLength(r) {
        SlotsDisjoint(r.heroId, h, j);
      }
    }
  }

  /** Round trip through storage: after a successful save, the record's slot
      decodes to the record, whatever stale bytes remain behind it. */
  lemma SaveThenDecode(buf: seq<u8>, r: NftRecord)
    requires SaveEffect(buf, r).status.Ok?
    ensures SlotInBounds(|SaveEffect(buf, r).buf|, r.heroId)
    ensures Decode(SlotBytes(SaveEffect(buf, r).buf, r.heroId)) == Some((r, |Encode(r)|))
  {
    var e := Encode(r);
    var after := SaveEffect(buf, r).buf;
    var slot := SlotBytes(after, r.heroId);
    assert slot == e + slot[|e|..];
    DecodeEncode(r, slot[|e|..]);
  }

  /** `get_nft_data_from_repository`: decodes the slot named by the caller's
      `hero_id` and accepts the record only when its `key_nft` equals both
      the presented key and the mint account's key. */
  function GetRecord(buf: seq<u8>, h: u8, key: Pubkey, mintKey: Pubkey): (g: Result<NftRecord>)
    ensures g.Ok? ==> g.value.keyNft == key && g.value.keyNft == mintKey
    ensures g.Ok? ==> SlotInBounds(|buf|, h) && Decode(SlotBytes(buf, h)).Some?
                      && Decode(SlotBytes(buf, h)).value.0 == g.value
    ensures !g.Ok? ==> g == Abort(SliceOutOfRange) || g == Err(BorshIoError) || g == Err(InvalidAccountData)
    ensures SlotInBounds(|buf|, h) && Decode(SlotBytes(buf, h)).None? ==> g == Err(BorshIoError)
  {
    if !SlotInBounds(|buf|, h) then Abort(SliceOutOfRange)
    else
      match Decode(SlotBytes(buf, h))
      case None => Err(BorshIoError)
      case Some((r, _)) =>
        if r.keyNft != key || r.keyNft != mintKey then Err(InvalidAccountData)
        else Ok(r)
  }

  /** Key gating, both directions: a slot that decodes to a record is
      returned exactly when both keys match its `key_nft`, and rejected with
      `InvalidAccountData` otherwise. */
  lemma GetRecordGate(buf: seq<u8>, h: u8, key: Pubkey, mintKey: Pubkey)
    requires SlotInBounds(|buf|, h) && Decode(SlotBytes(buf, h)).Some?
    ensures var stored := Decode(SlotBytes(buf, h)).value.0;
      GetRecord(buf, h, key, mintKey)
        == if stored.keyNft == key && key == mintKey then Ok(stored) else Err(InvalidAccountData)
  {
  }

  /** A checked read looks at the bytes of its slot and nothing else; when
      the slot runs past the end of the buffer it panics. */
  lemma GetRecordReadsSlotOnly(buf: seq<u8>, other: seq<u8>, h: u8, key: Pubkey, mintKey: Pubkey)
    ensures !SlotInBounds(|buf|, h) ==> GetRecord(buf, h, key, mintKey) == Abort(SliceOutOfRange)
    ensures SlotInBounds(|buf|, h) && SlotInBounds(|other|, h) && SlotBytes(buf, h) == SlotBytes(other, h)
        ==> GetRecord(buf, h, key, mintKey) == GetRecord(other, h, key, mintKey)
  {
  }

  /** A checked read after a successful save of r returns r to the holder
      of r's key, and rejects every other key. */
  lemma GetRecordAfterSave(buf: seq<u8>, r: NftRecord, key: Pubkey, mintKey: Pubkey)
    requires SaveEffect(buf, r).status.Ok?
    ensures GetRecord(SaveEffect(buf, r).buf, r.heroId, key, mintKey)
         == if key == r.keyNft && mintKey == r.keyNft then Ok(r) else Err(InvalidAccountData)
  {
    SaveThenDecode(buf, r);
  }

  /** The repository account whose data the program mutates in place. */
  class RepositoryAccount {
    var data: array<u8>

    constructor (init: seq<u8>)
      ensures fresh(data)
      ensures data[..] == init
    {
      data := new u8[|init|](i requires 0 <= i < |init| => init[i]);
    }

    /** `save_nft_data_to_repository` on this account: writes the record's
        encoding into its slot byte by byte, changing no byte outside
        `[start, start + WriteLength(r))`. */
    method Save(r: NftRecord) returns (status: Status)
      modifies data
      ensures data[..] == SaveEffect(old(data[..]), r).buf
      ensures status == SaveEffect(old(data[..]), r).status
      ensures forall i :: 0 <= i < data.Length
                 && !(SlotStart(r.heroId) <= i < SlotStart(r.heroId) + WriteLength(r))
                 ==> data[i] == old(data[i])
    {
      var start := r.heroId * NFT_RECORD_SIZE;
      var end := start + NFT_RECORD_SIZE;
      if end > data.Length {
        return Abort(SliceOutOfRange);
      }
      var e := Encode(r);
      var n := if |e| <= NFT_RECORD_SIZE then |e| else NFT_RECORD_SIZE;
      assert n == WriteLength(r);
      var i := 0;
      while i < n
        invariant 0 <= i <= n
        invariant forall j :: 0 <= j < data.Length && !(start <= j < start + i) ==> data[j] == old(data[j])
        invariant forall j :: 0 <= j < i ==> data[start + j] == e[j]
      {
        data[start + i] := e[i];
        i := i + 1;
      }
      status := if n == |e| then Ok(()) else Err(BorshIoError);
      SaveEffectInBounds(old(data[..]), r);
      OverwriteByPoints(data[..], old(data[..]), start, e[..n]);
    }
  }
}
