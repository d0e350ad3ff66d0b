/** The program's three instructions, `add_record`, `update_record` and
    `buy_record`, as read-modify-write sequences on one slot of the
    repository account. The token and SOL transfers they request are
    recorded as events; the SOL transfer's outcome is supplied by the
    caller of the model. */
module HallOfHero {
  import opened Types
  import opened BorshRecord
  import opened Repository

  /** An external call, in the order the instruction makes it. */
  datatype Event =
    | TokenTransfer(amount: nat)   // SPL `token::transfer` of the hero NFT to the buyer
    | SolTransfer(lamports: u64)   // System Program transfer from buyer to previous owner

  /** The repository bytes, the instruction's outcome and the calls it made. */
  datatype Step = Step(buf: seq<u8>, status: Status, events: seq<Event>)

  /** `add_record`: stores a fresh record for `heroId` owned by the mint's
      key at `price`, without looking at what the slot held before. */
  function Add(buf: seq<u8>, heroId: u8, uri: Uri, price: u64, mintKey: Pubkey): (st: Step)
    ensures |st.buf| == |buf| && st.events == []
  {
    var w := SaveEffect(buf, NftRecord(heroId, uri, mintKey, price, price));
    Step(w.buf, w.status, [])
  }

  /** `update_record`: a checked read of slot `heroId` against the mint key
      (a failure panics at `.unwrap()`), a new listed price and URI, and a
      save to the slot named by the stored record's own `hero_id`. */
  function Update(buf: seq<u8>, heroId: u8, uri: Uri, newPrice: u64, mintKey: Pubkey): (st: Step)
    ensures |st.buf| == |buf| && st.events == []
    ensures !GetRecord(buf, heroId, mintKey, mintKey).Ok? ==> st.buf == buf && st.status.Abort?
  {
    match GetRecord(buf, heroId, mintKey, mintKey)
    case Ok(stored) =>
      var w := SaveEffect(buf, stored.(listedPrice := newPrice, contentUri := uri));
      Step(w.buf, w.status, [])
    case Err(e) => Step(buf, Abort(UnwrapOnErr(e)), [])
    case Abort(p) => Step(buf, Abort(p), [])
  }

  /** `buy_record`: requests the NFT transfer (its result is discarded), reads
      slot `heroId` checked against the outgoing mint (a failure panics at
      `.unwrap()`), settles at the listed price, hands the record to the new
      mint, saves it, and only then requests the SOL payment. */
  function Buy(buf: seq<u8>, heroId: u8, deadMint: Pubkey, newMint: Pubkey, solTransferOk: bool): (st: Step)
    ensures |st.buf| == |buf|
    ensures 1 <= |st.events| <= 2 && st.events[0] == TokenTransfer(1)
    ensures st.status.Ok? ==> solTransferOk && |st.events| == 2
  {
    var transfer := [TokenTransfer(1)];
    match GetRecord(buf, heroId, deadMint, deadMint)
    case Ok(stored) =>
      var sold := stored.(lastPrice := stored.listedPrice, keyNft := newMint);
      var w := SaveEffect(buf, sold);
      if !w.status.Ok? then Step(w.buf, w.status, transfer)
      else
        Step(w.buf, if solTransferOk then Ok(()) else Err(ExternalCallFailed),
             transfer + [SolTransfer(sold.listedPrice)])
    case Err(e) => Step(buf, Abort(UnwrapOnErr(e)), transfer)
    case Abort(p) => Step(buf, Abort(p), transfer)
  }

  /** `add_record` on the repository account. */
  method AddRecord(repo: RepositoryAccount, heroId: u8, uri: Uri, price: u64, mintKey: Pubkey)
    returns (status: Status)
    modifies repo.data
    ensures repo.data[..] == Add(old(repo.data[..]), heroId, uri, price, mintKey).buf
    ensures status == Add(old(repo.data[..]), heroId, uri, price, mintKey).status
  {
    var newRecord := NftRecord(heroId, uri, mintKey, price, price);
    status := repo.Save(newRecord);
  }

  /** `update_record` on the repository account. */
  method UpdateRecord(repo: RepositoryAccount, heroId: u8, uri: Uri, newPrice: u64, mintKey: Pubkey)
    returns (status: Status)
    modifies repo.data
    ensures repo.data[..] == Update(old(repo.data[..]), heroId, uri, newPrice, mintKey).buf
    ensures status == Update(old(repo.data[..]), heroId, uri, newPrice, mintKey).status
  {
    var read := GetRecord(repo.data[..], heroId, mintKey, mintKey);
    if read.Err? {
      return Abort(UnwrapOnErr(read.error));
    } else if read.Abort? {
      return Abort(read.panic);
    }
    var nftRecord := read.value;
    nftRecord := nftRecord.(listedPrice := newPrice);
    nftRecord := nftRecord.(contentUri := uri);
    status := repo.Save(nftRecord);
  }

  /** `buy_record` on the repository account; also returns the external
      calls requested. */
  method BuyRecord(repo: RepositoryAccount, heroId: u8, deadMint: Pubkey, newMint: Pubkey, solTransferOk: bool)
    returns (status: Status, events: seq<Event>)
    modifies repo.data
    ensures repo.data[..] == Buy(old(repo.data[..]), heroId, deadMint, newMint, solTransferOk).buf
    ensures status == Buy(old(repo.data[..]), heroId, deadMint, newMint, solTransferOk).status
    ensures events == Buy(old(repo.data[..]), heroId, deadMint, newMint, solTransferOk).events
  {
    events := [TokenTransfer(1)];
    var read := GetRecord(repo.data[..], heroId, deadMint, deadMint);
    if read.Err? {
      return Abort(UnwrapOnErr(read.error)), events;
    } else if read.Abort? {
      return Abort(read.panic), events;
    }
    var nftRecord := read.value;
    nftRecord := nftRecord.(lastPrice := nftRecord.listedPrice);
    nftRecord := nftRecord.(keyNft := newMint);
    status := repo.Save(nftRecord);
    if !status.Ok? {
      return;
    }
    events := events + [SolTransfer(nftRecord.listedPrice)];
    status := if solTransferOk then Ok(()) else Err(ExternalCallFailed);
  }

  /** `add_record` performs no validation: it succeeds exactly when the
      slot lies in the buffer and the URI fits, and then the slot holds
      `{heroId, uri, mintKey, price, price}`, readable by the mint's key,
      with every other slot unchanged. */
  lemma AddStoresRecord(buf: seq<u8>, heroId: u8, uri: Uri, price: u64, mintKey: Pubkey, other: u8)
    ensures Add(buf, heroId, uri, price, mintKey).status.Ok?
        <==> SlotInBounds(|buf|, heroId) && |uri| <= MAX_URI_BYTES
    ensures Add(buf, heroId, uri, price, mintKey).status.Ok?
        ==> GetRecord(Add(buf, heroId, uri, price, mintKey).buf, heroId, mintKey, mintKey)
            == Ok(NftRecord(heroId, uri, mintKey, price, price))
    ensures other != heroId && SlotInBounds(|buf|, other)
        ==> SlotBytes(Add(buf, heroId, uri, price, mintKey).buf, other) == SlotBytes(buf, other)
  {
    var r := NftRecord(heroId, uri, mintKey, price, price);
    SaveStatus(buf, r);
    if SaveEffect(buf, r).status.Ok? {
      GetRecordAfterSave(buf, r, mintKey, mintKey);
    }
    if other != heroId && SlotInBounds(|buf|, other) {
      SaveIsolatesSlots(buf, r, other);
    }
  }

  /** `NFT_COUNT` is never consulted: a hero id past the catalogue is
      accepted whenever the account is large enough to hold its slot. */
  lemma AddIgnoresCatalogSize(buf: seq<u8>, heroId: u8, uri: Uri, price: u64, mintKey: Pubkey)
    requires NFT_COUNT <= heroId
    requires SlotInBounds(|buf|, heroId) && |uri| <= MAX_URI_BYTES
    ensures Add(buf, heroId, uri, price, mintKey).status == Ok(())
  {
    SaveStatus(buf, NftRecord(heroId, uri, mintKey, price, price));
  }

  /** The URI of a record that passes the checked read is at most
      `MAX_URI_BYTES` long, because the record was decoded from one slot; so
      the record can be saved again unchanged. */
  lemma StoredUriFits(buf: seq<u8>, heroId: u8, key: Pubkey, mintKey: Pubkey)
    requires GetRecord(buf, heroId, key, mintKey).Ok?
    ensures |GetRecord(buf, heroId, key, mintKey).value.contentUri| <= MAX_URI_BYTES
  {
  }

  /** `update_record` by the holder of the mint changes only the listed
      price and the URI: `hero_id`, `key_nft` and `last_price` keep their
      stored values, and the result is written to the slot of the stored
      `hero_id`. */
  lemma UpdateChangesListingOnly(buf: seq<u8>, heroId: u8, uri: Uri, newPrice: u64, mintKey: Pubkey)
    requires GetRecord(buf, heroId, mintKey, mintKey).Ok?
    ensures var stored := GetRecord(buf, heroId, mintKey, mintKey).value;
      var s := Update(buf, heroId, uri, newPrice, mintKey);
      && (s.status.Ok? <==> SlotInBounds(|buf|, stored.heroId) && |uri| <= MAX_URI_BYTES)
      && (s.status.Ok? ==>
            GetRecord(s.buf, stored.heroId, mintKey, mintKey)
            == Ok(NftRecord(stored.heroId, uri, stored.keyNft, stored.lastPrice, newPrice)))
  {
    var stored := GetRecord(buf, heroId, mintKey, mintKey).value;
    var updated := stored.(listedPrice := newPrice, contentUri := uri);
    SaveStatus(buf, updated);
    if SaveEffect(buf, updated).status.Ok? {
      GetRecordAfterSave(buf, updated, mintKey, mintKey);
    }
  }

  /** Ownership gating: when the checked read fails, `update_record` panics
      at `.unwrap()` with that error (`InvalidAccountData` for a key that does
      not hold the slot) and writes nothing. */
  lemma UpdateRejectsForeignKey(buf: seq<u8>, heroId: u8, uri: Uri, newPrice: u64, mintKey: Pubkey)
    requires !GetRecord(buf, heroId, mintKey, mintKey).Ok?
    ensures Update(buf, heroId, uri, newPrice, mintKey).buf == buf
    ensures Update(buf, heroId, uri, newPrice, mintKey).status.Abort?
    ensures SlotInBounds(|buf|, heroId) && Decode(SlotBytes(buf, heroId)).Some?
        ==> Update(buf, heroId, uri, newPrice, mintKey).status == Abort(UnwrapOnErr(InvalidAccountData))
  {
    if SlotInBounds(|buf|, heroId) && Decode(SlotBytes(buf, heroId)).Some? {
      GetRecordGate(buf, heroId, mintKey, mintKey);
    }
  }

  /** The slot that `update_record` reads is not necessarily the slot it
      writes: when the record found in slot `heroId` names another hero,
      slot `heroId` itself is left as it was. */
  lemma UpdateWritesStoredSlot(buf: seq<u8>, heroId: u8, uri: Uri, newPrice: u64, mintKey: Pubkey)
    requires GetRecord(buf, heroId, mintKey, mintKey).Ok?
    requires GetRecord(buf, heroId, mintKey, mintKey).value.heroId != heroId
    ensures SlotBytes(Update(buf, heroId, uri, newPrice, mintKey).buf, heroId) == SlotBytes(buf, heroId)
  {
    var stored := GetRecord(buf, heroId, mintKey, mintKey).value;
    SaveIsolatesSlots(buf, stored.(listedPrice := newPrice, contentUri := uri), heroId);
  }

  /** A successful checked read lets `buy_record` settle: the slot of the
      stored `hero_id` then holds the record with `last_price` set to the
      listed price read, `key_nft` set to the new mint and `listed_price`
      unchanged; the calls made are the NFT transfer followed by a payment
      of exactly that listed price; the instruction succeeds exactly when
      the payment does. */
  lemma BuySettles(buf: seq<u8>, heroId: u8, deadMint: Pubkey, newMint: Pubkey, solTransferOk: bool)
    requires GetRecord(buf, heroId, deadMint, deadMint).Ok?
    requires SlotInBounds(|buf|, GetRecord(buf, heroId, deadMint, deadMint).value.heroId)
    ensures var stored := GetRecord(buf, heroId, deadMint, deadMint).value;
      var s := Buy(buf, heroId, deadMint, newMint, solTransferOk);
      && GetRecord(s.buf, stored.heroId, newMint, newMint)
         == Ok(NftRecord(stored.heroId, stored.contentUri, newMint, stored.listedPrice, stored.listedPrice))
      && s.events == [TokenTransfer(1), SolTransfer(stored.listedPrice)]
      && (s.status.Ok? <==> solTransferOk)
  {
    var stored := GetRecord(buf, heroId, deadMint, deadMint).value;
    var sold := stored.(lastPrice := stored.listedPrice, keyNft := newMint);
    SaveStatus(buf, sold);
    GetRecordAfterSave(buf, sold, newMint, newMint);
  }

  /** `buy_record`, like `update_record`, saves to the slot of the stored
      `hero_id`. When that slot runs past the end of the account, the save
      panics after the checked read has passed: nothing is written and no
      payment is requested. */
  lemma BuyStoredSlotOutOfRange(buf: seq<u8>, heroId: u8, deadMint: Pubkey, newMint: Pubkey, solTransferOk: bool)
    requires GetRecord(buf, heroId, deadMint, deadMint).Ok?
    requires !SlotInBounds(|buf|, GetRecord(buf, heroId, deadMint, deadMint).value.heroId)
    ensures Buy(buf, heroId, deadMint, newMint, solTransferOk)
         == Step(buf, Abort(SliceOutOfRange), [TokenTransfer(1)])
  {
    var stored := GetRecord(buf, heroId, deadMint, deadMint).value;
    SaveStatus(buf, stored.(lastPrice := stored.listedPrice, keyNft := newMint));
    SaveConfined(buf, stored.(lastPrice := stored.listedPrice, keyNft := newMint));
  }

  /** When the checked read against the outgoing mint fails, `buy_record`
      panics, writes nothing and requests no payment; only the NFT transfer,
      made before the read, has been requested. */
  lemma BuyRejectsStaleKey(buf: seq<u8>, heroId: u8, deadMint: Pubkey, newMint: Pubkey, solTransferOk: bool)
    requires !GetRecord(buf, heroId, deadMint, deadMint).Ok?
    ensures Buy(buf, heroId, deadMint, newMint, solTransferOk).buf == buf
    ensures Buy(buf, heroId, deadMint, newMint, solTransferOk).status.Abort?
    ensures Buy(buf, heroId, deadMint, newMint, solTransferOk).events == [TokenTransfer(1)]
  {
  }

  /** Whatever the inputs, a payment is requested only after a successful
      checked read and save, and it is for exactly the listed price read. */
  lemma BuyPaysListedPrice(buf: seq<u8>, heroId: u8, deadMint: Pubkey, newMint: Pubkey, solTransferOk: bool, i: nat)
    requires i < |Buy(buf, heroId, deadMint, newMint, solTransferOk).events|
    requires Buy(buf, heroId, deadMint, newMint, solTransferOk).events[i].SolTransfer?
    ensures GetRecord(buf, heroId, deadMint, deadMint).Ok?
    ensures var stored := GetRecord(buf, heroId, deadMint, deadMint).value;
      && Buy(buf, heroId, deadMint, newMint, solTransferOk).events[i] == SolTransfer(stored.listedPrice)
      && SaveEffect(buf, stored.(lastPrice := stored.listedPrice, keyNft := newMint)).status.Ok?
  {
  }

  /** Register hero 3 at 100, relist it at 150, sell it: the slot ends up
      owned by the buyer's mint with both prices 150, and the buyer pays
      exactly 150. The seller's mint can then no longer sell it again. */
  lemma ExchangeScenario(buf: seq<u8>, uri: Uri, seller: Pubkey, buyer: Pubkey, again: Pubkey)
    requires SlotInBounds(|buf|, 3) && |uri| <= MAX_URI_BYTES
    requires seller != buyer
    ensures var s1 := Add(buf, 3, uri, 100, seller);
      var s2 := Update(s1.buf, 3, uri, 150, seller);
      var s3 := Buy(s2.buf, 3, seller, buyer, true);
      && s1.status.Ok? && s2.status.Ok? && s3.status.Ok?
      && GetRecord(s3.buf, 3, buyer, buyer) == Ok(NftRecord(3, uri, buyer, 150, 150))
      && s3.events == [TokenTransfer(1), SolTransfer(150)]
      && Buy(s3.buf, 3, seller, again, true).events == [TokenTransfer(1)]
  {
    var s1 := Add(buf, 3, uri, 100, seller);
    AddStoresRecord(buf, 3, uri, 100, seller, 3);
    var s2 := Update(s1.buf, 3, uri, 150, seller);
    UpdateChangesListingOnly(s1.buf, 3, uri, 150, seller);
    var s3 := Buy(s2.buf, 3, seller, buyer, true);
    BuySettles(s2.buf, 3, seller, buyer, true);
    BuyRejectsStaleKey(s3.buf, 3, seller, again, true);
  }

  /** On an account that was never written, slot 7 decodes to a record of
      hero 0 owned by the all-zero key, so `update_record` for hero 7 under
      that key succeeds, leaves slot 7 as it was and writes hero 0's slot. */
  lemma ZeroedAccountUpdate(buf: seq<u8>, uri: Uri, newPrice: u64)
    requires SlotInBounds(|buf|, 7) && |uri| <= MAX_URI_BYTES
    requires forall i :: 0 <= i < |buf| ==> buf[i] == 0
    ensures var zeroKey: Pubkey := seq(32, _ => 0);
      var s := Update(buf, 7, uri, newPrice, zeroKey);
      && s.status == Ok(())
      && SlotBytes(s.buf, 7) == SlotBytes(buf, 7)
      && GetRecord(s.buf, 0, zeroKey, zeroKey) == Ok(NftRecord(0, uri, zeroKey, 0, newPrice))
  {
    var zeroKey: Pubkey := seq(32, _ => 0);
    assert SlotBytes(buf, 7) == seq(NFT_RECORD_SIZE, _ => 0);
    ZeroSlotDecodes();
    assert GetRecord(buf, 7, zeroKey, zeroKey) == Ok(NftRecord(0, [], zeroKey, 0, 0));
    UpdateChangesListingOnly(buf, 7, uri, newPrice, zeroKey);
    UpdateWritesStoredSlot(buf, 7, uri, newPrice, zeroKey);
  }
}
