# Hall of heroes: the hero record store

A model of the record store at the heart of the `hall_of_hero` Solana
program (`programs/program-anchor/src/lib.rs`). The program keeps one record
per hero (`NFTRecord`: hero id, content URI, owning NFT mint key, last sale
price, listed price) in a repository account. The account's data is cut into
250-byte slots, and slot `h` holds the Borsh encoding of hero `h`'s record at
its front. Three instructions read and rewrite one slot each:

- `add_record` registers a hero;
- `update_record` relists a hero at a new price and URI;
- `buy_record` moves the hero to a new mint against a SOL payment.

Modules, one per component:

- `Types` (`types.dfy`) holds the Rust widths (`u8`, `u64`), `Pubkey`, `NftRecord`, `NFT_COUNT`, `NFT_RECORD_SIZE`, `ProgramError`, and panics as `Abort`.
- `LittleEndian` (`little_endian.dfy`) holds the `u32`/`u64` little-endian byte strings Borsh uses.
- `BorshRecord` (`borsh_record.dfy`) holds `Encode` and `Decode` for `NFTRecord`. `Decode` is a chain of cursor reads that ignores trailing bytes.
- `Repository` (`repository.dfy`) covers slot addressing and the save (`SaveEffect`, the specification; `RepositoryAccount.Save`, the in-place loop over an `array<u8>`). It also holds the checked read `GetRecord`.
- `HallOfHero` (`hall_of_hero.dfy`) holds the three instructions. Each is a function on the account bytes (`Add`, `Update`, `Buy`) and a method on a `RepositoryAccount` (`AddRecord`, `UpdateRecord`, `BuyRecord`) proved equal to that function.

Failures keep the distinctions the code makes:

- `Err(e)` is a `ProgramError` returned through `?`. Borsh I/O errors become `BorshIoError`.
- `Abort(SliceOutOfRange)` is the panic of a slice index past the end of the account data.
- `Abort(UnwrapOnErr(e))` is the panic of `.unwrap()` on an `Err`.

The token transfer and the SOL transfer are recorded as `Event`s. The SOL transfer's success is an input of `Buy`.

Behaviour of the code that is easy to miss, modelled as written:

- A slot that was never written (all zero bytes) decodes successfully, to hero 0 with an empty URI, the all-zero key and zero prices. It does not fail to deserialize (`ZeroSlotDecodes`, `ZeroedAccountUpdate`).
- There is no slot-range check against `NFT_COUNT`. A hero id fails only when its slot runs past the end of the account, and then by a panic, not a returned error (`AddIgnoresCatalogSize`, `GetRecordReadsSlotOnly`).
- A record too long for its slot is not rejected before writing. Borsh writes the first 250 bytes of its encoding and then returns an I/O error (`SaveEffect`, `SaveStatus`, `SaveConfined`).
- An ownership mismatch is `InvalidAccountData`, and `update_record` and `buy_record` turn it into a panic through `.unwrap()`.
- `buy_record` requests the token transfer before the ownership check and discards its result.
- `update_record` and `buy_record` both save to the slot named by the stored record's `hero_id`, not by their argument, because the save picks its slot from the record (`UpdateWritesStoredSlot`, `BuyStoredSlotOutOfRange`).

## Model

| member | source | states |
|---|---|---|
| LittleEndian.FromLe | programs/program-anchor/src/lib.rs:19-20 | a little-endian byte string's value always fits its width (< 256^n) |
| LittleEndian.FromToLe | programs/program-anchor/src/lib.rs:19-20 | reading back the n bytes written for a value below 256^n gives the value |
| LittleEndian.ToFromLe | programs/program-anchor/src/lib.rs:19-20 | every byte string is the n-byte encoding of its own value (the integer format is canonical) |
| BorshRecord.Encode | programs/program-anchor/src/lib.rs:14-21 | the Borsh encoding of a record is 53 bytes plus the URI's length |
| BorshRecord.ReadString | programs/program-anchor/src/lib.rs:17 | a string read off the front of a slice leaves a remainder that, behind the string's encoding, is the slice |
| BorshRecord.ReadStringEncode | programs/program-anchor/src/lib.rs:17 | reading a string's encoding gives back the string and exactly the bytes after it |
| BorshRecord.Decode | programs/program-anchor/src/lib.rs:176 | whatever decodes consumed at most the slice and exactly the encoding of the decoded record |
| BorshRecord.DecodeEncode | programs/program-anchor/src/lib.rs:176 | decoding an encoding followed by any bytes gives the record and consumes exactly the encoding |
| BorshRecord.ZeroSlotDecodes | programs/program-anchor/src/lib.rs:176 | an all-zero slot decodes to hero 0, empty URI, all-zero key, prices 0, consuming 53 bytes |
| Repository.SlotStart | programs/program-anchor/src/lib.rs:173 | definition of a slot's first byte, `hero_id * 250`; the offset is a whole number of slots and gives back the hero id (slot id = offset / width) |
| Repository.SlotEnd | programs/program-anchor/src/lib.rs:174 | definition of one past a slot's last byte; the slot is exactly 250 bytes wide and no `u8` hero id takes it past 256 slots, so the offset arithmetic cannot overflow |
| Repository.SlotsDisjoint | programs/program-anchor/src/lib.rs:173-174 | the byte ranges [h*250, h*250+250) of distinct heroes share no byte |
| Repository.SlotBytes | programs/program-anchor/src/lib.rs:173-176 | a slot is the 250 bytes starting at hero_id*250 |
| Repository.Overwrite | programs/program-anchor/src/lib.rs:192 | a write puts the bytes at the offset and keeps every other byte and the length |
| Repository.WriteLength | programs/program-anchor/src/lib.rs:192 | a save writes at most 250 bytes and at most the encoding, all of it exactly when the URI fits |
| Repository.SaveEffect | programs/program-anchor/src/lib.rs:186-194 | definition of the save: bytes and status after `save_nft_data_to_repository`; its contract keeps the account's length and limits the status to success, a Borsh I/O error or a slice panic; SaveStatus, SaveConfined, SaveIsolatesSlots and SaveThenDecode carry its properties |
| Repository.SaveStatus | programs/program-anchor/src/lib.rs:186-194 | a save succeeds iff the slot is inside the account and the encoding fits it; panics iff the slot is outside; otherwise a Borsh I/O error |
| Repository.SaveConfined | programs/program-anchor/src/lib.rs:186-194 | a save keeps the length, changes only [h*250, h*250+WriteLength) for h the record's own hero_id, and nothing when the slot is outside |
| Repository.SaveIsolatesSlots | programs/program-anchor/src/lib.rs:190-192 | a save leaves every other hero's slot byte for byte unchanged |
| Repository.SaveThenDecode | programs/program-anchor/src/lib.rs:192 | after a successful save the record's slot decodes to the record, whatever stale bytes follow |
| Repository.GetRecord | programs/program-anchor/src/lib.rs:167-183 | a record is returned only if it decodes from the caller's slot and its key equals both the presented and the mint key; failures are a slice panic, a Borsh error or InvalidAccountData; an in-bounds slot that does not decode gives the Borsh error |
| Repository.GetRecordGate | programs/program-anchor/src/lib.rs:178-182 | for a slot that decodes, the read returns the stored record iff both keys equal its key_nft, and InvalidAccountData otherwise |
| Repository.GetRecordReadsSlotOnly | programs/program-anchor/src/lib.rs:173-176 | a read panics when the slot runs past the account and otherwise depends only on the slot's 250 bytes |
| Repository.GetRecordAfterSave | programs/program-anchor/src/lib.rs:167-194 | after a successful save of r, a read of r's slot returns r to r's key and rejects every other key |
| Repository.RepositoryAccount.Save | programs/program-anchor/src/lib.rs:186-194 | the in-place write leaves exactly the save's bytes and status, and no byte outside the written range changes |
| HallOfHero.Add | programs/program-anchor/src/lib.rs:31-46 | definition of `add_record` on the account bytes; it keeps the account's length and makes no external call; AddStoresRecord and AddIgnoresCatalogSize carry its properties |
| HallOfHero.Update | programs/program-anchor/src/lib.rs:48-69 | definition of `update_record` on the account bytes; it keeps the length, makes no external call, and a failed checked read panics without writing; UpdateChangesListingOnly, UpdateRejectsForeignKey and UpdateWritesStoredSlot carry its properties |
| HallOfHero.Buy | programs/program-anchor/src/lib.rs:71-103 | definition of `buy_record` on the account bytes; it keeps the length, always requests the NFT transfer first and at most one other call, and succeeds only with the payment requested and made; BuySettles, BuyStoredSlotOutOfRange, BuyRejectsStaleKey and BuyPaysListedPrice carry its properties |
| HallOfHero.AddRecord | programs/program-anchor/src/lib.rs:31-46 | the account and status after add_record are those of Add |
| HallOfHero.UpdateRecord | programs/program-anchor/src/lib.rs:48-69 | the account and status after update_record are those of Update |
| HallOfHero.BuyRecord | programs/program-anchor/src/lib.rs:71-103 | the account, status and external calls of buy_record are those of Buy |
| HallOfHero.AddStoresRecord | programs/program-anchor/src/lib.rs:37-44 | add succeeds iff the slot is inside the account and the URI fits; the slot then reads back as {hero_id, uri, mint key, price, price}; other slots unchanged |
| HallOfHero.AddIgnoresCatalogSize | programs/program-anchor/src/lib.rs:22 | a hero id at or past NFT_COUNT is accepted when the account holds its slot |
| HallOfHero.StoredUriFits | programs/program-anchor/src/lib.rs:176 | a record that passed the checked read has a URI short enough to be saved again |
| HallOfHero.UpdateChangesListingOnly | programs/program-anchor/src/lib.rs:56-66 | after a passed read, update succeeds iff the stored slot is inside the account and the URI fits, and writes the stored record with only listed_price and content_uri replaced |
| HallOfHero.UpdateRejectsForeignKey | programs/program-anchor/src/lib.rs:56-61 | when the checked read fails, update panics, writes nothing, and a key mismatch is InvalidAccountData |
| HallOfHero.UpdateWritesStoredSlot | programs/program-anchor/src/lib.rs:56-66 | when the record in slot h names another hero, update leaves slot h unchanged |
| HallOfHero.BuySettles | programs/program-anchor/src/lib.rs:82-101 | after a passed read, and when the slot of the stored hero_id lies inside the account, that slot holds last_price := listed_price, key_nft := new mint, listed_price unchanged; calls are the NFT transfer then a payment of that listed price; success iff the payment succeeds |
| HallOfHero.BuyStoredSlotOutOfRange | programs/program-anchor/src/lib.rs:82-93 | after a passed read whose stored hero_id names a slot past the end of the account, buy panics at the save, writes nothing and requests only the NFT transfer |
| HallOfHero.BuyRejectsStaleKey | programs/program-anchor/src/lib.rs:77-87 | when the read against the outgoing mint fails, buy panics, writes nothing and requests no payment |
| HallOfHero.BuyPaysListedPrice | programs/program-anchor/src/lib.rs:89-101 | a payment is requested only after a passed read and a successful save, for exactly the listed price read |
| HallOfHero.ExchangeScenario | programs/program-anchor/src/lib.rs:31-103 | add hero 3 at 100, relist at 150, sell: the buyer's mint owns it at 150/150, the payment is 150, and the seller's mint cannot sell it again |
| HallOfHero.ZeroedAccountUpdate | programs/program-anchor/src/lib.rs:56-66 | on an all-zero account, update of hero 7 under the all-zero key succeeds, leaves slot 7 alone and writes hero 0's slot |

## Left out

- The Anchor account structs and their `signer`/`mut` constraints (lib.rs:106-150), `declare_id!` and the `Context` plumbing are framework wiring. Each instruction takes the keys it uses as plain arguments.
- The SPL token transfer (`token::transfer`, `into_transfer_nft_context`) is a foreign call. It is recorded as the event `TokenTransfer(1)` with no outcome, since the program discards its result. What the runtime does when the transfer fails is not modelled.
- The System Program transfer (`sol_transfer`) is a foreign call. It is the event `SolTransfer(amount)`, and its success is an input of `Buy`; a failure is `Err(ExternalCallFailed)`.
- Transaction rollback by the Solana runtime is not modelled. A failed instruction returns its failure, and the account bytes are what the code left, including the partial write of an oversized record.
- `msg!` logging is left out.
- Unused items are left out: the `CloseAccount`, `SetAuthority` and `AuthorityType` imports, `REPO_ACCOUNT_SEED`, the `dead_uri` and `dead_name` parameters, and the `associated_token_account` account of `UpdateRecord`.
- BorshRecord.Decode: does not check that `content_uri` is valid UTF-8, as Borsh's `String` decoding does. The URI is an opaque byte string, so `Decode` accepts some slots the program would reject.
- BorshRecord.Encode: strings of 2^32 bytes or more, which Borsh refuses to serialize, are excluded by the `Uri` type rather than modelled as an error. Such strings cannot arise within a Solana instruction.
- Bytes are the integers 0..255 (`u8`), as in Rust, not bit-vectors.
