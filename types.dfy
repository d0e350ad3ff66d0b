/** Value types shared by the hall-of-hero record store: the Rust integer
    widths, account keys, the stored record and the program's outcomes. */
module Types {

  /** Rust `u8`. */
  type u8 = x: int | 0 <= x < 0x100

  /** Rust `u64`. */
  type u64 = x: int | 0 <= x < 0x1_0000_0000_0000_0000

  /** A Solana `Pubkey`: 32 raw bytes. */
  type Pubkey = s: seq<u8> | |s| == 32 witness seq(32, _ => 0 as u8)

  /** The bytes of a Rust `String`; Borsh prefixes them with a `u32` length,
      so a serialisable string has fewer than 2^32 bytes. */
  type Uri = s: seq<u8> | |s| < 0x1_0000_0000

  /** Number of heroes in the catalogue (declared, never checked). */
  const NFT_COUNT: nat := 12

  /** Width in bytes of one slot of the repository account. */
  const NFT_RECORD_SIZE: nat := 250

  /** `NFTRecord`: one catalogue entry as stored in its slot. */
  datatype NftRecord = NftRecord(
    heroId: u8,
    contentUri: Uri,
    keyNft: Pubkey,
    lastPrice: u64,
    listedPrice: u64)

  datatype Option<+T> = None | Some(value: T) {
    predicate IsFailure() { None? }

    function PropagateFailure<U>(): Option<U>
      requires None?
    {
      None
    }

    function Extract(): T
      requires Some?
    {
      value
    }
  }

  /** The `ProgramError`s the core can return. `BorshIoError` is what a Borsh
      I/O failure (short input, slot too small) becomes through `?`;
      `ExternalCallFailed` is the error a failed System Program transfer
      propagates. */
  datatype ProgramError = InvalidAccountData | BorshIoError | ExternalCallFailed

  /** Rust panics: a slice index past the end of the account data, or
      `.unwrap()` applied to an `Err`. A panic aborts the instruction. */
  datatype Panic = SliceOutOfRange | UnwrapOnErr(error: ProgramError)

  /** Outcome of a fallible step: a value, a returned error, or a panic. */
  datatype Result<T> = Ok(value: T) | Err(error: ProgramError) | Abort(panic: Panic)

  type Status = Result<()>
}
