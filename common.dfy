/** Optional values and results, used where the decoders may produce nothing or fail. */
module Wrappers {

  datatype Option<+T> = None | Some(value: T)

  datatype Result<+T, +E> = Success(value: T) | Failure(error: E)
}

/** Octets of a captured frame and the big-endian 16-bit words read from them. */
module Bytes {

  /** One octet (`u8`). */
  type Byte = x: int | 0 <= x < 256

  /** The unsigned 16-bit word with high octet `hi` and low octet `lo` (`u16::from_be_bytes`). */
  function Be16(hi: Byte, lo: Byte): (n: nat)
    ensures n < 0x1_0000
  {
    hi * 256 + lo
  }

  /** The word gives its two octets back: its high and low octet are `hi` and `lo`. */
  lemma Be16Octets(hi: Byte, lo: Byte)
    ensures Be16(hi, lo) / 256 == hi && Be16(hi, lo) % 256 == lo
  {
  }
}

/** What a decode call can end in. */
module Decoding {

  /** Why a decoder aborts the process: each is an out-of-range slice, an out-of-range
      index or an `unwrap` on failed UTF-8 validation in the source. */
  datatype Panic =
    | FrameTooShort   // the frame is too short for the MAC address slices
    | HeaderOverrun   // a TLV header read runs past the end of the frame
    | SliceOverrun    // a TLV slice runs past the end of the frame
    | ValueTooShort   // a TLV's declared length is too short for the bytes its type reads
    | ReadOverrun     // a value read past the end of the frame that the declared length did not cover
    | InvalidUtf8     // a text value is not valid UTF-8 and is unwrapped

  /** Where a TLV walk ends: it runs off the TLVs with the record `pdu` built, panics at
      the TLV starting at offset `at`, or comes back to the TLV at `at` forever. */
  datatype Walk<+P> =
    | Ended(pdu: P)
    | Panicked(at: nat, reason: Panic)
    | Spins(at: nat)

  /** The result of one decode: an identity (`Some(pdu)`), none (`None`), a panic at the
      TLV starting at offset `at`, or a walk that never ends at offset `at`. */
  datatype Outcome<+P> =
    | Identity(pdu: P)
    | NoIdentity
    | Crash(at: nat, reason: Panic)
    | Diverges(at: nat)
}
