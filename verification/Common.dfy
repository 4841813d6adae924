/** Datatypes and byte-level notions shared by every module. */
module Common {

  datatype Option<+T> = None | Some(value: T)

  datatype Result<+T, +E> = Ok(value: T) | Err(error: E)

  /** One octet of a wire format or a hash. */
  type Byte = b: int | 0 <= b < 256

  const TWO_64: int := 0x1_0000_0000_0000_0000
  const I64_MAX: int := 0x7FFF_FFFF_FFFF_FFFF

  /** The source's `u64`. */
  type U64 = n: int | 0 <= n < TWO_64

  const HASH_SIZE: nat := 32

  /** Output of the 32-byte cryptographic digest. */
  type Digest = d: seq<Byte> | |d| == HASH_SIZE witness seq(HASH_SIZE, _ => 0)
}
