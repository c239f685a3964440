/**
 The hash algorithms of the checksum engine and how one is constructed,
 plain or keyed (initHash, utils.go:27-52). The primitives themselves are
 not modelled: a Construction only records which one would be used.
 */
module Algorithms {
  import opened Wrappers
  import opened Io

  /** Go's crypto.Hash values the engine can be asked for, plus BLAKE3. */
  datatype Alg =
    | MD4 | MD5 | SHA1 | SHA224 | SHA256 | SHA384 | SHA512 | RIPEMD160
    | SHA3_224 | SHA3_256 | SHA3_384 | SHA3_512 | SHA512_224 | SHA512_256
    | BLAKE2s_256 | BLAKE2b_256 | BLAKE2b_384 | BLAKE2b_512 | BLAKE3

  /** Which primitive a hash state runs. */
  datatype Construction =
    | Plain(alg: Alg)                          // the algorithm's ordinary constructor
    | NativeKeyed(alg: Alg, key: seq<byte>)    // the algorithm's own keyed mode
    | Hmac(alg: Alg, key: seq<byte>)           // HMAC over the ordinary constructor

  /** The algorithms initHash builds with their own keyed constructor. */
  predicate HasNativeKey(alg: Alg)
  {
    alg == BLAKE3 || alg == BLAKE2s_256 || alg == BLAKE2b_256 || alg == BLAKE2b_512
  }

  /**
   initHash: the construction for `alg` under the process-wide MAC key
   (None when no key was given).
   */
  function InitHash(alg: Alg, macKey: Option<seq<byte>>): (c: Construction)
    ensures c.alg == alg
    ensures macKey.None? ==> c == Plain(alg)
    ensures macKey.Some? && HasNativeKey(alg) ==> c == NativeKeyed(alg, macKey.value)
    ensures macKey.Some? && !HasNativeKey(alg) ==> c == Hmac(alg, macKey.value)
  {
    match alg
    case BLAKE3 =>
      if macKey.Some? then NativeKeyed(alg, macKey.value) else Plain(alg)
    case BLAKE2s_256 => Blake2(alg, macKey)
    case BLAKE2b_256 => Blake2(alg, macKey)
    case BLAKE2b_512 => Blake2(alg, macKey)
    case _ =>
      if macKey.Some? then Hmac(alg, macKey.value) else Plain(alg)
  }

  /** The blake2 wrapper: a nil key gives the plain hash, any other key the keyed one. */
  function Blake2(alg: Alg, key: Option<seq<byte>>): Construction
  {
    if key.None? then Plain(alg) else NativeKeyed(alg, key.value)
  }
}
