/** The cryptographic functions the client relies on, one of each for the whole client. */
module Primitives {
  import opened Bytes

  /**
   `mlDsaVerify(public key, message, signature)`; `decaps(ek, ct)` is the session key that the holder of
   `ek`'s decapsulation key derives from `ct`, if the ciphertext is valid and decapsulates.
   */
  datatype Crypto = Crypto(
    blake3: Bytes -> Bytes32,
    keccak: Bytes -> Bytes32,
    mlDsaVerify: (Bytes, Bytes, Bytes) -> bool,
    decaps: (Bytes, Bytes) -> Option<Bytes32>)
}
