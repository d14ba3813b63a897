/**
 * `hashWithPredefinedSalt` of src/utils/func.ts: the content hash under which
 * a titulación is looked up and revoked on the external registry.
 *
 * SHA-256 is not modelled: the digest is passed in as an uninterpreted
 * function from the hashed string to 32 bytes (it stands for hashing the
 * string's UTF-8 encoding, which is what Node's `update(string)` does).
 */
module RevocationHash {
  import opened Wrappers
  import opened JsNumbers
  import opened Hex

  /** The fixed salt appended before hashing. */
  const Salt: string := "uva"

  /** The prefix put in front of the hex digest. */
  const HexPrefix: string := "0x"

  /** A SHA-256 digest: 32 bytes. */
  type Digest = s: seq<Byte> | |s| == 32 witness seq(32, _ => 0)

  function HashWithPredefinedSalt(sha256: string -> Digest, stringObject: string): (r: string)
    ensures |r| == 66
    ensures r[..2] == HexPrefix
    ensures forall i :: 2 <= i < |r| ==> IsLowerHexDigit(r[i])
  {
    HexPrefix + HexEncode(sha256(stringObject + Salt))
  }

  /** Stripping `0x` and decoding the rest gives back the digest of the input followed by the salt. */
  lemma HashDecodesToDigest(sha256: string -> Digest, stringObject: string)
    ensures HexDecode(HashWithPredefinedSalt(sha256, stringObject)[2..]) == Success(sha256(stringObject + "uva"))
  {
    var digest := sha256(stringObject + Salt);
    assert HashWithPredefinedSalt(sha256, stringObject)[2..] == HexEncode(digest);
    HexDecodeEncode(digest);
  }

  /**
   * Two inputs get the same hash exactly when their salted strings have the
   * same digest: the hash is deterministic, and the hex formatting loses nothing.
   */
  lemma SameHashIffSameDigest(sha256: string -> Digest, s1: string, s2: string)
    ensures HashWithPredefinedSalt(sha256, s1) == HashWithPredefinedSalt(sha256, s2)
        <==> sha256(s1 + Salt) == sha256(s2 + Salt)
  {
    if HashWithPredefinedSalt(sha256, s1) == HashWithPredefinedSalt(sha256, s2) {
      HashDecodesToDigest(sha256, s1);
      HashDecodesToDigest(sha256, s2);
    }
  }
}
