# Verified model of the titulación issuer's byte and string layer

The issuer hands out university degree credentials ("titulaciones") through a
pre-authorized-code credential-offer flow and revokes them through a
content-addressed entry on an external registry. Almost all of the flow is
configured through builder objects of an OpenID-for-credential-issuance
library, whose code is not part of this model. What the repository itself
implements, and what is modelled here, is:

- `hexToUint8Array` (src/server.ts): decodes a base16 string (section 8 of
  RFC 4648) into a `Uint8Array`, two characters per byte, throwing
  `Invalid hex string` on odd length. Modelled as the method
  `Hex.HexToUint8Array`, which fills an `array<Byte>` in a loop, proved
  against the specification function `Hex.HexDecode`. Each pair of characters
  goes through `parseInt(…, 16)` and the `Uint8Array` store conversion; both
  are modelled after their ECMAScript definitions (module `JsNumbers`) for the
  two-character strings the decoder passes, so the decoder needs no
  precondition: leading white space is skipped, a sign is honoured (`"-1"`
  stores 255), parsing stops at the first non-digit (`"a*"` stores 10), and a
  pair with no digit stores 0.
- `hashWithPredefinedSalt` (src/utils/func.ts): appends the salt `"uva"`,
  takes the SHA-256 digest, and writes it as `0x` followed by 64 lower-case
  hex digits. SHA-256 is a parameter (`sha256: string -> Digest`, 32 bytes).
  The hash is proved to have the 66-character shape, and stripping `0x` and
  decoding with the decoder above is proved to give back exactly the digest
  of the input followed by `"uva"`.
- The `Titulacion` record and the `TipoTitulacion` enum
  (src/model/titulacion.ts) as datatypes, and the fixed catalog
  `fetchTitulacionesFromUVa` (src/utils/func.ts) as a constant sequence.

Modules: `Wrappers` (the `Result` type), `JsNumbers`, `Hex`,
`RevocationHash`, `TitulacionModel`, `Catalog`.

The revocation hash is taken over whatever string the caller passes;
turning a credential into that string is the caller's job and is not part of
this model. `Titulacion` has no method that changes any of its fields,
`revocada` included, so it is modelled as an immutable datatype.

## Model

| member | source | states |
|---|---|---|
| `Hex.HexToUint8Array` | src/server.ts:121-128 | Throws `Invalid hex string` (and produces no array) exactly when the length is odd; otherwise returns a newly allocated array whose contents are `HexDecode(hex)`, and reports the slots `0..|hex|/2-1` in the order it writes them. |
| `Hex.PairByte` | src/server.ts:124-125 | The byte stored for characters `2k` and `2k+1` (`parseInt` of the two-character substring, then the `Uint8Array` store): when both are hex digits of either case it is `16*hi + lo`; the lemmas below give the other cases (stopping at a non-digit, NaN to 0, the sign wrap). |
| `Hex.HexDecode` | src/server.ts:121-128 | Fails exactly on odd length; on even length (including the empty string) yields exactly `length / 2` bytes. |
| `Hex.DecodeHexDigits` | src/server.ts:124-125 | When characters `2k` and `2k+1` are hex digits of either case, byte `k` is their base-16 value `16*hi + lo`. |
| `Hex.HexDecodeEncode` | src/server.ts:121-128 | Round trip: decoding the two-digits-per-byte encoding of any byte sequence returns that sequence. |
| `Hex.HexEncodeDecode` | src/server.ts:121-128 | Other direction: an even-length string of hex digits decodes to bytes whose encoding is the same string in lower case. |
| `Hex.HexEncode` | src/utils/func.ts:49 | `Buffer.toString('hex')`: two characters per byte, every one a lower-case hex digit. |
| `Hex.LowerHexDigit` | src/utils/func.ts:49 | The digit written for a nibble is a lower-case hex digit that `parseInt` reads back as that nibble. |
| `Hex.ToLowerHexDigit` | src/server.ts:125 | Upper- and lower-case digits denote the same value. |
| `JsNumbers.ParseIntHex` | src/server.ts:125 | `parseInt(s, 16)`; on at most two characters the result is NaN or an integer in `-15..255`, the range the store converts correctly. `PlainDigits` gives the value of a digit run, `DigitThenNonDigit` the stop at the first non-digit, `NoLeadingDigit` the NaN case and `MinusThenDigit` the sign. |
| `JsNumbers.HexDigitValue` | src/server.ts:125 | A radix-16 digit's value is below 16. |
| `JsNumbers.TrimStart` | src/server.ts:125 | `parseInt` skips only white space and line terminators, and leaves none at the front. |
| `JsNumbers.TrimStartIsSuffix` | src/server.ts:125 | What trimming leaves is a suffix of the input. |
| `JsNumbers.HexDigitPrefix` | src/server.ts:125 | `parseInt` reads the longest prefix of hex digits: all digits, and the next character (if any) is not one. |
| `JsNumbers.ToUint8` | src/server.ts:123-125 | A `Uint8Array` store keeps values in `0..255`: NaN becomes 0, in-range values are kept, negatives down to -256 wrap by 256. |
| `JsNumbers.PlainDigits` | src/server.ts:125 | A run of one to thirteen hex digits (a value below 2^52, so a Number holds it exactly) parses to the number it denotes. |
| `JsNumbers.TwoHexDigits` | src/server.ts:125 | Two hex digits parse, and are stored, as `16*hi + lo`. |
| `JsNumbers.DigitThenNonDigit` | src/server.ts:125 | A digit followed by a non-digit stores just the first digit's value. |
| `JsNumbers.NoLeadingDigit` | src/server.ts:125 | A pair starting with no digit, sign or white space is NaN and stores 0. |
| `JsNumbers.MinusThenDigit` | src/server.ts:125 | `-d` stores `256 - d` (and `-0` stores 0). |
| `RevocationHash.HashWithPredefinedSalt` | src/utils/func.ts:43-50 | The result is 66 characters long, starts with `0x`, and every character after the prefix is a lower-case hex digit. |
| `RevocationHash.HashDecodesToDigest` | src/utils/func.ts:44-49 | Stripping `0x` and decoding with `hexToUint8Array` gives exactly the 32 digest bytes of the input followed by `"uva"`. |
| `RevocationHash.SameHashIffSameDigest` | src/utils/func.ts:43-50 | Equal inputs give equal hashes (determinism), and two hashes are equal exactly when the salted strings' digests are. |
| `TitulacionModel.TipoValue` | src/model/titulacion.ts:44-47 | `GRADO` has the string value `"Grado"` and `MASTER` has `"Master"`; there is no other value. |
| `TitulacionModel.TipoValueInjective` | src/model/titulacion.ts:44-47 | The two members have different string values. |
| `TitulacionModel.ConstructorStoresArguments` | src/model/titulacion.ts:28-38 | After construction each of the nine fields, `revocada` included, equals its argument. |
| `Catalog.FetchTitulacionesFromUVa` | src/utils/func.ts:3-41 | The catalog holds exactly three records. |
| `Catalog.CatalogCodes` | src/utils/func.ts:5-40 | The codes are `81639`, `82639` and `83639`, pairwise distinct. |
| `Catalog.Record83639` | src/utils/func.ts:29-38 | There is a record with code `83639`, and any such record is `Ingenieria Informatica`, `tipo` `Grado`, `notaMedia` `8.6`, `promocion` `2020`. |
| `Catalog.CatalogTiposAreGrado` | src/utils/func.ts:5-40 | Every record's `tipo` string is the string value of `TipoTitulacion.GRADO`. |

## Left out

- `signerCallback` (src/server.ts:18-39): secp256k1 key derivation, JWK assembly and ES256K JWT signing are calls into cryptographic libraries that are not part of this model.
- Offer-session and c_nonce state, pre-authorized-code redemption and access-token expiry (src/server.ts:60-91): configured through library builders whose code is not part of this model.
- Reading the environment and building the issuer and server (src/server.ts:16, 42-91): configuration plumbing.
- The HTTP route `/credentialOfferTitulacionDigital`, request logging and server start-up (src/server.ts:93-118): I/O and framework code.
- SHA-256 itself and the UTF-8 encoding that `update(string)` applies: both are folded into the `sha256` parameter of `RevocationHash.HashWithPredefinedSalt`, which only promises 32 bytes.
- JavaScript's string coercion of a non-string `stringObject` (src/utils/func.ts:45): the input is modelled as a string.
- Characters outside the Basic Multilingual Plane: JavaScript strings count UTF-16 code units, the model counts Unicode scalar values, so the odd-length test and the pairing of characters agree only for strings without surrogate pairs.
- The zero-initialisation of the `Uint8Array` is not modelled: every slot is overwritten before `Hex.HexToUint8Array` returns the array, so the result does not depend on it.
- `JsNumbers.ParseIntHex` returns the exact integer for any run of digits; JavaScript's `parseInt` returns a Number, which is rounded to a double beyond 13 hex digits and is Infinity beyond 256. The decoder only parses two-character substrings, where the two agree.
- The catalog's `fechaHora` key (src/utils/func.ts:11) is kept in `Catalog.UvaRecord`, but no conversion from catalog records to `Titulacion` values is modelled, because the source has none.
