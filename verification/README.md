# Bitcoin wallet core: a Dafny model

A model of the hard parts of a C Bitcoin wallet library and of the scalar multiplication and signatures of
libsecp256k1 that it carries, with proofs of what each promises.

| files | what they model |
|---|---|
| `Groups.dfy`, `Wnaf.dfy`, `Ecdsa.dfy` | windowed scalar multiplication and signatures over an abstract group |
| `Bits.dfy`, `Division.dfy`, `LittleEndian.dfy`, `Poly1305.dfy`, `Poly1305Example.dfy` | the Poly1305 authenticator in limbs of 26 bits |
| `Aes.dfy`, `AesExamples.dfy` | AES-256 in place, with its key expanded and taken back on the way |
| `Powers.dfy`, `Positional.dfy`, `Windows.dfy`, `Base58.dfy`, `Bip39.dfy` | base 58, and mnemonic phrases |
| `Options.dfy`, `Slices.dfy`, `Transactions.dfy`, `TxCodec.dfy`, `TxTruncated.dfy`, `TxLayout.dfy` | transactions, their sizes and their bytes |
| `ProbeTable.dfy`, `BitWSet.dfy` | the linearly probed hash set |
| `MerkleBlock.dfy`, `Difficulty.dfy` | partial Merkle trees and the difficulty rule |
| `Ledger.dfy`, `Removal.dfy`, `Insertion.dfy`, `Updates.dfy`, `CoinSelection.dfy`, `Retries.dfy`, `Wallet.dfy` | the wallet: ledger, transaction list, coin selection and its retries |

Code that changes state is modelled by classes and methods that do the same steps, each proved against a
specification function; the properties are then proved of these functions for all inputs. Machine arithmetic is
explicit: words are bounded types, and where the source wraps around, truncates or could overflow, the model says
so or proves that it does not. Hashes, digests, the address functions of a coin and random draws are parameters.
Group, field and scalar operations of libsecp256k1 that are not modelled are the operations of an abstract abelian
group and a curve with stated laws.

## What does not hold

Where the code and what one would expect of it differ, the model follows the code. The difference is shown, and where
it depends on the input, the exact condition under which there is none is proved:

* Decoding base 58 does not reject characters outside the alphabet; it returns the bytes of the part before the
  first one. A string is encoded back exactly when it is over the alphabet (`Base58.DecodeInvalid`).
* Decoding a mnemonic accepts one space behind the phrase; an accepted phrase re-encodes to itself exactly when it does
  not end in one (`Bip39.EncodeDecode`). Entropies of more than 32 bytes are encoded, but their phrases are not
  accepted (`Bip39.DecodeEncode`).
* A signed transaction is recovered from its bytes exactly when no signature would pass for a script that pays to an
  address (`TxCodec.RoundTripIff`). The amount of an unsigned input is written and read, but not skipped by the reader:
  what follows it is read eight bytes too early, and its sequence is only right if it is the low half of the amount
  (`TxCodec.InputIff`, `TxCodec.UnsignedInputAt`, `TxCodec.UnsignedFirst`, `TxCodec.UnsignedExample`). Any transaction
  whose inputs all come back is recovered (`TxCodec.RoundTripAll`).
* Serializing to a buffer that is too short need not give zero: parts that run out of it are skipped, and the others
  are counted. The result is the length of the transaction exactly when there was room for it (`TxCodec.Serialize`,
  `TxCodec.ShortExample`).
* A pending transaction behind the last accepted one is counted as spending its inputs, but the list of unspent
  outputs keeps them (`Ledger.StaleIff`, `Ledger.StaleExample`).
* A lock to a height counts until that is the height of the next block, although only the block behind it may hold the
  transaction (`Ledger.LockedIff`).
* Heights that are reported for transactions are set without sorting the list again, after which removing a
  transaction can leave one behind that spends it (`Updates.ReportedSorted`, `Removal.SearchMisses`,
  `Updates.HiddenChild`). Such a transaction need not be one of the wallet any more; the list stays registered exactly
  when none of these is reported as confirmed (`Updates.FreesIff`, `Updates.FreedChild`).
* The ledger is only recomputed after a report about transactions that were not accepted. Leaving it alone is right
  exactly when the report releases no lock of a pending transaction and does not make an accepted one invalid or
  pending (`Updates.SkippedIff`, `Updates.ConfirmedKeeps`), which becoming unconfirmed can
  (`Updates.UnconfirmedChanges`).
* The difference between the times of two blocks is cut to 32 bits before it is clamped. The target is right for every
  previous one exactly when the difference fits, or wraps around to one that is clamped alike (`Difficulty.RuleIff`);
  `Difficulty.TimespanWraps` is a pair of times for which it is wrong.
* Removing a set from itself, which the wallet does not do, empties it exactly when every item outside the first bucket
  is in its home bucket: removal moves others to buckets that the walk has just passed (`BitWSets.BitWSet.Minus`;
  `BitWSets.BitWSet.MinusPair` is an instance).
* Creating a transaction that would be too large is tried again with a smaller last output. This need not come to an end:
  the smaller request leaves no room for the rounding of the fee, and is tried again in turn, unless the inputs leave a
  multiple of 100 satoshi of the balance (`Retries.EndsIff`, `Retries.EndlessExample`). Nor need the last output get
  smaller: it grows exactly when the inputs were worth more than the request and the fee (`Retries.RaisedIff`,
  `Retries.RaisedExample`).

## Model

| member | source | states |
|---|---|---|
| `Wnaf.SkewAndFlip` | bitwallet_blockchain/src/main/secp/secp256k1/src/ecmult_const_impl.h:79-94 | The number that is recoded is odd, and with its sign it is the scalar plus the skew (less the order when it was flipped), for even, odd, high, zero and minus-one scalars alike; the skew is 1 or 2 as the caller must undo it. |
| `Wnaf.RecodeStep` | bitwallet_blockchain/src/main/secp/secp256k1/src/ecmult_const_impl.h:102-113 | Borrowing from or lending to the digit below turns an even word into an odd digit in range and does not change the number that the two denote. |
| `Wnaf.RecodingStep` | bitwallet_blockchain/src/main/secp/secp256k1/src/ecmult_const_impl.h:98-114 | One round of the loop keeps the invariant that the digits written, the pending digit and the rest of the scalar denote the number together, with fewer words left to take. |
| `Wnaf.RecodingEnd` | bitwallet_blockchain/src/main/secp/secp256k1/src/ecmult_const_impl.h:115-118 | After the last word nothing of the scalar is left, every digit is odd with absolute value below the base, and the digits denote the number. |
| `Wnaf.SizeBounds` | bitwallet_blockchain/src/main/secp/secp256k1/src/ecmult_const_impl.h:20 | WNAF_SIZE(w) is the least count of w-bit words that cover the width, which is when the loop stops. |
| `Wnaf.WnafConst` | bitwallet_blockchain/src/main/secp/secp256k1/src/ecmult_const_impl.h:45-120 | For every scalar and every window 1 to 15, WNAF_SIZE(w) + 1 digits are written, each odd and below 2^w in absolute value; weighted by the powers of 2^w they sum to the scalar plus the returned skew, less the order for a flipped scalar; the rest of the array keeps its content. |
| `Wnaf.SignedDigits` | bitwallet_blockchain/src/main/secp/secp256k1/src/ecmult_const_impl.h:92-93 | Multiplying every digit by the global sign multiplies the denoted number by it, and keeps the digits odd and in range. |
| `Wnaf.ValueDrop` | bitwallet_blockchain/src/main/secp/secp256k1/src/ecmult_const_impl.h:45-50 | A number written with odd digits in an even base is odd, so is what is left after dropping low digits, and it does not get larger in absolute value. |
| `Wnaf.OddMultiplesTable` | bitwallet_blockchain/src/main/secp/secp256k1/src/ecmult_impl.h:52-110 | Entry i of the table is the (2i+1)-th multiple of the point. |
| `Wnaf.TableGet` | bitwallet_blockchain/src/main/secp/secp256k1/src/ecmult_const_impl.h:22-42 | Scanning the table for half of the absolute value of n and negating for a negative n yields exactly the n-th multiple, for every odd n in range. |
| `Wnaf.DoubledNotMultiple` | bitwallet_blockchain/src/main/secp/secp256k1/src/ecmult_const_impl.h:184-186 | Doubling a nonzero number below the order any number of times never gives a multiple of the order: the doubling that is wrong at infinity is never applied there. |
| `Wnaf.DoubleWindow` | bitwallet_blockchain/src/main/secp/secp256k1/src/ecmult_const_impl.h:184-186 | The doublings between two digits multiply the accumulated factor by 2^w, and the point is not infinity before any of them. |
| `Wnaf.HornerMul` | bitwallet_blockchain/src/main/secp/secp256k1/src/ecmult_const_impl.h:181-198 | Adding the table entry of the next digit to the shifted accumulator gives the multiple that the digits from there on denote. |
| `Wnaf.PartialSum` | bitwallet_blockchain/src/main/secp/secp256k1/src/ecmult_const_impl.h:181-191 | No partial sum of the digits of a recoded scalar is zero or reaches the order in absolute value. |
| `Wnaf.SkewCorrection` | bitwallet_blockchain/src/main/secp/secp256k1/src/ecmult_const_impl.h:202-229 | Subtracting one or two points undoes the skew, and a whole order from a flipped scalar vanishes. |
| `Wnaf.EcmultConst` | bitwallet_blockchain/src/main/secp/secp256k1/src/ecmult_const_impl.h:123-238 | For every scalar, zero and minus one included, and every point of the order of the group, the result is the naive multiple of the point by the scalar. |
| `Groups.MulAdd` | bitwallet_blockchain/src/main/secp/secp256k1/src/ecmult_const_impl.h:123-238 | The reference that the loop is compared with, repeated addition in an abelian group, is additive in the factor for factors of either sign. |
| `Groups.MulMod` | bitwallet_blockchain/src/main/secp/secp256k1/src/ecmult_const_impl.h:123-238 | Two factors give the same multiple exactly when they agree modulo the order of the point. |
| `Ecdsa.TwoCases` | bitwallet_blockchain/src/main/secp/secp256k1/src/ecdsa_impl.h:36-48 | Since p < 2n, an x coordinate is r modulo n exactly when it is r, or it is r + n and r is below p - n. |
| `Ecdsa.Verify` | bitwallet_blockchain/src/main/secp/secp256k1/src/ecdsa_impl.h:201-269 | A signature is accepted exactly when r and s are nonzero and the recomputed point is finite with an x coordinate that is r modulo n, section 4.1.4 of SEC 1: the two comparisons miss and add nothing. Under the public key of a secret it is accepted exactly when r and s are nonzero and s solves the signing equation for a nonce whose point is finite with an x coordinate that is r modulo n: every other signature is rejected. |
| `Ecdsa.ValidIff` | bitwallet_blockchain/src/main/secp/secp256k1/src/ecdsa_impl.h:201-269 | The same for the predicate that signing is proved against. |
| `Ecdsa.RecomputesNonce` | bitwallet_blockchain/src/main/secp/secp256k1/src/ecdsa_impl.h:214-218 | If s solves the signing equation for k, verification recomputes k times the base point. |
| `Ecdsa.SigningEquation` | bitwallet_blockchain/src/main/secp/secp256k1/src/ecdsa_impl.h:294-297 | The computed s times the nonce is r * key + message modulo n, and s is zero exactly when that is. |
| `Ecdsa.NegatedEquation` | bitwallet_blockchain/src/main/secp/secp256k1/src/ecdsa_impl.h:304-309 | The negated s solves the equation for the negated nonce. |
| `Ecdsa.Sign` | bitwallet_blockchain/src/main/secp/secp256k1/src/ecdsa_impl.h:271-311 | Signing fails exactly when r * key + message vanishes modulo n. Otherwise the signature verifies under the public key of the secret, s is in the lower half, and the recovery id names the parity and range of the point that verification recomputes, the negation included; section 4.1.3 of SEC 1. |
| `Poly1305.SplitValue` | bitwallet_blockchain/src/main/jni/bitwallet-core/BitWCrypto.c:592-596 | Splitting four words into five limbs by shifts and masks keeps the number, and every limb fits its 26 bits. |
| `Poly1305.ClampValue` | bitwallet_blockchain/src/main/jni/bitwallet-core/BitWCrypto.c:578-582 | Masking limb by limb clamps the whole number with the mask of section 2.5 of RFC 7539. |
| `Poly1305.ClampMeaning` | bitwallet_blockchain/src/main/jni/bitwallet-core/BitWCrypto.c:578-582 | The mask, byte by byte: the upper four bits of bytes 3, 7, 11 and 15 of the key are cleared, the lower two bits of bytes 4, 8 and 12, and no others. |
| `Poly1305.KeyMeaning` | bitwallet_blockchain/src/main/jni/bitwallet-core/BitWCrypto.c:578-582 | The five limbs taken from the key denote the clamped key and are within the bounds that multiplication relies on. |
| `Poly1305.AddBlock` | bitwallet_blockchain/src/main/jni/bitwallet-core/BitWCrypto.c:585-596 | Adding a block adds its 128 bits, and 2^128 for a full one, without leaving 32 bits. |
| `Poly1305.ConvolveValue` | bitwallet_blockchain/src/main/jni/bitwallet-core/BitWCrypto.c:598-603 | The five sums of products denote the product of accumulator and key up to a multiple of 2^130 - 5. |
| `Poly1305.ConvolveBounds` | bitwallet_blockchain/src/main/jni/bitwallet-core/BitWCrypto.c:598-603 | With the bounds every block leaves, no sum of products leaves 64 bits. |
| `Poly1305.CarriedValue` | bitwallet_blockchain/src/main/jni/bitwallet-core/BitWCrypto.c:605-608 | Carrying changes the number by a multiple of 2^130 - 5. |
| `Poly1305.CarriedBounds` | bitwallet_blockchain/src/main/jni/bitwallet-core/BitWCrypto.c:605-608 | After carrying, all limbs are back within the bounds that the next block starts from. |
| `Poly1305.Carry` | bitwallet_blockchain/src/main/jni/bitwallet-core/BitWCrypto.c:605-608 | The carries in place compute the reduced limbs; every carry that is cut to 32 bits fits them. |
| `Poly1305.MultiplyReduce` | bitwallet_blockchain/src/main/jni/bitwallet-core/BitWCrypto.c:598-608 | Multiplying in place gives the carried product, within the bounds for the next block. |
| `Poly1305.BlockStep` | bitwallet_blockchain/src/main/jni/bitwallet-core/BitWCrypto.c:584-609 | After a block the limbs are congruent to (accumulator + block) * r modulo 2^130 - 5. |
| `Poly1305.BlockValue` | bitwallet_blockchain/src/main/jni/bitwallet-core/BitWCrypto.c:585-590 | A block, padded with a one and zeros or completed by the bit above it, is the number that the standard takes for it. |
| `Poly1305.FullCarry` | bitwallet_blockchain/src/main/jni/bitwallet-core/BitWCrypto.c:612-614 | All limbs get below 2^26 and the number stays the same modulo 2^130 - 5. |
| `Poly1305.AddMinusP` | bitwallet_blockchain/src/main/jni/bitwallet-core/BitWCrypto.c:616-621 | The mask is clear exactly when the number is below 2^130 - 5, decided by the bit that wraps around; otherwise the limbs computed beside it are the number less 2^130 - 5. |
| `Poly1305.SelectMeaning` | bitwallet_blockchain/src/main/jni/bitwallet-core/BitWCrypto.c:620-622 | Selecting by masks picks the one or the other word whole. |
| `Poly1305.SubtractModulus` | bitwallet_blockchain/src/main/jni/bitwallet-core/BitWCrypto.c:616-622 | The limbs hold the remainder modulo 2^130 - 5 itself. |
| `Poly1305.Pack` | bitwallet_blockchain/src/main/jni/bitwallet-core/BitWCrypto.c:624-626 | Joining the limbs into four words keeps the low 128 bits. |
| `Poly1305.AddPad` | bitwallet_blockchain/src/main/jni/bitwallet-core/BitWCrypto.c:628-632 | The pad is added modulo 2^128 with carries through 64-bit sums. |
| `Poly1305.AbsorbAll` | bitwallet_blockchain/src/main/jni/bitwallet-core/BitWCrypto.c:584-609 | The block loop absorbs the data as the fold of section 2.5 of RFC 7539 does. |
| `Poly1305.Compress` | bitwallet_blockchain/src/main/jni/bitwallet-core/BitWCrypto.c:573-638 | A call that is not final absorbs its data into the accumulator; a final one also leaves the remainder plus the pad in the first four words. |
| `Poly1305.AbsorbAppend` | bitwallet_blockchain/src/main/jni/bitwallet-core/BitWCrypto.c:723-733 | Absorbing in pieces is absorbing their concatenation, when all but the last are whole blocks. |
| `Poly1305.Authenticate` | bitwallet_blockchain/src/main/jni/bitwallet-core/BitWCrypto.c:640-653 | For every 32-byte key and every message the tag is the one of section 2.5 of RFC 7539. |
| `Poly1305Example.Example` | bitwallet_blockchain/src/main/jni/bitwallet-core/BitWCrypto.c:640-653 | The tag of the published example, section 2.5.2 of RFC 7539. |
| `Poly1305.CompressPadded` | bitwallet_blockchain/src/main/jni/bitwallet-core/BitWCrypto.c:723-725 | Absorbing the whole blocks and then a zero-padded rest absorbs the data padded to whole blocks. |
| `Poly1305.AeadTag` | bitwallet_blockchain/src/main/jni/bitwallet-core/BitWCrypto.c:723-735 | The five calls of encryption, and those of decryption, authenticate both padded texts and their lengths, section 2.8 of RFC 7539. |
| `Poly1305.AeadLayout` | bitwallet_blockchain/src/main/jni/bitwallet-core/BitWCrypto.c:723-735 | What is authenticated holds both texts in full, each filled up with zeros to the next multiple of 16, and then their lengths in eight little-endian bytes. |
| `Aes.SboxMeaning` | bitwallet_blockchain/src/main/jni/bitwallet-core/BitWBIP38Key.c:50-67 | Every entry of the table is the affine map of the inverse in GF(2^8), section 5.1.1 of FIPS 197. |
| `Aes.InvSboxSbox` | bitwallet_blockchain/src/main/jni/bitwallet-core/BitWBIP38Key.c:50-86 | The second table inverts the first one, on all bytes. |
| `Aes.XtTwice` | bitwallet_blockchain/src/main/jni/bitwallet-core/BitWBIP38Key.c:88 | Nesting the macro before the result is cut to a byte gives the same byte as cutting in between. |
| `Aes.XtLinear` | bitwallet_blockchain/src/main/jni/bitwallet-core/BitWBIP38Key.c:88 | Multiplication by x distributes over sums of bytes. |
| `Aes.InvXtXt` | bitwallet_blockchain/src/main/jni/bitwallet-core/BitWBIP38Key.c:163 | The step of the round constant back undoes multiplication by x. |
| `Aes.MixByteRow` | bitwallet_blockchain/src/main/jni/bitwallet-core/BitWBIP38Key.c:108-111 | The sum form of mixing is the matrix row 2, 3, 1, 1 of section 5.1.3 of FIPS 197. |
| `Aes.UnmixMix` | bitwallet_blockchain/src/main/jni/bitwallet-core/BitWBIP38Key.c:147-151 | Unmixing a mixed column gives it back. |
| `Aes.UnshiftUnsub` | bitwallet_blockchain/src/main/jni/bitwallet-core/BitWBIP38Key.c:153-157 | Shifting back and then substituting back undoes substituting and shifting. |
| `Aes.KeyRecurrence` | bitwallet_blockchain/src/main/jni/bitwallet-core/BitWBIP38Key.c:113-118 | The words of the schedule obey the recurrence of section 5.2 of FIPS 197. |
| `Aes.AddDistinguishes` | bitwallet_blockchain/src/main/jni/bitwallet-core/BitWBIP38Key.c:100 | Every byte of the key enters: other round keys give other states, and state and round key may change places. |
| `AesExamples.ExpandedKey` | bitwallet_blockchain/src/main/jni/bitwallet-core/BitWBIP38Key.c:113-118 | The words 8 to 23 of the published expanded key, appendix A.3 of FIPS 197. |
| `Aes.ExpandKey` | bitwallet_blockchain/src/main/jni/bitwallet-core/BitWBIP38Key.c:113-118 | Overwriting the eight words one after another gives the next eight words of the schedule, and the next round constant. |
| `Aes.UnexpandKey` | bitwallet_blockchain/src/main/jni/bitwallet-core/BitWBIP38Key.c:159-165 | Run on an expanded key from its last word to its first, the opposite order gives the key and the round constant before the expansion. |
| `Aes.Shift` | bitwallet_blockchain/src/main/jni/bitwallet-core/BitWBIP38Key.c:104-106 | The moves through one temporary rotate row r by r columns. |
| `Aes.Unshift` | bitwallet_blockchain/src/main/jni/bitwallet-core/BitWBIP38Key.c:153-155 | The moves rotate row r back by r columns. |
| `Aes.Mix` | bitwallet_blockchain/src/main/jni/bitwallet-core/BitWBIP38Key.c:108-111 | All four columns are mixed in place. |
| `Aes.Unmix` | bitwallet_blockchain/src/main/jni/bitwallet-core/BitWBIP38Key.c:147-151 | All four columns are unmixed in place, with the sums shared between opposite bytes. |
| `Aes.Encrypt` | bitwallet_blockchain/src/main/jni/bitwallet-core/BitWBIP38Key.c:90-126 | With the key expanded in every other round, the block becomes the one that the cipher of section 5.1 of FIPS 197 gives under the full schedule. |
| `Aes.ExpandAll` | bitwallet_blockchain/src/main/jni/bitwallet-core/BitWBIP38Key.c:137-142 | Seven expansions give the last eight words and the round constant that decryption counts down from. |
| `Aes.Decrypt` | bitwallet_blockchain/src/main/jni/bitwallet-core/BitWBIP38Key.c:128-173 | With the key taken back in every other round, the block becomes the one that the inverse cipher of section 5.3 of FIPS 197 gives under the full schedule. |
| `Aes.DecryptingEncrypting` | bitwallet_blockchain/src/main/jni/bitwallet-core/BitWBIP38Key.c:144-166 | After i rounds of decryption the state is the one that encryption had before its last i rounds, up to the round key. |
| `Aes.DecryptEncrypt` | bitwallet_blockchain/src/main/jni/bitwallet-core/BitWBIP38Key.c:90-173 | Decryption undoes encryption, for every key and every block. |
| `AesExamples.Example` | bitwallet_blockchain/src/main/jni/bitwallet-core/BitWBIP38Key.c:90-173 | The published encryption of appendix C.3 of FIPS 197, round by round, and its decryption. |
| `Base58.CharsInverse` | bitwallet_blockchain/src/main/jni/bitwallet-core/BitWBase58.c:35 | Every digit is read back from its character by the cases of the decoder. |
| `Base58.ValuesInverse` | bitwallet_blockchain/src/main/jni/bitwallet-core/BitWBase58.c:90-122 | Every character that the decoder accepts is the one that stands for its digit. |
| `Base58.Alphabet` | bitwallet_blockchain/src/main/jni/bitwallet-core/BitWBase58.c:35 | The alphabet, character by character. |
| `Base58.BytesFit` | bitwallet_blockchain/src/main/jni/bitwallet-core/BitWBase58.c:45 | n bytes never need more than n * 138 / 100 + 1 digits, from 256^8 <= 58^11. |
| `Base58.CharsFit` | bitwallet_blockchain/src/main/jni/bitwallet-core/BitWBase58.c:83 | n characters never need more than n * 733 / 1000 + 1 bytes, from 58^71 <= 256^52. |
| `Base58.MulAdd` | bitwallet_blockchain/src/main/jni/bitwallet-core/BitWBase58.c:52-56 | One pass from the end multiplies the number in the buffer and adds the digit; no carry is left, and no sum leaves 32 bits. |
| `Base58.NoCarry` | bitwallet_blockchain/src/main/jni/bitwallet-core/BitWBase58.c:52-56 | A carry out of the first position would contradict the room that the buffer has. |
| `Base58.ToBase58` | bitwallet_blockchain/src/main/jni/bitwallet-core/BitWBase58.c:43-59 | The buffer holds the number of the bytes in base 58. |
| `Base58.ToBytes` | bitwallet_blockchain/src/main/jni/bitwallet-core/BitWBase58.c:81-131 | The buffer holds the number of the text up to the first character outside the alphabet. |
| `Base58.Encode` | bitwallet_blockchain/src/main/jni/bitwallet-core/BitWBase58.c:37-73 | The text and its terminator are written if they fit and nothing else is touched; the result is the length needed, or zero when the buffer is too short, which is then unchanged. |
| `Base58.KnownText` | bitwallet_blockchain/src/main/jni/bitwallet-core/BitWBase58.c:37-73 | The four bytes 00 62 62 62 are written as 1a3gV. |
| `Base58.Decode` | bitwallet_blockchain/src/main/jni/bitwallet-core/BitWBase58.c:75-143 | The bytes are written if they fit and nothing else is touched; the result is their number, or zero when the buffer is too short, which is then unchanged. |
| `Base58.DecodeEncode` | bitwallet_blockchain/src/main/jni/bitwallet-core/BitWBase58.c:38-143 | Decoding an encoded byte string gives it back, leading zeros and the empty string included. |
| `Base58.EncodeDecode` | bitwallet_blockchain/src/main/jni/bitwallet-core/BitWBase58.c:38-143 | Encoding a decoded string over the alphabet gives it back, leading ones included. |
| `Base58.DecodeInvalid` | bitwallet_blockchain/src/main/jni/bitwallet-core/BitWBase58.c:118-122 | Any other string decodes like its part before the first character outside the alphabet: it is not rejected. Encoding what a string decodes to gives it back exactly when it is over the alphabet. |
| `Base58.ValidPrefixMeaning` | bitwallet_blockchain/src/main/jni/bitwallet-core/BitWBase58.c:118-122 | That part is the longest one over the alphabet. |
| `Base58.DecodedLength` | bitwallet_blockchain/src/main/jni/bitwallet-core/BitWBase58.c:170-175 | A text never decodes to more bytes than it has characters, so that the buffer of the checked decoder is large enough. |
| `Base58.CheckEncode` | bitwallet_blockchain/src/main/jni/bitwallet-core/BitWBase58.c:145-163 | The text of the data and its checksum is written with its terminator if it fits and nothing else is touched; the result is the length needed, or zero for a buffer that is too short, which is then unchanged. |
| `Base58.CheckDecode` | bitwallet_blockchain/src/main/jni/bitwallet-core/BitWBase58.c:167-188 | The decoded bytes without their last four are written if these are the checksum of the others and the buffer has room; the result is their number, and zero for a wrong checksum or a short buffer, which is then unchanged. |
| `Base58.CheckedRoundTrip` | bitwallet_blockchain/src/main/jni/bitwallet-core/BitWBase58.c:145-188 | With any checksum function of four bytes, what the checked text of some data stands for is the data. |
| `Base58.CheckedIff` | bitwallet_blockchain/src/main/jni/bitwallet-core/BitWBase58.c:165-188 | A text stands for data exactly when its part over the alphabet is the encoding of the data and its checksum: a wrong checksum is rejected. |
| `Positional.Canonical` | bitwallet_blockchain/src/main/jni/bitwallet-core/BitWBase58.c:61-69 | Digits are the leading zeros followed by the unique digits of their value: skipping zeros in the buffer loses nothing. |
| `Bip39.ChecksummedParts` | bitwallet_blockchain/src/main/jni/bitwallet-core/BitWBIP39Mnemonic.c:44-45 | The bits that words are taken from are the entropy followed by the leading bits of its digest; BIP 39, "Generating the mnemonic". |
| `Bip39.IndicesMeaning` | bitwallet_blockchain/src/main/jni/bitwallet-core/BitWBIP39Mnemonic.c:44-50 | The words, as digits of base 2048, are the number of the entropy with the leading bits of its digest behind it. |
| `Bip39.WordIndex` | bitwallet_blockchain/src/main/jni/bitwallet-core/BitWBIP39Mnemonic.c:47-49 | The shift formula of the encoder reads exactly word i of 11 bits, from four bytes that exist, up to 940 bytes of entropy. |
| `Bip39.ByteIndex` | bitwallet_blockchain/src/main/jni/bitwallet-core/BitWBIP39Mnemonic.c:90-94 | The shift formula of the decoder yields exactly byte i, also behind the last word. |
| `Bip39.UnpackIndices` | bitwallet_blockchain/src/main/jni/bitwallet-core/BitWBIP39Mnemonic.c:90-100 | Repacking the words of an entropy gives the entropy and then a byte that starts with its checksum. |
| `Bip39.PackUnpacked` | bitwallet_blockchain/src/main/jni/bitwallet-core/BitWBIP39Mnemonic.c:90-100 | Words whose bytes carry the right checksum are the words of these bytes. |
| `Bip39.Encode` | bitwallet_blockchain/src/main/jni/bitwallet-core/BitWBIP39Mnemonic.c:31-60 | The phrase and its terminator are written if they fit; the result is the length needed, or zero when the buffer is too short or the entropy is not a multiple of four bytes. Every word is taken from bytes that exist, up to 940 bytes of entropy. |
| `Bip39.FindsWord` | bitwallet_blockchain/src/main/jni/bitwallet-core/BitWBIP39Mnemonic.c:74-79 | Searching the list for the first word that ends here or before a space finds the word itself, although words may be prefixes of others. |
| `Bip39.ReadWords` | bitwallet_blockchain/src/main/jni/bitwallet-core/BitWBIP39Mnemonic.c:73-85 | The loop yields the words of the phrase, and tells whether they end with it, at most 24 of them. |
| `Bip39.ParsePhrase` | bitwallet_blockchain/src/main/jni/bitwallet-core/BitWBIP39Mnemonic.c:73-87 | A phrase is parsed as the words it was made of, with or without a space behind it. |
| `Bip39.ParseAccepted` | bitwallet_blockchain/src/main/jni/bitwallet-core/BitWBIP39Mnemonic.c:73-87 | A text that is parsed to its end is the phrase of its words, but for at most one space behind it. |
| `Bip39.ParseLong` | bitwallet_blockchain/src/main/jni/bitwallet-core/BitWBIP39Mnemonic.c:73-87 | A phrase of more words than are read is not parsed to its end. |
| `Bip39.Unpack` | bitwallet_blockchain/src/main/jni/bitwallet-core/BitWBIP39Mnemonic.c:88-95 | The byte loop computes the words repacked, with no product leaving 32 bits. |
| `Bip39.CheckedEntropy` | bitwallet_blockchain/src/main/jni/bitwallet-core/BitWBIP39Mnemonic.c:88-105 | The entropy is returned exactly when the leading bits of the last byte are those of its digest. |
| `Bip39.Decode` | bitwallet_blockchain/src/main/jni/bitwallet-core/BitWBIP39Mnemonic.c:62-111 | The entropy is written if it fits and nothing else is touched; the result is its length, or zero for a phrase that is not accepted or a buffer that is too short. |
| `Bip39.DecodeEncode` | bitwallet_blockchain/src/main/jni/bitwallet-core/BitWBIP39Mnemonic.c:32-111 | Decoding the phrase of an entropy returns it exactly up to 32 bytes, for every list of 2048 distinct nonempty words without spaces; a longer phrase is not accepted. |
| `Bip39.EncodeDecode` | bitwallet_blockchain/src/main/jni/bitwallet-core/BitWBIP39Mnemonic.c:32-111 | Every accepted phrase with words is the encoding of its entropy, but for at most one space behind it: it re-encodes to itself exactly when it does not end in a space. |
| `TxCodec.PutVarInt` | bitwallet_blockchain/src/main/jni/bitwallet-core/BitWAddress.c:67-101 | The integer is written in one, three, five or nine bytes behind what was written before. |
| `TxCodec.ReadVarIntAt` | bitwallet_blockchain/src/main/jni/bitwallet-core/BitWAddress.c:36-65 | Reading a variable-length integer where one was written returns it and its length, in all four forms. |
| `TxCodec.PutInput` | bitwallet_blockchain/src/main/jni/bitwallet-core/BitWTransaction.c:120-142 | The input is written behind what was written before: its script is the signature or, when it is unsigned, the script it spends, and then the amount follows unless it is zero. |
| `TxCodec.PutOutput` | bitwallet_blockchain/src/main/jni/bitwallet-core/BitWTransaction.c:186-194 | The output is written behind what was written before. |
| `TxCodec.PutInputs` | bitwallet_blockchain/src/main/jni/bitwallet-core/BitWTransaction.c:300-315 | The inputs are written in order. |
| `TxCodec.PutOutputs` | bitwallet_blockchain/src/main/jni/bitwallet-core/BitWTransaction.c:184-194 | The outputs are written in order. |
| `TxCodec.Serialize` | bitwallet_blockchain/src/main/jni/bitwallet-core/BitWTransaction.c:282-360 | Without a buffer the result is the length of the transaction. With one that is long enough, the transaction is written to its start, the rest is unchanged, and the result is its length. With a shorter one the result is the length of what there was room for, part by part, which is at most its size: it is the length of the transaction exactly when that was written. |
| `TxCodec.ShortExample` | bitwallet_blockchain/src/main/jni/bitwallet-core/BitWTransaction.c:282-360 | A transaction with one input for which a buffer of ten bytes gives the result ten, although its bytes are 51. |
| `TxCodec.SignedLength` | bitwallet_blockchain/src/main/jni/bitwallet-core/BitWTransaction.c:505-528 | The size that fees are computed from is the serialized length, for every signed transaction. |
| `TxLayout.KnownBytes` | bitwallet_blockchain/src/main/jni/bitwallet-core/BitWTransaction.c:282-360 | A transaction with one signed input and one output, byte by byte. |
| `TxLayout.KnownCounts` | bitwallet_blockchain/src/main/jni/bitwallet-core/BitWAddress.c:67-101 | Counts and lengths around the bounds of their four forms, byte by byte. |
| `TxCodec.ReadInputAt` | bitwallet_blockchain/src/main/jni/bitwallet-core/BitWTransaction.c:396-420 | A signed input is read back where it was written, without the amount and the script that it spends, unless its signature would pass for a script that pays to an address. |
| `TxCodec.ReadOutputAt` | bitwallet_blockchain/src/main/jni/bitwallet-core/BitWTransaction.c:426-434 | An output is read back where it was written, with the address of its script. |
| `TxCodec.WrittenInputAt` | bitwallet_blockchain/src/main/jni/bitwallet-core/BitWTransaction.c:396-420 | Any written input is read by its script: as unsigned if the script pays to an address, with an amount that is read and not skipped, and with the sequence taken from what follows the script. |
| `TxCodec.InputIff` | bitwallet_blockchain/src/main/jni/bitwallet-core/BitWTransaction.c:396-420 | A written input is read back, with its length and its signedness, exactly when its script tells which of both it is, no amount was written, and none is read from the sequence of an unsigned one and what follows. |
| `TxCodec.UnsignedInputAt` | bitwallet_blockchain/src/main/jni/bitwallet-core/BitWTransaction.c:405-419 | An unsigned input with an amount is read with its sequence taken from the low half of the amount, and reading goes on eight bytes too early. |
| `TxCodec.UnsignedFirst` | bitwallet_blockchain/src/main/jni/bitwallet-core/BitWTransaction.c:380-420 | A first input that is unsigned and has an amount is recovered exactly when its sequence is the low half of its amount. |
| `TxCodec.UnsignedExample` | bitwallet_blockchain/src/main/jni/bitwallet-core/BitWTransaction.c:282-452 | A concrete unsigned transaction, as the wallet creates them, that spends and pays to a 25-byte script for a public key hash, whose inputs are not recovered by parsing its bytes. |
| `TxCodec.Parse` | bitwallet_blockchain/src/main/jni/bitwallet-core/BitWTransaction.c:380-445 | For every buffer without script lengths that wrap around the 64-bit offset, the parser returns what its format reads, field by field, with zeros past the end of the buffer, and nothing without inputs or when it has passed the end. |
| `TxCodec.RoundTripAll` | bitwallet_blockchain/src/main/jni/bitwallet-core/BitWTransaction.c:380-452 | Parsing the bytes of any transaction whose inputs are all read back in this sense, signed or not, recovers version, inputs, outputs and lock time; its hash is that of its bytes, or zero when an input is unsigned. |
| `TxCodec.RoundTrip` | bitwallet_blockchain/src/main/jni/bitwallet-core/BitWTransaction.c:380-452 | Parsing the bytes of a signed transaction with inputs, whatever follows them, recovers version, inputs, outputs and lock time, and names it by the hash of exactly its own bytes. |
| `TxCodec.RoundTripIff` | bitwallet_blockchain/src/main/jni/bitwallet-core/BitWTransaction.c:380-452 | A signed transaction with inputs is recovered from its bytes exactly when no signature would pass for a script that pays to an address. |
| `TxTruncated.CutOff` | bitwallet_blockchain/src/main/jni/bitwallet-core/BitWTransaction.c:380-452 | A buffer that ends before the transaction in it does is refused, wherever it is cut. |
| `TxTruncated.SerializedCutOff` | bitwallet_blockchain/src/main/jni/bitwallet-core/BitWTransaction.c:380-452 | So is every proper beginning of the bytes of a transaction whose inputs are all read back. |
| `Transactions.TransactionSize` | bitwallet_blockchain/src/main/jni/bitwallet-core/BitWTransaction.c:505-528 | The loops add up the sizes of all inputs and outputs and both counts. |
| `BitWSets.SizeIndex` | bitwallet_blockchain/src/main/jni/bitwallet-core/BitWSet.c:56-60 | The table size chosen for a capacity is the next one after the first that is not below it. |
| `BitWSets.LoadFactor` | bitwallet_blockchain/src/main/jni/bitwallet-core/BitWSet.c:115 | The limit is the least even number that is not below two thirds of the buckets. |
| `BitWSets.SizesGrow` | bitwallet_blockchain/src/main/jni/bitwallet-core/BitWSet.c:32-37 | Every table size is more than one and a half times the one before, as its comment says, but for 45887 behind 30593, which is just below; all but the first are odd. |
| `BitWSets.GrownLimit` | bitwallet_blockchain/src/main/jni/bitwallet-core/BitWSet.c:86-96 | The next size has room for one item more than the limit of the current one, so that growing never grows again. |
| `BitWSets.CanGrow` | bitwallet_blockchain/src/main/jni/bitwallet-core/BitWSet.c:58-64 | A set below the item bound always finds a larger size. |
| `BitWSets.BitWSet.constructor` | bitwallet_blockchain/src/main/jni/bitwallet-core/BitWSet.c:49-84 | A new set is valid and empty. |
| `BitWSets.BitWSet.Probe` | bitwallet_blockchain/src/main/jni/bitwallet-core/BitWSet.c:104-111 | Every probe ends, at an equivalent item or at the first empty bucket. |
| `BitWSets.BitWSet.HasRoom` | bitwallet_blockchain/src/main/jni/bitwallet-core/BitWSet.c:115 | The load limit leaves an empty bucket. |
| `ProbeTable.EmptyBucket` | bitwallet_blockchain/src/main/jni/bitwallet-core/BitWSet.c:108-111 | A table with fewer items than buckets has an empty bucket. |
| `ProbeTable.SlotFinds` | bitwallet_blockchain/src/main/jni/bitwallet-core/BitWSet.c:193-208 | When every item is reachable from its hash, the bucket where a probe stops decides membership. |
| `ProbeTable.StoreKeepsReachable` | bitwallet_blockchain/src/main/jni/bitwallet-core/BitWSet.c:113-114 | Storing an item where its probe stops keeps every item reachable. |
| `ProbeTable.CountIsSize` | bitwallet_blockchain/src/main/jni/bitwallet-core/BitWSet.c:162-167 | The item count is the number of inequivalent items. |
| `ProbeTable.CleaningStarts` | bitwallet_blockchain/src/main/jni/bitwallet-core/BitWSet.c:134-138 | After a bucket is emptied, only probe paths through it to items from the next bucket on can be broken. |
| `ProbeTable.CleaningStep` | bitwallet_blockchain/src/main/jni/bitwallet-core/BitWSet.c:140-146 | Taking an item of the cluster out and adding it again puts it no farther from the removed bucket, and moves the broken stretch on by one, also across the end of the table. |
| `ProbeTable.CleaningEnds` | bitwallet_blockchain/src/main/jni/bitwallet-core/BitWSet.c:140 | At the first empty bucket no path is broken any more. |
| `ProbeTable.Reinsert` | bitwallet_blockchain/src/main/jni/bitwallet-core/BitWSet.c:140-146 | A round of the cleanup keeps the items, their number and the empty bucket that ends it. |
| `ProbeTable.AllAtHome` | bitwallet_blockchain/src/main/jni/bitwallet-core/BitWSet.c:123-150 | In a table in which no two items have the same home bucket, the item of one bucket aside, every reachable item is in its home bucket: an item elsewhere would have been displaced by another, without end. |
| `ProbeTable.PassItem` | bitwallet_blockchain/src/main/jni/bitwallet-core/BitWSet.c:283-296 | Walking over a table and removing the item met: that nothing is left behind the walk and everything ahead is at home holds after the removal exactly when it did before. |
| `BitWSets.BitWSet.Get` | bitwallet_blockchain/src/main/jni/bitwallet-core/BitWSet.c:192-208 | The equivalent item is returned, or none when there is none. |
| `BitWSets.BitWSet.Contains` | bitwallet_blockchain/src/main/jni/bitwallet-core/BitWSet.c:169-173 | Exactly the items with an equivalent in the set are contained. |
| `BitWSets.BitWSet.Add` | bitwallet_blockchain/src/main/jni/bitwallet-core/BitWSet.c:98-117 | The set gains the item or has an equivalent one replaced, which is returned; the count follows; the table grows only past its limit and then to the next size. Replacing also works on a set at the item bound, and moves nothing. |
| `BitWSets.BitWSet.Grow` | bitwallet_blockchain/src/main/jni/bitwallet-core/BitWSet.c:85-96 | Growing keeps the contents and the count, makes the table the next larger one, and does not grow again on the way. |
| `BitWSets.BitWSet.Union` | bitwallet_blockchain/src/main/jni/bitwallet-core/BitWSet.c:268-281 | The result is the union, with the items of the other set preferred, and the table keeps its size if all fit. A set united with itself keeps its table as it is. |
| `BitWSets.BitWSet.ReAdd` | bitwallet_blockchain/src/main/jni/bitwallet-core/BitWSet.c:141-143 | Taking one item of the cluster out and adding it again keeps the set as it is. |
| `BitWSets.BitWSet.CleanUp` | bitwallet_blockchain/src/main/jni/bitwallet-core/BitWSet.c:137-146 | The cleanup ends, keeps the set, makes every item reachable again and moves none forward. |
| `BitWSets.BitWSet.Remove` | bitwallet_blockchain/src/main/jni/bitwallet-core/BitWSet.c:119-150 | The equivalent item is returned and no longer in the set, everything else is, and the set is valid again. |
| `BitWSets.BitWSet.Clear` | bitwallet_blockchain/src/main/jni/bitwallet-core/BitWSet.c:152-159 | The set is empty and valid. |
| `BitWSets.BitWSet.Size` | bitwallet_blockchain/src/main/jni/bitwallet-core/BitWSet.c:161-167 | The count is the number of items in the abstract set. |
| `BitWSets.BitWSet.Minus` | bitwallet_blockchain/src/main/jni/bitwallet-core/BitWSet.c:283-296 | Exactly the items with an equivalent in another set are gone. Removing a set from itself leaves it empty exactly when every item outside the first bucket was in its home bucket; the item of the first bucket is gone in any case, and nothing is added or changed. |
| `BitWSets.BitWSet.MinusPair` | bitwallet_blockchain/src/main/jni/bitwallet-core/BitWSet.c:283-296 | Of two items in three buckets that both belong to the first, removing the set from itself leaves exactly the second one. |
| `BitWSets.BitWSet.Intersects` | bitwallet_blockchain/src/main/jni/bitwallet-core/BitWSet.c:175-190 | The result tells whether the two sets share an item. |
| `BitWSets.BitWSet.Intersect` | bitwallet_blockchain/src/main/jni/bitwallet-core/BitWSet.c:298-315 | The in-place walk ends and leaves exactly the items with an equivalent in the other set, although removing moves items, also across the end of the table. |
| `MerkleBlocks.AndPred` | bitwallet_blockchain/src/main/jni/bitwallet-core/BitWMerkleBlock.c:39 | x & (x - 1) vanishes exactly for powers of two. |
| `MerkleBlocks.HighestBit` | bitwallet_blockchain/src/main/jni/bitwallet-core/BitWMerkleBlock.c:39-42 | The position of the highest bit, one more unless x is a power of two, is the rounded-up logarithm. |
| `MerkleBlocks.CeilLog2Bounds` | bitwallet_blockchain/src/main/jni/bitwallet-core/BitWMerkleBlock.c:37-43 | The height r satisfies 2^(r-1) < x <= 2^r. |
| `MerkleBlocks.CeilLog2Loop` | bitwallet_blockchain/src/main/jni/bitwallet-core/BitWMerkleBlock.c:37-43 | The loop computes that height for every count below 2^31, zero included. |
| `MerkleBlocks.Walker.Root` | bitwallet_blockchain/src/main/jni/bitwallet-core/BitWMerkleBlock.c:228-251 | The recursive walk over shared cursors computes the walk as a function of the cursors it starts from. |
| `MerkleBlocks.Walker.TxHashes` | bitwallet_blockchain/src/main/jni/bitwallet-core/BitWMerkleBlock.c:172-196 | So does the walk for the hashes; it writes what it collects, counts it, and writes nothing behind what it counts. |
| `MerkleBlocks.MatchedHashes` | bitwallet_blockchain/src/main/jni/bitwallet-core/BitWMerkleBlock.c:198-207 | The result is the number of hashes that the walk collects, at most the given number with an array and all of them without; they are written to its start and the rest is unchanged. |
| `MerkleBlocks.PackedFlags` | bitwallet_blockchain/src/main/jni/bitwallet-core/BitWMerkleBlock.c:178 | The flags that the walks read are exactly the bits that the flag bytes hold, eight each from the lowest to the highest. |
| `MerkleBlocks.RootDecodes` | bitwallet_blockchain/src/main/jni/bitwallet-core/BitWMerkleBlock.c:228-251 | At every node of a tree without zero hashes the root walk returns the hash of the node and stops behind its encoding; if it meets equal siblings below, it ends beyond all hashes. |
| `MerkleBlocks.TxDecodes` | bitwallet_blockchain/src/main/jni/bitwallet-core/BitWMerkleBlock.c:172-196 | At every node of the tree the hash walk collects exactly the matched leaves below it, in order, and stops behind the encoding. |
| `MerkleBlocks.RootNode` | bitwallet_blockchain/src/main/jni/bitwallet-core/BitWMerkleBlock.c:228-251 | The node at the computed height has the Merkle root, formed row by row with the last hash duplicated, and holds all matches. |
| `MerkleBlocks.SmallRoots` | bitwallet_blockchain/src/main/jni/bitwallet-core/BitWMerkleBlock.c:228-251 | The Merkle roots of one, two and three transactions, the last one hashed with itself. |
| `MerkleBlocks.SmallEncodings` | bitwallet_blockchain/src/main/jni/bitwallet-core/BitWMerkleBlock.c:172-196 | The encodings of one transaction, and of two of which the second is matched. |
| `MerkleBlocks.BlockDecodes` | bitwallet_blockchain/src/main/jni/bitwallet-core/BitWMerkleBlock.c:172-251 | Over any block whose flag bytes hold the bits, eight each from the lowest, and whose hashes are those of the encoding of transactions and matches by the format of BIP 37, the hash walk returns exactly the matched transactions and uses up the hashes; the root walk uses them up exactly when no explored node has equal children, and then returns the Merkle root. |
| `Difficulty.NextTarget` | bitwallet_blockchain/src/main/jni/bitwallet-core/BitWMerkleBlock.c:332-349 | The loop computes the compact form of the short cut, with a product that fits 64 bits. |
| `Difficulty.VerifyDifficulty` | bitwallet_blockchain/src/main/jni/bitwallet-core/BitWMerkleBlock.c:314-356 | A block is accepted exactly when it follows the previous one and carries its target, or at a transition with a known time the one of the short cut. |
| `Difficulty.NoOverflow` | bitwallet_blockchain/src/main/jni/bitwallet-core/BitWMerkleBlock.c:342 | The product of mantissa and timespan fits 64 bits. |
| `Difficulty.NormalizeLeads` | bitwallet_blockchain/src/main/jni/bitwallet-core/BitWMerkleBlock.c:346 | Shifting bytes out keeps the leading bytes of the exact quotient and ends within the compact format. |
| `Difficulty.CapLeads` | bitwallet_blockchain/src/main/jni/bitwallet-core/BitWMerkleBlock.c:348-349 | Comparing size and mantissa with the limit decides as comparing the full numbers does. |
| `Difficulty.CompactUnique` | bitwallet_blockchain/src/main/jni/bitwallet-core/BitWMerkleBlock.c:330-331 | Leading bytes without one to spare are the compact form of the number. |
| `Difficulty.ShortCutIsRetarget` | bitwallet_blockchain/src/main/jni/bitwallet-core/BitWMerkleBlock.c:329-349 | For every previous target in range the short cut gives the compact form of the target times the clamped timespan over the intended one, capped, in full width: truncation loses nothing. |
| `Difficulty.TimespanFits` | bitwallet_blockchain/src/main/jni/bitwallet-core/BitWMerkleBlock.c:333-338 | The clamped timespan is right exactly when the difference of the times fits a 32-bit int, or wraps around from below to one that is under the lower limit as well. |
| `Difficulty.RuleIff` | bitwallet_blockchain/src/main/jni/bitwallet-core/BitWMerkleBlock.c:329-349 | For a difference of times, the short cut gives the target of the rule for every previous target in range exactly under that condition. |
| `Difficulty.TimespanWraps` | bitwallet_blockchain/src/main/jni/bitwallet-core/BitWMerkleBlock.c:333-338 | A concrete pair of times for which the target is divided by four although it should be multiplied. |
| `Difficulty.TransitionRule` | bitwallet_blockchain/src/main/jni/bitwallet-core/BitWMerkleBlock.c:303-352 | For every such difference, a block that follows the previous one at a transition is accepted exactly when it carries the target of the rule that the comment describes. |
| `Difficulty.ChainKeeps` | bitwallet_blockchain/src/main/jni/bitwallet-core/BitWMerkleBlock.c:303-356 | In a chain of accepted blocks each names the one before it and has the next height, and the target only changes at heights that are multiples of 2016. |
| `Difficulty.ChainTurns` | bitwallet_blockchain/src/main/jni/bitwallet-core/BitWMerkleBlock.c:303-356 | At such a height, if the times are not too far apart, it becomes the previous target times the time the interval took over 1209600 seconds, both within a factor of four, at most the limit and in compact form. |
| `Difficulty.TargetOf32256` | bitwallet_blockchain/src/main/jni/bitwallet-core/BitWMerkleBlock.c:329-349 | The target of the block at height 32256 of the main chain. |
| `Difficulty.QuarterKept` | bitwallet_blockchain/src/main/jni/bitwallet-core/BitWMerkleBlock.c:329-349 | A known pair of times that is less than a quarter of two weeks apart. |
| `Difficulty.FourTimesKept` | bitwallet_blockchain/src/main/jni/bitwallet-core/BitWMerkleBlock.c:329-349 | A known pair of times that is more than four times two weeks apart. |
| `Ledger.StepRejects` | bitwallet_blockchain/src/main/jni/bitwallet-core/BitWallet.c:171-211 | An invalid or pending transaction adds to the verdicts and the history, and a pending one to the spent outputs, without touching the list of unspent outputs. |
| `Ledger.StepAccepts` | bitwallet_blockchain/src/main/jni/bitwallet-core/BitWallet.c:213-239 | After an accepted transaction the list is exactly the outputs of accepted transactions to the wallet that no transaction so far spends, invalid ones aside. |
| `Ledger.RunMeaning` | bitwallet_blockchain/src/main/jni/bitwallet-core/BitWallet.c:151-244 | The recomputation has the verdicts that are defined on the list, and its unspent outputs are those at the last accepted transaction. |
| `Ledger.InvalidIff` | bitwallet_blockchain/src/main/jni/bitwallet-core/BitWallet.c:171-182 | A transaction is invalid exactly when it is unconfirmed and an input spends an output that an input of an earlier transaction, not invalid, spends as well, or spends an earlier invalid transaction. |
| `Ledger.SpentOnce` | bitwallet_blockchain/src/main/jni/bitwallet-core/BitWallet.c:171-182 | No unconfirmed transaction that is not invalid spends an output that an earlier one that is not invalid spends. |
| `Ledger.PendingIff` | bitwallet_blockchain/src/main/jni/bitwallet-core/BitWallet.c:189-211 | Another unconfirmed transaction is pending exactly when its size exceeds 100000 bytes, an output is below 546 satoshi, an input can be replaced or is held back by the lock time, or an input spends an earlier pending transaction. |
| `Ledger.LockedIff` | bitwallet_blockchain/src/main/jni/bitwallet-core/BitWallet.c:199-203 | By any clock after 1985 a lock time holds back exactly when it is a height above that of the next block, or a time in the future. |
| `Ledger.UtxosIff` | bitwallet_blockchain/src/main/jni/bitwallet-core/BitWallet.c:213-234 | An output is listed exactly when it pays from an accepted transaction to an address of the wallet, and no transaction but invalid ones spends it that has an accepted one at or behind it. |
| `Ledger.UtxosOnce` | bitwallet_blockchain/src/main/jni/bitwallet-core/BitWallet.c:213-234 | No output is listed twice. |
| `Ledger.RunSets` | bitwallet_blockchain/src/main/jni/bitwallet-core/BitWallet.c:171-211 | Spent are exactly the outputs that inputs of transactions spend that are not invalid; the invalid and the pending ones are those with that verdict. |
| `Ledger.RunUsed` | bitwallet_blockchain/src/main/jni/bitwallet-core/BitWallet.c:217-220 | Used are exactly the addresses that accepted transactions have outputs to. |
| `Ledger.RunBalance` | bitwallet_blockchain/src/main/jni/bitwallet-core/BitWallet.c:217-239 | At the end the balance is the sum of the listed outputs, and what was received less what was sent, in 64 bits. |
| `Ledger.RunWorth` | bitwallet_blockchain/src/main/jni/bitwallet-core/BitWallet.c:213-244 | The balance is the sum of the amounts of the listed outputs, in 64 bits. |
| `Ledger.RunHistory` | bitwallet_blockchain/src/main/jni/bitwallet-core/BitWallet.c:180-244 | There is one history entry per transaction: the balance with the list up to it. |
| `Ledger.RunFlows` | bitwallet_blockchain/src/main/jni/bitwallet-core/BitWallet.c:236-239 | What was received is the sum of the rises in the history of balances, and what was sent the sum of its falls, in 64 bits. |
| `Ledger.RunKnown` | bitwallet_blockchain/src/main/jni/bitwallet-core/BitWallet.c:229-234 | Every listed output can be looked up when it is taken off. |
| `Ledger.StaleIff` | bitwallet_blockchain/src/main/jni/bitwallet-core/BitWallet.c:206-210 | A listed output is spent exactly when a pending transaction behind the last accepted one spends an output that was unspent at the last accepted one. |
| `Ledger.SpendPending` | bitwallet_blockchain/src/main/jni/bitwallet-core/BitWallet.c:186-210 | Every replaceable transaction that spends a just received output leaves it on the list. |
| `Ledger.StaleExample` | bitwallet_blockchain/src/main/jni/bitwallet-core/BitWallet.c:186-210 | A concrete list of two transactions after which an unspent output is spent. |
| `Wallets.Wallet.HasBadInput` | bitwallet_blockchain/src/main/jni/bitwallet-core/BitWallet.c:172-176 | The loop finds an input that is spent already or spends an invalid transaction, if there is one. |
| `Wallets.Wallet.CheckPending` | bitwallet_blockchain/src/main/jni/bitwallet-core/BitWallet.c:190-205 | An unconfirmed transaction is pending exactly when it is too large, has a dust output, can be replaced, is locked to the future or spends a pending one. |
| `Wallets.Wallet.AddOutputs` | bitwallet_blockchain/src/main/jni/bitwallet-core/BitWallet.c:217-226 | The outputs to the wallet are appended in order and counted in the balance; all addresses are marked as used. |
| `Wallets.Wallet.Prune` | bitwallet_blockchain/src/main/jni/bitwallet-core/BitWallet.c:228-234 | Removal in place from the end leaves the unspent outputs in order and takes the amounts of the others off the balance. |
| `Wallets.Wallet.Process` | bitwallet_blockchain/src/main/jni/bitwallet-core/BitWallet.c:168-240 | One round of the loop is one step of the specified recomputation, from any state of it. |
| `Wallets.Wallet.UpdateBalance` | bitwallet_blockchain/src/main/jni/bitwallet-core/BitWallet.c:151-244 | The fields become those of the specified recomputation, whatever they were before, with one history entry per transaction. |
| `Removal.CascadeIff` | bitwallet_blockchain/src/main/jni/bitwallet-core/BitWallet.c:766-834 | The cascade of a transaction holds exactly the transactions from which a path of listed spenders leads down to it. |
| `Removal.PathIs` | bitwallet_blockchain/src/main/jni/bitwallet-core/BitWallet.c:781-791 | A path leads from each transaction to one that an input of it spends. |
| `Removal.CascadeUnique` | bitwallet_blockchain/src/main/jni/bitwallet-core/BitWallet.c:766-834 | A transaction has one cascade. |
| `Removal.WithoutKeeps` | bitwallet_blockchain/src/main/jni/bitwallet-core/BitWallet.c:805-809 | A part of the list keeps its order by height, its distinct hashes and the heights of children. |
| `Removal.CascadeStep` | bitwallet_blockchain/src/main/jni/bitwallet-core/BitWallet.c:796-798 | Removing the cascade of a spender removes a piece of the cascade. |
| `Removal.CascadeEnd` | bitwallet_blockchain/src/main/jni/bitwallet-core/BitWallet.c:800 | The last call completes the cascade. |
| `Removal.OrderedTraceable` | bitwallet_blockchain/src/main/jni/bitwallet-core/BitWallet.c:781-783 | On a list sorted by height, with no child below its parent, no search misses a spender. |
| `Removal.TraceableWithout` | bitwallet_blockchain/src/main/jni/bitwallet-core/BitWallet.c:781-800 | If no search for the spenders of a transaction of the cascade misses one, none does after transactions are removed: the searches never stop sooner. |
| `Wallets.Wallet.Dependents` | bitwallet_blockchain/src/main/jni/bitwallet-core/BitWallet.c:781-791 | The search from the end down to the first lower transaction finds exactly the spenders above that position, on any list. |
| `Wallets.Wallet.AllDependents` | bitwallet_blockchain/src/main/jni/bitwallet-core/BitWallet.c:781-783 | When no search misses a spender, as on a list sorted by height with no child below its parent, stopping there finds every one. |
| `Wallets.Wallet.RemoveOne` | bitwallet_blockchain/src/main/jni/bitwallet-core/BitWallet.c:803-811 | The list and the set lose the transaction and keep the rest in order, and the ledger is recomputed. |
| `Wallets.Wallet.RemoveAll` | bitwallet_blockchain/src/main/jni/bitwallet-core/BitWallet.c:796-798 | The recursive calls end. When no search misses a spender, each takes a piece of the cascade; on any other list, transactions that depend on the root. |
| `Wallets.Wallet.RemoveTransaction` | bitwallet_blockchain/src/main/jni/bitwallet-core/BitWallet.c:766-834 | Removal ends on every acyclic spend graph, and the ledger is recomputed for the rest. What goes with the transaction depends on it by a path of spenders. It is exactly the cascade when no transaction of the cascade has a listed spender in front of the position where the search for its spenders stops, which every list sorted by height with no child below its parent meets; and where the search finds no spender only the transaction goes. An unknown hash changes nothing. |
| `Insertion.AscendingHeights` | bitwallet_blockchain/src/main/jni/bitwallet-core/BitWallet.c:72-76 | The comparison never contradicts the heights. |
| `Insertion.AscendingIff` | bitwallet_blockchain/src/main/jni/bitwallet-core/BitWallet.c:72-91 | A transaction belongs behind another exactly when it is higher, or as high and spends it, or as high, not spent by it and spends a known one that belongs behind it. |
| `Insertion.DependsAscending` | bitwallet_blockchain/src/main/jni/bitwallet-core/BitWallet.c:72-91 | A transaction belongs behind every one that it depends on through known transactions that are all as high. |
| `Insertion.NotAscending` | bitwallet_blockchain/src/main/jni/bitwallet-core/BitWallet.c:72-91 | When no known transaction is below one it spends, none belongs behind a transaction that depends on it. |
| `Insertion.ChainIndexMeaning` | bitwallet_blockchain/src/main/jni/bitwallet-core/BitWallet.c:60-70 | The index is that of the last address of the chain that an output pays to, and there is none exactly when no output pays to the chain. |
| `Insertion.ChainOrderMeaning` | bitwallet_blockchain/src/main/jni/bitwallet-core/BitWallet.c:98-103 | Positions in the internal chain are compared if the first transaction pays to it, and positions in the external one otherwise. |
| `Insertion.InsertedSorted` | bitwallet_blockchain/src/main/jni/bitwallet-core/BitWallet.c:113-118 | Inserting where the comparison stops keeps the list sorted by height. |
| `Insertion.InsertedKeeps` | bitwallet_blockchain/src/main/jni/bitwallet-core/BitWallet.c:107-119 | Insertion keeps hashes distinct and spending acyclic, and keeps children above their parents when the new transaction is neither below one that it spends nor above one that spends it. |
| `Insertion.UnconfirmedKeeps` | bitwallet_blockchain/src/main/jni/bitwallet-core/BitWallet.c:986-994 | Unconfirming everything above a height keeps the order by height and children above their parents. |
| `Wallets.Wallet.constructor` | bitwallet_blockchain/src/main/jni/bitwallet-core/BitWallet.c:251-273 | A new wallet is empty, with the given fee rate. |
| `Wallets.Wallet.New` | bitwallet_blockchain/src/main/jni/bitwallet-core/BitWallet.c:246-295 | The wallet over given transactions knows and lists exactly the signed ones, without repetitions and sorted by height, and has the recomputed ledger; there is none exactly when the first given one, signed or not, is not of the wallet. |
| `Wallets.Wallet.InsertGiven` | bitwallet_blockchain/src/main/jni/bitwallet-core/BitWallet.c:273-282 | The loop inserts the signed ones that are new, before the wallet has addresses, and leaves a sorted list of exactly these. |
| `Insertion.ChosenMeaning` | bitwallet_blockchain/src/main/jni/bitwallet-core/BitWallet.c:273-282 | Chosen are exactly those of the given transactions whose inputs all have signatures, of several with the same hash one. |
| `Wallets.Wallet.TxIsAscending` | bitwallet_blockchain/src/main/jni/bitwallet-core/BitWallet.c:72-91 | The recursion through known transactions ends when spending is acyclic and decides the specified order. |
| `Wallets.Wallet.TxChainIndex` | bitwallet_blockchain/src/main/jni/bitwallet-core/BitWallet.c:60-70 | The position is that of the last address of the chain that the transaction pays to, if any. |
| `Wallets.Wallet.TxCompare` | bitwallet_blockchain/src/main/jni/bitwallet-core/BitWallet.c:93-104 | The comparison goes by height and spending first, by address chains otherwise, and agrees with the heights. |
| `Wallets.Wallet.InsertTx` | bitwallet_blockchain/src/main/jni/bitwallet-core/BitWallet.c:106-119 | The list gains the transaction at one position, keeps the others in order, and stays sorted by height. The position is behind the last transaction that does not compare greater. |
| `Wallets.Wallet.BehindOthers` | bitwallet_blockchain/src/main/jni/bitwallet-core/BitWallet.c:106-119 | So the transaction is behind all lower ones; and, when no known transaction is below one it spends, behind all that it depends on through others as high as it is. |
| `Wallets.Wallet.ContainsTx` | bitwallet_blockchain/src/main/jni/bitwallet-core/BitWallet.c:121-138 | A transaction belongs to the wallet exactly when an output pays to it or an input spends one that does. |
| `Wallets.Wallet.Register` | bitwallet_blockchain/src/main/jni/bitwallet-core/BitWallet.c:722-764 | An unsigned or known transaction changes nothing; one of the wallet is listed and the ledger recomputed; a foreign one is remembered while it is unconfirmed and changes neither list nor ledger. Spending stays acyclic and listed ones stay those of the wallet; the order by height and ancestry is kept unless the new one is below one it spends or above one that spends it. |
| `Wallets.Wallet.SetTxUnconfirmedAfter` | bitwallet_blockchain/src/main/jni/bitwallet-core/BitWallet.c:977-999 | The transactions behind the last one not above the height are marked, which on a sorted list are exactly those above it. The ledger is recomputed if there were any; otherwise it is unchanged, and on a sorted list still the one that recomputing would give. |
| `Wallets.Wallet.StaysCurrent` | bitwallet_blockchain/src/main/jni/bitwallet-core/BitWallet.c:977-999 | On a sorted list with nothing above a height that transactions can have, the ledger depends neither on that height nor on the time. |
| `Removal.SearchMisses` | bitwallet_blockchain/src/main/jni/bitwallet-core/BitWallet.c:781-783 | The search for dependents misses a listed spender exactly when a transaction at or behind its position is below the height of the one removed. |
| `Updates.ReportedSorted` | bitwallet_blockchain/src/main/jni/bitwallet-core/BitWallet.c:956-970 | After heights are reported, the list, which is not sorted again, is sorted exactly when no other transaction before a reported one is above the height and none behind is below it. |
| `Updates.HiddenChild` | bitwallet_blockchain/src/main/jni/bitwallet-core/BitWallet.c:956-970 | A concrete wallet of three transactions in which confirming an unrelated one hides a child from the search that removing its parent relies on: removing the parent alone leaves the child on the list, which then holds a transaction that is no longer of the wallet. |
| `Updates.OursKept` | bitwallet_blockchain/src/main/jni/bitwallet-core/BitWallet.c:121-138 | Forgetting foreign transactions and reporting heights does not change whose a transaction is. |
| `Updates.OursIff` | bitwallet_blockchain/src/main/jni/bitwallet-core/BitWallet.c:121-138 | A transaction is the wallet's exactly when an output has one of its addresses, or an input spends an output of a known transaction that has. |
| `Updates.OursListed` | bitwallet_blockchain/src/main/jni/bitwallet-core/BitWallet.c:121-138 | A transaction that spends a listed output is the wallet's. |
| `Updates.VerdictsKeptIff` | bitwallet_blockchain/src/main/jni/bitwallet-core/BitWallet.c:151-244 | After a report no verdict changes exactly when every transaction, judged anew by the old verdicts before it, keeps its own. |
| `Updates.LedgerKeptIff` | bitwallet_blockchain/src/main/jni/bitwallet-core/BitWallet.c:964-972 | Recomputing the ledger after a report changes nothing exactly when every transaction, judged anew by the old verdicts before it, keeps its own. |
| `Updates.HarmlessIff` | bitwallet_blockchain/src/main/jni/bitwallet-core/BitWallet.c:941-975 | For a report that skips recomputing, a transaction keeps its verdict exactly when it is not a pending one whose locks are released, nor an accepted one that is reported as unconfirmed while it is too large, pays dust, is replaceable or locked, or spends what is spent, invalid or pending. |
| `Updates.SkippedIff` | bitwallet_blockchain/src/main/jni/bitwallet-core/BitWallet.c:964-972 | When the update skips recomputing, the ledger is right exactly when the report is harmless in that sense for every listed transaction. |
| `Updates.ConfirmedKeeps` | bitwallet_blockchain/src/main/jni/bitwallet-core/BitWallet.c:964-972 | When it skips recomputing for a confirmation, the ledger is right exactly when every pending transaction is still held back at the new height and time. |
| `Updates.ConfirmedRun` | bitwallet_blockchain/src/main/jni/bitwallet-core/BitWallet.c:171-205 | The ledger of confirmed transactions does not depend on the height and the time. |
| `Updates.UnconfirmedChanges` | bitwallet_blockchain/src/main/jni/bitwallet-core/BitWallet.c:964-972 | A concrete transaction of a wallet that turns from accepted to pending when it is reported as unconfirmed; the report skips recomputing, and the output stays on the list. |
| `Updates.ReportListed` | bitwallet_blockchain/src/main/jni/bitwallet-core/BitWallet.c:956-970 | Reporting one more transaction sets its height and time and leaves the others alone, in the list and in the set, and forgets it if it is foreign and confirmed; what is both listed and known stays the same in both. |
| `Updates.FreesIff` | bitwallet_blockchain/src/main/jni/bitwallet-core/BitWallet.c:956-970 | After a report the list is registered exactly when no listed foreign transaction was reported as confirmed, which forgets and frees it. |
| `Updates.ReportedLists` | bitwallet_blockchain/src/main/jni/bitwallet-core/BitWallet.c:956-970 | A list of transactions of the wallet stays one, and none of it is freed. |
| `Updates.FreedChild` | bitwallet_blockchain/src/main/jni/bitwallet-core/BitWallet.c:963-966 | The child that a removal has left behind, in the concrete wallet above, is freed while it is listed when it is reported as confirmed. |
| `Wallets.Wallet.UpdateOne` | bitwallet_blockchain/src/main/jni/bitwallet-core/BitWallet.c:957-969 | One round reports the transaction in the list and the set, forgets it if it is foreign and confirmed, listed or not, and tells whether it was one of the wallet that was pending or invalid before. |
| `Wallets.Wallet.UpdateTransactions` | bitwallet_blockchain/src/main/jni/bitwallet-core/BitWallet.c:941-975 | Exactly the given transactions get the height and the time, foreign ones are forgotten when they are confirmed, and the ledger is recomputed exactly when one of the wallet that changes was pending or invalid. It is left alone otherwise, and then it is the one that recomputing would give exactly when the report is harmless. The list stays registered exactly when it held no foreign transaction that was reported as confirmed; on a list of transactions of the wallet it always does, and every one stays one of the wallet. |
| `Wallets.Wallet.SkippedCurrent` | bitwallet_blockchain/src/main/jni/bitwallet-core/BitWallet.c:964-972 | The ledger that an update leaves alone stays the recomputed one exactly when the report is harmless. |
| `CoinSelection.TxFeeMonotonic` | bitwallet_blockchain/src/main/jni/bitwallet-core/BitWallet.c:52-58 | A larger transaction never costs less. |
| `CoinSelection.TxFeeMeaning` | bitwallet_blockchain/src/main/jni/bitwallet-core/BitWallet.c:52-58 | The fee is the larger of the least multiple of 1000 that is not below the size, and the least multiple of 100 that is not below what the rate makes of it. |
| `CoinSelection.TxFeeFits` | bitwallet_blockchain/src/main/jni/bitwallet-core/BitWallet.c:52-58 | No fee leaves 64 bits, for any size that 32-bit counts of inputs and sizes of outputs add up to. |
| `CoinSelection.MinAmountFits` | bitwallet_blockchain/src/main/jni/bitwallet-core/BitWallet.c:1126-1135 | Neither does the minimum output amount. |
| `CoinSelection.MinAmountMeaning` | bitwallet_blockchain/src/main/jni/bitwallet-core/BitWallet.c:1126-1135 | The minimum amount is the least one of at least 546 that is to 546 at least what the rate is to 5236. |
| `CoinSelection.RoundedFeeMeaning` | bitwallet_blockchain/src/main/jni/bitwallet-core/BitWallet.c:640-641 | Rounding raises the fee by less than 100 and leaves a wallet balance divisible by 100 when the funds reach. |
| `CoinSelection.InputsForMeaning` | bitwallet_blockchain/src/main/jni/bitwallet-core/BitWallet.c:597-602 | The inputs that are chosen are worth the listed outputs and have the estimated size. |
| `CoinSelection.InputsForSpend` | bitwallet_blockchain/src/main/jni/bitwallet-core/BitWallet.c:597-602 | The chosen inputs are, in order, one for each listed output that exists: they name it, carry its amount and its script, are unsigned and have the last sequence. |
| `CoinSelection.SpendsListed` | bitwallet_blockchain/src/main/jni/bitwallet-core/BitWallet.c:597-602 | The inputs of a created transaction spend the first existing outputs on the list, in order, and none twice if none is listed twice. |
| `CoinSelection.Shuffle` | bitwallet_blockchain/src/main/jni/bitwallet-core/BitWTransaction.c:489-503 | For every sequence of draws the shuffled outputs are a permutation, with the same sum and size. |
| `CoinSelection.TargetCovers` | bitwallet_blockchain/src/main/jni/bitwallet-core/BitWallet.c:637-641 | Below 252 outputs the fee aimed at covers the size of the finished transaction. |
| `CoinSelection.TooLargeIff` | bitwallet_blockchain/src/main/jni/bitwallet-core/BitWallet.c:604 | An output makes the transaction too large exactly when it exists and 148 bytes for every input, the outputs, the counts and 34 bytes for change exceed 100000. |
| `CoinSelection.SufficesIff` | bitwallet_blockchain/src/main/jni/bitwallet-core/BitWallet.c:628-643 | With an output the inputs suffice exactly when it exists and they are worth exactly the request and the rounded fee, or at least the minimum amount more. |
| `CoinSelection.Decided` | bitwallet_blockchain/src/main/jni/bitwallet-core/BitWallet.c:597-644 | The first output that makes the transaction too large or suffices decides whether the cap is hit, the size being checked first. |
| `CoinSelection.AllFit` | bitwallet_blockchain/src/main/jni/bitwallet-core/BitWallet.c:604 | The cap is never hit when a transaction that spends everything is not too large. |
| `CoinSelection.MaxAmountAffordable` | bitwallet_blockchain/src/main/jni/bitwallet-core/BitWallet.c:1161-1165 | The largest amount leaves the fee for spending everything with two outputs. |
| `CoinSelection.MaxAmountExact` | bitwallet_blockchain/src/main/jni/bitwallet-core/BitWallet.c:1161-1165 | The largest amount and the fee for spending everything with two outputs make up the balance, and it is zero exactly when the balance does not exceed the fee. |
| `Wallets.Wallet.MinOutputAmount` | bitwallet_blockchain/src/main/jni/bitwallet-core/BitWallet.c:1125-1135 | The minimum output amount is computed without leaving 64 bits and is in the range of the currency. |
| `Wallets.Wallet.SelectOne` | bitwallet_blockchain/src/main/jni/bitwallet-core/BitWallet.c:597-641 | Adding an output keeps the selected sum, the inputs and the fee aimed at in step, unless it makes the transaction too large, which is told exactly then. |
| `Wallets.Wallet.SelectCoins` | bitwallet_blockchain/src/main/jni/bitwallet-core/BitWallet.c:597-644 | For every wallet, selection tells exactly whether an output makes the transaction too large before one suffices, and what is selected then. If none does, it succeeds whenever the balance covers the fee for spending everything, despite rounding and early exits. |
| `Wallets.Wallet.Complete` | bitwallet_blockchain/src/main/jni/bitwallet-core/BitWallet.c:648-659 | A change output is added exactly when it is not uneconomical, and the finished transaction satisfies the request. |
| `Wallets.Wallet.SelectionWithoutChange` | bitwallet_blockchain/src/main/jni/bitwallet-core/BitWallet.c:643-661 | Without change, inputs are outputs plus fee, the overpayment is below the minimum amount, and the fee covers the size. |
| `Wallets.Wallet.SelectionWithChange` | bitwallet_blockchain/src/main/jni/bitwallet-core/BitWallet.c:652-659 | With change, the requested outputs survive as a multiset, inputs are outputs plus fee, the change is at least the minimum amount and the wallet balance left is divisible by 100. |
| `Wallets.Wallet.TryOutputs` | bitwallet_blockchain/src/main/jni/bitwallet-core/BitWallet.c:570-662 | For every wallet and request, a transaction that is created without hitting the size cap satisfies the request in the sense of the two rows above, with inputs that spend exactly the first existing unspent outputs; without hitting it, one is created whenever the balance covers the outputs and the fee for spending everything. When the cap is hit, the request that is tried next is computed, if any. The cap is hit exactly when an output makes the transaction too large before one suffices, and never when spending everything would fit. |
| `Wallets.Wallet.NextRequest` | bitwallet_blockchain/src/main/jni/bitwallet-core/BitWallet.c:604-626 | With too small a balance nothing is tried; otherwise the last output is reduced by what the selected inputs lack in 64-bit words, or left out when that would leave too little. |
| `Wallets.Wallet.CreateTxForOutputs` | bitwallet_blockchain/src/main/jni/bitwallet-core/BitWallet.c:570-662 | For every wallet and every request whose retries come to an end: there is no transaction if they end for lack of funds, any transaction satisfies the last request, and there is one whenever the balance covers the last request and the fee for spending everything. |
| `Wallets.Wallet.CreatedSpends` | bitwallet_blockchain/src/main/jni/bitwallet-core/BitWallet.c:597-602 | With a current ledger, a transaction that satisfies a request spends only outputs of accepted transactions to the wallet, and none twice. |
| `Retries.CapFound` | bitwallet_blockchain/src/main/jni/bitwallet-core/BitWallet.c:597-604 | The cap is hit exactly when selection stops at some position because one more input is too large, with none before it too large or sufficient. |
| `Retries.CapShort` | bitwallet_blockchain/src/main/jni/bitwallet-core/BitWallet.c:613-620 | When selection stops, the inputs are worth less than the request, the fee and an economical rest: what the last output is compared with is positive. |
| `Retries.RetriedIff` | bitwallet_blockchain/src/main/jni/bitwallet-core/BitWallet.c:608-623 | Nothing is tried exactly when the balance does not cover the request and the fee for every unspent output, by estimated sizes; otherwise the last output stays, reduced by what the inputs lack, exactly when more than the minimum amount is left of it. |
| `Retries.FollowKeeps` | bitwallet_blockchain/src/main/jni/bitwallet-core/BitWallet.c:613-623 | The request tried next is in range again; it leaves out the last output, or together with the fee it is worth exactly the selected inputs. |
| `Retries.FinalIs` | bitwallet_blockchain/src/main/jni/bitwallet-core/BitWallet.c:604-626 | The last request does not hit the cap and asks for the first of the outputs, of the last of these for another amount. |
| `Retries.FinalSame` | bitwallet_blockchain/src/main/jni/bitwallet-core/BitWallet.c:604-626 | It does not depend on the number of retries allowed for. |
| `Retries.RaisedIff` | bitwallet_blockchain/src/main/jni/bitwallet-core/BitWallet.c:613-620 | A retry asks for more of the last output than the request exactly when the selected inputs are worth more than the request and the fee. |
| `Retries.RaisedExample` | bitwallet_blockchain/src/main/jni/bitwallet-core/BitWallet.c:597-643 | A concrete wallet of 700 unspent outputs at the default fee rate in which a request for 62496000 satoshi ends as one for 62501000. |
| `Retries.EnoughIff` | bitwallet_blockchain/src/main/jni/bitwallet-core/BitWallet.c:638-643 | For a request brought down to the worth of the selected inputs, these suffice exactly when they leave a multiple of 100 satoshi of the balance: rounding raises the fee otherwise. |
| `Retries.CappedIff` | bitwallet_blockchain/src/main/jni/bitwallet-core/BitWallet.c:604-643 | Such a request hits the cap again exactly when they do not. |
| `Retries.EndsIff` | bitwallet_blockchain/src/main/jni/bitwallet-core/BitWallet.c:597-643 | A request that is tried again with a smaller last output comes to an end exactly when the selected inputs leave a multiple of 100 satoshi of the balance; otherwise every retry is too large again and followed by the next. This is for wallets that know their outputs, in which each input is worth at least 100 satoshi more than it adds to the fee, and for requests whose other outputs leave an economical rest of the inputs. |
| `Retries.EndlessExample` | bitwallet_blockchain/src/main/jni/bitwallet-core/BitWallet.c:597-643 | A concrete wallet of 700 unspent outputs at the default fee rate in which a request for 64000000 of 70000700 satoshi never comes to an end. |
| `Wallets.Wallet.LedgerCanSpend` | bitwallet_blockchain/src/main/jni/bitwallet-core/BitWallet.c:151-244 | The ledger that a recomputation leaves is one that coins can be selected from. |
| `Wallets.Wallet.MaxOutputAmount` | bitwallet_blockchain/src/main/jni/bitwallet-core/BitWallet.c:1137-1166 | The result is what the balance leaves after the fee for spending every unspent output with two outputs, whatever the size of such a transaction. |
| `Wallets.Wallet.SendMax` | bitwallet_blockchain/src/main/jni/bitwallet-core/BitWallet.c:1138-1166 | A nonzero largest amount can always be sent: creating a transaction for it does not fail. |

## Left out

- TxCodec.Serialize: what a buffer that is too short is left with is not stated, only the result: the nested writers leave it with parts of the transaction at positions that mean nothing.
- Bip39.Encode: entropies of more than 940 bytes are excluded, for which the source reads behind its buffer; what a buffer holds that is too short, part of the phrase, is not stated.
- BitWSets.BitWSet.Add: excludes a new item for a set that holds the most items the last table size allows, where the source finds no larger size to grow to.
- BitWSets.BitWSet.Union: the items of two different sets together must not exceed the item bound.
- MerkleBlocks.Walker.Root: excludes blocks of 2^31 or more transactions, whose count is negative as an int: the loop for the height of their tree does not end.
- MerkleBlocks.Walker.TxHashes: excludes the same blocks, for the same reason.
- MerkleBlocks.MatchedHashes: excludes the same blocks, for the same reason.
- MerkleBlocks.BlockDecodes: assumes that no hash of the tree is zero for the root, because the root walk takes zero for a missing branch; the remaining checks of a block (time, proof of work) are not part of the model.
- Difficulty.ShortCutIsRetarget: covers positive previous targets within the limit, of at least four bytes and with no leading byte to spare.
- Wallets.Wallet.CreateTxForOutputs: covers the requests whose retries come to an end, within any number of them; a call for another does not return. `Retries.EndsIff` says when they do for retries with a smaller last output in the wallets it describes, not for all wallets and not for retries without it. Without outputs left, the source asserts or reads in front of the array; the model excludes that for a request that hits the cap. Amounts are bounded by the currency, and counts and sizes by 32 bits, so that 64-bit sums do not wrap.
- Wallets.Wallet.UpdateTransactions: excludes reports that free a listed transaction and also recompute the ledger from the list that holds it, which is undefined in the source.
- TxCodec.Parse: excludes script lengths that wrap around the 64-bit offset, which pass the bound of the source.
- Wallets.Wallet.MaxOutputAmount: at most 2^32 - 1 unspent outputs, so that the size does not wrap.
- Wallets.Wallet.New: takes the addresses that the source derives from the master key as given; reading them and the callbacks are not modelled.
- Wallets.Wallet.RemoveTransaction: the notices that follow a removal are left out.
- Spending among the known transactions is assumed to be acyclic, which hashes guarantee and on which the recursions of the source rely.
- Equivalence of set items: modelled as equality of a key that the hash is taken of; iterating over a set, copying it out and applying a function to it are plain loops.
- Addresses of outputs in created transactions are taken over from the request instead of being derived from the scripts; addresses of inputs are not modelled.
- Choosing unused addresses, the gap limit and the callbacks of the wallet; locks, time and memory: a single thread, the current time as an input.
- Signature hashes (BIP 143 and the writers for single inputs), signing of transactions, script interpretation and address formats.
- The ChaCha20 keystream, digests, HMAC, scrypt and Murmur hashing: functions with no stated properties.
- Jacobian coordinates, constant-time masking and the build with the endomorphism of the curve; parsing and writing of DER.
- BIP 32 and BIP 38 key derivation, the payment protocol, Bloom filters and amounts in floating point.
- The wrappers for Java and logging.
