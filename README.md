# Hierarchical deterministic ed25519 wallet keys

A Dafny model of `src/utils/hd-wallet.js` of the aepp SDK: the SLIP-0010
style derivation of ed25519 keys from a seed, restricted to hardened
children, and the wallet built on it.

- `getMasterKeyFromSeed` takes the HMAC-SHA512 of the seed under the key
  "ed25519 seed". The first 32 bytes are the secret key, the last 32 the
  chain code.
- `deriveChild` refuses an index below 2^31 with
  `UnsupportedChildIndexError(index)`. Otherwise it takes the MAC of
  `0x00 ‖ parent secret ‖ index as 4 big-endian bytes` under the parent
  chain code and splits it the same way.
- `derivePathFromKey` parses a relative BIP-32 path. It rejects the first
  plain segment with `NotHardenedSegmentError` and its 1-based position
  before deriving anything. Otherwise it folds `deriveChild` over the
  segments from the left. `derivePathFromSeed` accepts only "m" or
  "m/…", and walks the rest from the master key.
- The wallet root is `m/44h/457h`. `generateSaveHDWalletFromSeed` encrypts
  both halves of the root key under a password and writes them as hex.
  `getSaveHDWalletAccounts` decrypts them and formats the accounts at
  `{idx}h/0h/0h` for every index below the count. An account is the hex
  secret key and the "ak" encoding of the public key of the ed25519 key pair
  expanded from the derived secret. `getHdWalletAccountFromSeed` does the
  same for one index, straight from the seed, and tags the result with
  the index.

The model is pure. Every source function is a Dafny function, and each
thrown error is an `Err` value of `HdError`. The cryptographic
collaborators (HMAC-SHA512, ed25519 key-pair expansion, the password
cipher, the "ak" encoder) are fields of a `Crypto` value passed as a
parameter. Their output lengths are part of their types. The two cipher
properties the wallet relies on are predicates, and only the lemmas that
need them require them.

Files: `wrappers.dfy` (Option, Result), `bytes.dfy` (unsigned 32-bit
big-endian encoding), `hex.dfy` (Buffer hex encoding and decoding),
`bip32_path.dfy` (splitting on '/', decimal indices, segment parsing),
`primitives.dfy` (the collaborators), `hd_wallet.dfy` (the operations),
`wallet_properties.dfy` (properties relating several operations).

Two details of the code are easy to misread:
- The root check compares the first two characters with "m" and "m/". A
  path such as "mx/1h" starts with "m" but is refused, and "m" alone is
  accepted.
- Only the single-account function attaches the index to the account. The
  batch returns plain accounts.

## Model

| member | source | states |
|---|---|---|
| Bytes.Uint32ToBE | src/utils/hd-wallet.js:60-61 | writes exactly 4 bytes, and reading them back big-endian gives the 32-bit index that was written |
| Bytes.EncodeDecodeUint32 | src/utils/hd-wallet.js:60-61 | every 4-byte string is the encoding of the index it reads as |
| Hex.ToHex | src/utils/hd-wallet.js:13 | toHex writes two lower-case hex digits per byte |
| Hex.FromHex | src/utils/hd-wallet.js:84-85 | decoding hex text yields at most one byte per two characters |
| Hex.FromHexToHex | src/utils/hd-wallet.js:84-85 | Buffer.from(toHex(b), 'hex') is b again, for every byte string |
| Hex.ToHexFromHex | src/utils/hd-wallet.js:84-85 | even-length lower-case hex text is re-encoded to itself after decoding |
| Bip32Path.NatToDecimal | src/utils/hd-wallet.js:89 | the text `${idx}` is at least one decimal digit, reads back as idx, and has no leading zero unless idx is 0 |
| Bip32Path.Split | src/utils/hd-wallet.js:16 | splitting on '/' gives one more piece than the text has separators |
| Bip32Path.SplitPiecesNoSlash | src/utils/hd-wallet.js:16 | no piece of a split text contains '/' |
| Bip32Path.JoinSplit | src/utils/hd-wallet.js:16 | joining the '/'-pieces of a path with '/' gives the path back |
| Bip32Path.SplitJoin | src/utils/hd-wallet.js:16 | splitting pieces without '/' after joining them gives the pieces back |
| Bip32Path.SplitConcat | src/utils/hd-wallet.js:16 | the pieces of "p/q" are the pieces of p followed by those of q |
| Bip32Path.ParseSegment | src/utils/hd-wallet.js:16 | a parsed segment is below 2^32, and it is 2^31 or more exactly when it ends in a hardened marker |
| Bip32Path.ParseSegments | src/utils/hd-wallet.js:16 | parsed pieces give one index below 2^32 per piece |
| Bip32Path.ParseSegmentsFirstError | src/utils/hd-wallet.js:16 | a failed parse reports the error of the first piece that does not parse, every earlier piece parsing |
| Bip32Path.ParseSegmentsPointwise | src/utils/hd-wallet.js:16 | a path's pieces parse exactly when each one does, and then to their values in order |
| Bip32Path.ParsePath | src/utils/hd-wallet.js:16 | a parsed path has one index below 2^32 per '/'-separated piece |
| Bip32Path.ParseSegmentsConcat | src/utils/hd-wallet.js:16 | parsing two runs of pieces one after the other gives the concatenation of their indices |
| Bip32Path.HardenedSegmentParses | src/utils/hd-wallet.js:89 | the segment `${n}h` parses to n + 2^31 for every n below 2^31 |
| Bip32Path.PlainSegmentParses | src/utils/hd-wallet.js:16 | the unmarked segment `${n}` parses to n, below the hardened offset |
| Bip32Path.ParseFormatHardened | src/utils/hd-wallet.js:89 | indices below 2^31 written as `i1h/…/ikh` parse back to each index plus 2^31, in order |
| HdWallet.CurveKeyIsAscii | src/utils/hd-wallet.js:10 | the master-key MAC key is the 12 ASCII bytes of "ed25519 seed" |
| HdWallet.SplitMac | src/utils/hd-wallet.js:48-53 | the two 32-byte halves of the 64-byte MAC rebuild the MAC |
| HdWallet.GetMasterKeyFromSeed | src/utils/hd-wallet.js:46-54 | the master key's halves are the MAC of the seed under "ed25519 seed" |
| HdWallet.ChildMessage | src/utils/hd-wallet.js:60-63 | the MAC input is a zero byte, the parent secret, then 4 bytes reading back as the index (37 bytes for a 32-byte secret) |
| HdWallet.DeriveChild | src/utils/hd-wallet.js:56-72 | an index below 2^31 fails with UnsupportedChildIndex(index), one of 2^32 or more fails as out of range, any other yields the halves of the MAC of ChildMessage under the parent chain code |
| HdWallet.FoldDeriveChild | src/utils/hd-wallet.js:23 | the left fold returns the start key for no segments and succeeds exactly when every segment is derivable |
| HdWallet.FoldDeriveChildAppend | src/utils/hd-wallet.js:23 | folding over p + q is folding over p, then over q from its result |
| HdWallet.FirstNotHardened | src/utils/hd-wallet.js:17-21 | finds the first segment below 2^31, with every segment before it hardened, or none when all are hardened |
| HdWallet.PathSegments | src/utils/hd-wallet.js:16 | the empty path has no segments; a parsed path has one index per '/'-separated piece, each below 2^32 |
| HdWallet.DerivePathFromKey | src/utils/hd-wallet.js:15-24 | "" returns the key; a syntax error is reported; a plain segment fails with its 1-based position whatever the key; an all-hardened path is the fold of deriveChild |
| HdWallet.DerivePathFromSeed | src/utils/hd-wallet.js:26-32 | fails with InvalidDerivationPath exactly when the path is neither "m" nor "m/…"; otherwise walks the rest from the master key |
| HdWallet.RootPathSegments | src/utils/hd-wallet.js:75 | "m/44h/457h" carries the root marker and parses to 44 + 2^31 and 457 + 2^31 |
| HdWallet.AccountPath | src/utils/hd-wallet.js:89 | the template `${idx}h/0h/0h` is idx, 0 and 0 written as hardened segments joined by '/' |
| HdWallet.AccountPathSegments | src/utils/hd-wallet.js:89 | the account path parses to idx + 2^31, 2^31, 2^31 for idx below 2^31, and is too large otherwise |
| HdWallet.GetKeyPair | src/utils/hd-wallet.js:42-44 | the key pair is expanded exactly when the secret has 32 bytes, and the bad seed size is reported otherwise |
| HdWallet.FormatAccount | src/utils/hd-wallet.js:34-40 | the account secret is 128 lower-case hex digits that decode to the key-pair secret; the public key is its "ak" encoding |
| HdWallet.AccountAt | src/utils/hd-wallet.js:88-89 | an account exists exactly for indices below 2^31; a larger index fails as a path syntax error |
| HdWallet.AccountAtDerives | src/utils/hd-wallet.js:89 | the account at idx is formatted from the key pair of the key three hardened steps (idx, 0, 0) below the wallet key |
| HdWallet.AccountsUpTo | src/utils/hd-wallet.js:87-89 | a count up to 2^31 yields that many accounts; a larger count fails at index 2^31 |
| HdWallet.AccountsUpToPointwise | src/utils/hd-wallet.js:87-89 | the i-th account of the batch is the account at index i |
| HdWallet.WalletRootKey | src/utils/hd-wallet.js:75 | the root key is what derivePathFromSeed("m/44h/457h") returns: the master key folded over 44h and 457h, never a failure |
| HdWallet.GenerateSaveHDWalletFromSeed | src/utils/hd-wallet.js:74-80 | each saved field is lower-case hex, two digits per ciphertext byte, that decodes to the encryption of that half of the root key |
| HdWallet.DecryptSavedWallet | src/utils/hd-wallet.js:83-86 | succeeds exactly when both hex-decoded halves decrypt, giving back those plaintexts |
| HdWallet.GetSaveHDWalletAccounts | src/utils/hd-wallet.js:82-90 | a decryption failure fails the whole call; after decryption a count of 2^32 or more fails as an invalid array length, one above 2^31 fails at index 2^31, and otherwise the result is the count many accounts below the decrypted root, one per index |
| HdWallet.GetHdWalletAccountFromSeed | src/utils/hd-wallet.js:92-100 | succeeds exactly for indices below 2^31 and fails as a path syntax error (index too large) otherwise, tags the account with the requested index, and the account is the one at that index below the root |
| WalletProperties.DerivePathFromKeyCompose | src/utils/hd-wallet.js:15-24 | walking "p/q" from a key is walking p, then q from where p ended |
| WalletProperties.ThreeSegmentPath | src/utils/hd-wallet.js:16 | a path of three pieces that each parse has exactly their three values as segments |
| WalletProperties.PlainSegmentRejected | src/utils/hd-wallet.js:17-21 | a path hardened/plain/anything fails with NotHardenedSegment(2) for every key and every primitive |
| WalletProperties.ChildMessageInjective | src/utils/hd-wallet.js:60-63 | equal MAC inputs mean equal parent secrets and equal indices |
| WalletProperties.AccountMessagesDiffer | src/utils/hd-wallet.js:89 | accounts at distinct indices feed distinct messages to the first MAC below the root |
| WalletProperties.DerivePathFromSeedCompose | src/utils/hd-wallet.js:26-32 | from a seed, "m/p/q" is q walked from the key "m/p" reaches |
| WalletProperties.RootThenRelative | src/utils/hd-wallet.js:93-94 | any non-empty all-hardened path q: m/44h/457h/q from the seed is q from the wallet root key |
| WalletProperties.SeedPathThroughRoot | src/utils/hd-wallet.js:93-94 | m/44h/457h/{idx}h/0h/0h from the seed is {idx}h/0h/0h from the wallet root key |
| WalletProperties.AccountKeyFromSeed | src/utils/hd-wallet.js:93-94 | the account key of idx is the master key folded over 44h, 457h, {idx}h, 0h, 0h |
| WalletProperties.AccountFromSeedDerives | src/utils/hd-wallet.js:92-100 | getHdWalletAccountFromSeed formats the key pair of that five-step key and tags it with idx |
| WalletProperties.AccountAtFullPath | src/utils/hd-wallet.js:92-100 | the single account of idx is the one at the full path m/44h/457h/{idx}h/0h/0h from the seed |
| WalletProperties.SavedWalletRoundTrip | src/utils/hd-wallet.js:74-86 | decrypting a saved wallet under its own password gives back exactly the root key |
| WalletProperties.WrongPasswordRejected | src/utils/hd-wallet.js:82-86 | under any other password the accounts call fails with the decryption failure |
| WalletProperties.BatchMatchesSingle | src/utils/hd-wallet.js:82-100 | the saved wallet's first n accounts are, index by index, the single accounts from the seed without their label; a count above 2^31 fails as a path syntax error, and one of 2^32 or more as an invalid array length |

## Left out

- The primitives are parameters, not implementations. The HMAC-SHA512 of tweetnacl-auth, tweetnacl's `sign.keyPair.fromSeed`, and `encode(…, 'ak')` from `src/tx/builder/helpers` are not part of this model.
- `src/utils/crypto.js` (encryptKey, decryptKey) is not part of this model. Decryption is a function returning None when the cipher rejects its input. "Decrypt inverts encrypt" and "a wrong password is rejected" are assumptions (`DecryptInvertsEncrypt`, `WrongPasswordFails`) that only the lemmas needing them require.
- The bip32-path package is not part of this model. `Bip32Path.ParseSegment` reads its notation strictly: decimal digits below 2^31, then an optional marker h, H or '. That package matches each piece with an unanchored pattern, so it also accepts pieces with extra characters around the digits (reading "1e+21h" as 1); such spellings are not captured. Its error messages are reduced to MalformedSegment and IndexTooLarge.
- WalletProperties.AccountMessagesDiffer: states only that the MAC inputs of distinct accounts differ. That the accounts themselves differ needs the MAC to be collision-free, which is a property of HMAC-SHA512 and is not modelled.
- Bip32Path.ParsePath, HdWallet.PathSegments, HdWallet.DerivePathFromKey: bip32-path drops a leading "m/" or "M/" from the text it is given, even when no root is required, so the source walks "m/1h" from a key as "1h" and walks "m/m/1h" from a seed as "1h" below the master key. The model splits such a path as it is and reports PathSyntax(MalformedSegment) for the "m" piece. The wallet's own paths never start that way below the root.
- Determinism needs no lemma: every operation is a function of its inputs.
- Indices and counts are natural numbers. A negative, fractional or non-numeric `accountIdx` or `accountCount` (a RangeError from `new Array`, or a "-1h" segment) is not modelled.
- HdWallet.AccountPath, HdWallet.AccountAt, HdWallet.GetHdWalletAccountFromSeed: the account path always writes the index in plain decimal. JavaScript writes numbers of 10^21 and above in exponent notation, so the source builds "1e+21h/0h/0h"; bip32-path matches each piece with an unanchored pattern and reads "1e+21h" as the plain index 1, so the source fails with NotHardenedSegment at position 1. The model reports PathSyntax(IndexTooLarge) for every index of 2^31 or more, these included.
- Error values stand for thrown exceptions. The message texts are not modelled.
- Zeroing of secret buffers and caller-side parallelism have no counterpart in a pure model.
