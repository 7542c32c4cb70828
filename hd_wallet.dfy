/**
 * Hierarchical deterministic keys for ed25519 after SLIP-0010: the master key
 * of a seed, hardened child derivation, walking a BIP-32 path, and the
 * wallet built on them (root m/44'/457', accounts at {idx}'/0'/0' below it,
 * the root kept encrypted under a password).
 */
module HdWallet {
  import opened Wrappers
  import opened Bytes
  import opened Hex
  import opened Bip32Path
  import opened Primitives

  /** The HMAC key of the master key: the ASCII bytes of "ed25519 seed". */
  const ED25519_CURVE: seq<uint8> := [0x65, 0x64, 0x32, 0x35, 0x35, 0x31, 0x39, 0x20, 0x73, 0x65, 0x65, 0x64]

  /** The curve key is the text "ed25519 seed", one ASCII byte per character. */
  lemma CurveKeyIsAscii()
    ensures |ED25519_CURVE| == |"ed25519 seed"|
    ensures forall i :: 0 <= i < |ED25519_CURVE| ==> ED25519_CURVE[i] == "ed25519 seed"[i] as int
  {
  }

  /** The wallet root: purpose 44, coin type 457, both hardened. */
  const ROOT_PATH: string := "m/44h/457h"

  const TWO_TO_32: int := 0x1_0000_0000

  datatype ExtendedKey = ExtendedKey(secretKey: seq<uint8>, chainCode: seq<uint8>)

  /** An account as callers see it: the secret key in hex and the "ak" public key. */
  datatype Account = Account(secretKey: string, publicKey: string)

  /** An account with the index it was requested for, a label only. */
  datatype IndexedAccount = IndexedAccount(account: Account, idx: nat)

  /** The persisted root: each half encrypted under the password, then hex-encoded. */
  datatype SavedWallet = SavedWallet(secretKey: string, chainCode: string)

  datatype HdError =
    | InvalidDerivationPath          // a seed path that does not start at the root "m"
    | NotHardenedSegment(position: nat) // 1-based position of the first plain segment
    | UnsupportedChildIndex(index: int)
    | IndexOutOfRange(index: int)    // an index that does not fit the 4-byte field
    | PathSyntax(cause: PathError)   // the path text itself does not parse
    | BadSeedSize                    // the key-pair expansion needs exactly 32 bytes
    | DecryptionFailed
    | InvalidArrayLength(length: nat) // `new Array(n)` refuses a length of 2^32 or more

  predicate IsFullKey(k: ExtendedKey) {
    |k.secretKey| == 32 && |k.chainCode| == 32
  }

  /** An index deriveChild turns into a key: hardened and within 32 bits. */
  predicate Derivable(index: int) {
    HARDENED_OFFSET <= index < TWO_TO_32
  }

  predicate AllHardened(segments: seq<int>) {
    forall i :: 0 <= i < |segments| ==> segments[i] >= HARDENED_OFFSET
  }

  // ---------------------------------------------------------------- keys

  /** The two halves of a 64-byte MAC: the secret key first, the chain code second. */
  function SplitMac(mac: Bytes64): (k: ExtendedKey)
    ensures IsFullKey(k)
    ensures k.secretKey + k.chainCode == mac
  {
    ExtendedKey(mac[..32], mac[32..])
  }

  /** The master key: the MAC of the seed under the fixed key "ed25519 seed". */
  function GetMasterKeyFromSeed(c: Crypto, seed: seq<uint8>): (k: ExtendedKey)
    ensures IsFullKey(k)
    ensures k.secretKey + k.chainCode == c.hmac(seed, ED25519_CURVE)
  {
    SplitMac(c.hmac(seed, ED25519_CURVE))
  }

  /** The MAC input of a hardened child: a zero byte, the parent secret, the index big-endian. */
  function ChildMessage(secretKey: seq<uint8>, index: uint32): (m: seq<uint8>)
    ensures |m| == |secretKey| + 5
    ensures m[0] == 0 && m[1..|secretKey| + 1] == secretKey
    ensures BEToUint32(m[|secretKey| + 1..]) == index
  {
    var m := [0] + secretKey + Uint32ToBE(index);
    assert m[|secretKey| + 1..] == Uint32ToBE(index);
    m
  }

  /** One hardened derivation step: the MAC of ChildMessage under the parent's chain code. */
  function DeriveChild(c: Crypto, parent: ExtendedKey, index: int): (r: Result<ExtendedKey, HdError>)
    ensures index < HARDENED_OFFSET ==> r == Err(UnsupportedChildIndex(index))
    ensures index >= TWO_TO_32 ==> r == Err(IndexOutOfRange(index))
    ensures Derivable(index) ==>
      && r.Ok?
      && IsFullKey(r.value)
      && r.value.secretKey + r.value.chainCode == c.hmac(ChildMessage(parent.secretKey, index), parent.chainCode)
  {
    if index < HARDENED_OFFSET then Err(UnsupportedChildIndex(index))
    else if index >= TWO_TO_32 then Err(IndexOutOfRange(index))
    else Ok(SplitMac(c.hmac(ChildMessage(parent.secretKey, index), parent.chainCode)))
  }

  /** deriveChild folded over the segments from the left, stopping at the first failure. */
  function FoldDeriveChild(c: Crypto, key: ExtendedKey, segments: seq<int>): (r: Result<ExtendedKey, HdError>)
    ensures segments == [] ==> r == Ok(key)
    ensures r.Ok? <==> forall i :: 0 <= i < |segments| ==> Derivable(segments[i])
    ensures r.Ok? && segments != [] ==> IsFullKey(r.value)
    decreases |segments|
  {
    if segments == [] then Ok(key)
    else match DeriveChild(c, key, segments[0])
      case Err(e) => Err(e)
      case Ok(child) =>
        var rest := FoldDeriveChild(c, child, segments[1..]);
        assert forall i :: 1 <= i < |segments| ==> segments[i] == segments[1..][i - 1];
        rest
  }

  /** Folding over a concatenation is folding over the first part, then over the second from its result. */
  lemma {:induction false} FoldDeriveChildAppend(c: Crypto, key: ExtendedKey, p: seq<int>, q: seq<int>)
    ensures FoldDeriveChild(c, key, p + q) ==
      match FoldDeriveChild(c, key, p)
      case Err(e) => Err(e)
      case Ok(k) => FoldDeriveChild(c, k, q)
    decreases |p|
  {
    if p == [] {
      assert p + q == q;
    } else {
      TailOfConcat(p, q);
      match DeriveChild(c, key, p[0])
      case Err(e) =>
      case Ok(child) => FoldDeriveChildAppend(c, child, p[1..], q);
    }
  }

  // ---------------------------------------------------------------- paths

  /** The 0-based index of the first segment below the hardened offset, if any. */
  function FirstNotHardened(segments: seq<int>): (r: Option<nat>)
    ensures r.None? <==> AllHardened(segments)
    ensures r.Some? ==>
      && r.value < |segments|
      && segments[r.value] < HARDENED_OFFSET
      && AllHardened(segments[..r.value])
  {
    if segments == [] then None
    else if segments[0] < HARDENED_OFFSET then Some(0)
    else match FirstNotHardened(segments[1..])
      case None =>
        assert forall i :: 1 <= i < |segments| ==> segments[i] == segments[1..][i - 1];
        None
      case Some(i) =>
        assert segments[..i + 1] == [segments[0]] + segments[1..][..i];
        Some(i + 1)
  }

  /**
   * The segments of a key-relative path: none for the empty path, otherwise
   * one index below 2^32 for each '/'-separated piece.
   */
  function PathSegments(path: string): (r: Result<seq<nat>, PathError>)
    ensures path == "" ==> r == Ok([])
    ensures path != "" && r.Ok? ==> |r.value| == |Split(path)|
    ensures r.Ok? ==> forall i :: 0 <= i < |r.value| ==> r.value[i] < 0x1_0000_0000
  {
    if path == "" then Ok([]) else ParsePath(path)
  }

  /**
   * Walks a key-relative path from `key`. Every segment is checked before
   * any derivation, so a plain segment fails the whole walk whatever the key.
   */
  function DerivePathFromKey(c: Crypto, path: string, key: ExtendedKey): (r: Result<ExtendedKey, HdError>)
    ensures path == "" ==> r == Ok(key)
    ensures PathSegments(path).Err? ==> r == Err(PathSyntax(PathSegments(path).error))
    ensures PathSegments(path).Ok? && !AllHardened(PathSegments(path).value) ==>
      && r.Err? && r.error.NotHardenedSegment?
      && var segments, n := PathSegments(path).value, r.error.position;
      && 1 <= n <= |segments|
      && segments[n - 1] < HARDENED_OFFSET
      && AllHardened(segments[..n - 1])
    ensures PathSegments(path).Ok? && AllHardened(PathSegments(path).value) ==>
      && r == FoldDeriveChild(c, key, PathSegments(path).value)
      && r.Ok?
      && (path != "" ==> IsFullKey(r.value))
    ensures r != Err(InvalidDerivationPath)
  {
    match PathSegments(path)
    case Err(e) => Err(PathSyntax(e))
    case Ok(segments) =>
      match FirstNotHardened(segments)
      case Some(i) => Err(NotHardenedSegment(i + 1))
      case None => FoldDeriveChild(c, key, segments)
  }

  /** A seed path starts with the root marker: it is "m" or begins with "m/". */
  predicate HasRootMarker(path: string) {
    path == "m" || (|path| >= 2 && path[..2] == "m/")
  }

  /** Walks a path from the master key of the seed, after checking the first two characters. */
  function DerivePathFromSeed(c: Crypto, path: string, seed: seq<uint8>): (r: Result<ExtendedKey, HdError>)
    ensures r == Err(InvalidDerivationPath) <==> !HasRootMarker(path)
    ensures path == "m" ==> r == Ok(GetMasterKeyFromSeed(c, seed))
    ensures |path| >= 2 && path[..2] == "m/" ==> r == DerivePathFromKey(c, path[2..], GetMasterKeyFromSeed(c, seed))
  {
    var head := if |path| < 2 then path else path[..2];
    if head != "m" && head != "m/" then Err(InvalidDerivationPath)
    else DerivePathFromKey(c, if |path| < 2 then "" else path[2..], GetMasterKeyFromSeed(c, seed))
  }

  /**
   * The account path relative to the root, as the template `${idx}h/0h/0h`
   * writes it: idx, 0 and 0 as hardened segments.
   */
  function AccountPath(idx: nat): (s: string)
    ensures s == FormatHardened([idx, 0, 0])
  {
    var d := NatToDecimal(idx);
    assert DigitChar(0) == '0';
    assert NatToDecimal(0) + "h" == "0h";
    HardenedPartsOfThree(idx, 0, 0);
    assert HardenedParts([idx, 0, 0]) == [d + "h", "0h", "0h"];
    JoinOfThree(d + "h", "0h", "0h");
    assert d + "h" + "/" + "0h" + "/" + "0h" == d + "h/0h/0h";
    d + "h/0h/0h"
  }

  lemma RootPathText()
    ensures ROOT_PATH[2..] == FormatHardened([44, 457])
  {
    assert NatToDecimal(4) == "4" && NatToDecimal(5) == "5" && NatToDecimal(7) == "7";
    assert NatToDecimal(44) == "44" && NatToDecimal(45) == "45";
    assert NatToDecimal(457) == "457";
    HardenedPartsOfTwo(44, 457);
    JoinOfTwo("44h", "457h");
  }

  /** Purpose 44 and coin type 457, formatted hardened, parse back to themselves plus the offset. */
  lemma RootIndicesParse()
    ensures ParsePath(FormatHardened([44, 457])) == Ok([44 + HARDENED_OFFSET, 457 + HARDENED_OFFSET])
  {
    var indices: seq<nat> := [44, 457];
    ParseFormatHardened(indices);
    var r := ParsePath(FormatHardened(indices));
    assert r.value == [44 + HARDENED_OFFSET, 457 + HARDENED_OFFSET];
  }

  /** The root path parses to purpose 44 and coin type 457, both hardened. */
  lemma RootPathSegments()
    ensures HasRootMarker(ROOT_PATH)
    ensures PathSegments(ROOT_PATH[2..]) == Ok([44 + HARDENED_OFFSET, 457 + HARDENED_OFFSET])
  {
    RootPathMarker();
    RootPathText();
    RootIndicesParse();
  }

  lemma RootPathMarker()
    ensures HasRootMarker(ROOT_PATH) && ROOT_PATH[2..] != ""
  {
  }

  /** The account path of an index below 2^31 parses to that index and two zeros, all hardened. */
  lemma AccountPathSegments(idx: nat)
    ensures idx < HARDENED_OFFSET ==>
      PathSegments(AccountPath(idx)) == Ok([idx + HARDENED_OFFSET, HARDENED_OFFSET, HARDENED_OFFSET])
    ensures idx >= HARDENED_OFFSET ==> PathSegments(AccountPath(idx)) == Err(IndexTooLarge)
  {
    var text := FormatHardened([idx, 0, 0]);
    assert AccountPath(idx) == text && text != "";
    if idx < HARDENED_OFFSET {
      ParseFormatHardened([idx, 0, 0]);
      var r := ParsePath(text);
      assert |r.value| == 3;
      assert r.value == [idx + HARDENED_OFFSET, HARDENED_OFFSET, HARDENED_OFFSET];
    } else {
      var d := NatToDecimal(idx);
      var parts := HardenedParts([idx, 0, 0]);
      assert parts[0] == d + "h";
      assert forall k :: 0 <= k < |parts| ==> '/' !in parts[k] by {
        HardenedPartsNoSlash([idx, 0, 0]);
      }
      SplitJoin(parts);
      assert (d + "h")[..|d|] == d;
      assert ParseSegment(parts[0]) == Err(IndexTooLarge);
    }
  }

  // ---------------------------------------------------------------- accounts

  /** nacl.sign.keyPair.fromSeed, which accepts only a 32-byte seed. */
  function GetKeyPair(c: Crypto, secretKey: seq<uint8>): (r: Result<KeyPair, HdError>)
    ensures r.Ok? <==> |secretKey| == 32
    ensures r.Ok? ==> r.value == c.keyPairFromSeed(secretKey)
    ensures r.Err? ==> r.error == BadSeedSize
  {
    if |secretKey| != 32 then Err(BadSeedSize) else Ok(c.keyPairFromSeed(secretKey))
  }

  /** The secret key as lower-case hex text, which decodes to it, and the "ak" public key. */
  function FormatAccount(c: Crypto, keys: KeyPair): (a: Account)
    ensures |a.secretKey| == 128
    ensures forall i :: 0 <= i < |a.secretKey| ==> IsLowerHexDigit(a.secretKey[i])
    ensures FromHex(a.secretKey) == keys.secretKey
    ensures a.publicKey == c.encodeAk(keys.publicKey)
  {
    FromHexToHex(keys.secretKey);
    Account(ToHex(keys.secretKey), c.encodeAk(keys.publicKey))
  }

  /** The account at `idx` below a wallet key: derive {idx}h/0h/0h, expand, format. */
  function AccountAt(c: Crypto, walletKey: ExtendedKey, idx: nat): (r: Result<Account, HdError>)
    ensures r.Ok? <==> idx < HARDENED_OFFSET
    ensures idx >= HARDENED_OFFSET ==> r == Err(PathSyntax(IndexTooLarge))
  {
    AccountPathSegments(idx);
    match DerivePathFromKey(c, AccountPath(idx), walletKey)
    case Err(e) => Err(e)
    case Ok(derived) =>
      match GetKeyPair(c, derived.secretKey)
      case Err(e) => Err(e)
      case Ok(keys) => Ok(FormatAccount(c, keys))
  }

  /** The account at `idx` is formatted from the key three hardened steps below the wallet key. */
  lemma AccountAtDerives(c: Crypto, walletKey: ExtendedKey, idx: nat)
    requires idx < HARDENED_OFFSET
    ensures var d := FoldDeriveChild(c, walletKey, [idx + HARDENED_OFFSET, HARDENED_OFFSET, HARDENED_OFFSET]);
      && d.Ok? && IsFullKey(d.value)
      && AccountAt(c, walletKey, idx) == Ok(FormatAccount(c, c.keyPairFromSeed(d.value.secretKey)))
  {
    AccountPathSegments(idx);
  }

  /** The accounts 0 .. n-1 in index order; the lowest index that fails decides the error. */
  function AccountsUpTo(c: Crypto, walletKey: ExtendedKey, n: nat): (r: Result<seq<Account>, HdError>)
    ensures n <= HARDENED_OFFSET ==> r.Ok? && |r.value| == n
    ensures n > HARDENED_OFFSET ==> r == Err(PathSyntax(IndexTooLarge))
  {
    if n == 0 then Ok([])
    else match AccountsUpTo(c, walletKey, n - 1)
      case Err(e) => Err(e)
      case Ok(prefix) =>
        match AccountAt(c, walletKey, n - 1)
        case Err(e) => Err(e)
        case Ok(a) => Ok(prefix + [a])
  }

  /** The i-th account of the batch is the account at index i. */
  lemma {:induction false} AccountsUpToPointwise(c: Crypto, walletKey: ExtendedKey, n: nat)
    ensures AccountsUpTo(c, walletKey, n).Ok? ==>
      forall i :: 0 <= i < n ==> AccountAt(c, walletKey, i) == Ok(AccountsUpTo(c, walletKey, n).value[i])
  {
    if n > 0 && AccountsUpTo(c, walletKey, n).Ok? {
      AccountsUpToPointwise(c, walletKey, n - 1);
      var prefix := AccountsUpTo(c, walletKey, n - 1).value;
      var a := AccountAt(c, walletKey, n - 1).value;
      var accounts := AccountsUpTo(c, walletKey, n).value;
      assert accounts == prefix + [a];
      forall i | 0 <= i < n ensures AccountAt(c, walletKey, i) == Ok(accounts[i]) {
        if i < n - 1 { assert accounts[i] == prefix[i]; }
      }
    }
  }

  // ---------------------------------------------------------------- wallet

  /** The root key m/44h/457h of a seed; deriving it never fails. */
  function WalletRootKey(c: Crypto, seed: seq<uint8>): (k: ExtendedKey)
    ensures DerivePathFromSeed(c, ROOT_PATH, seed) == Ok(k)
    ensures FoldDeriveChild(c, GetMasterKeyFromSeed(c, seed), [44 + HARDENED_OFFSET, 457 + HARDENED_OFFSET]) == Ok(k)
    ensures IsFullKey(k)
  {
    RootPathSegments();
    DerivePathFromSeed(c, ROOT_PATH, seed).value
  }

  /** Encrypts each half of the root key under the password and writes it as hex. */
  function GenerateSaveHDWalletFromSeed(c: Crypto, seed: seq<uint8>, password: string): (w: SavedWallet)
    ensures FromHex(w.secretKey) == c.encryptKey(password, WalletRootKey(c, seed).secretKey)
    ensures FromHex(w.chainCode) == c.encryptKey(password, WalletRootKey(c, seed).chainCode)
    ensures forall i :: 0 <= i < |w.secretKey| ==> IsLowerHexDigit(w.secretKey[i])
    ensures forall i :: 0 <= i < |w.chainCode| ==> IsLowerHexDigit(w.chainCode[i])
    ensures |w.secretKey| == 2 * |c.encryptKey(password, WalletRootKey(c, seed).secretKey)|
    ensures |w.chainCode| == 2 * |c.encryptKey(password, WalletRootKey(c, seed).chainCode)|
  {
    var walletKey := WalletRootKey(c, seed);
    var secretKey := c.encryptKey(password, walletKey.secretKey);
    var chainCode := c.encryptKey(password, walletKey.chainCode);
    FromHexToHex(secretKey);
    FromHexToHex(chainCode);
    SavedWallet(ToHex(secretKey), ToHex(chainCode))
  }

  /** Reads both halves from hex and decrypts them; either half failing fails the whole. */
  function DecryptSavedWallet(c: Crypto, saved: SavedWallet, password: string): (r: Result<ExtendedKey, HdError>)
    ensures r.Ok? <==>
      && c.decryptKey(password, FromHex(saved.secretKey)).Some?
      && c.decryptKey(password, FromHex(saved.chainCode)).Some?
    ensures r.Ok? ==>
      && c.decryptKey(password, FromHex(saved.secretKey)) == Some(r.value.secretKey)
      && c.decryptKey(password, FromHex(saved.chainCode)) == Some(r.value.chainCode)
    ensures r.Err? ==> r.error == DecryptionFailed
  {
    var secretKey := c.decryptKey(password, FromHex(saved.secretKey));
    var chainCode := c.decryptKey(password, FromHex(saved.chainCode));
    if secretKey.None? || chainCode.None? then Err(DecryptionFailed)
    else Ok(ExtendedKey(secretKey.value, chainCode.value))
  }

  /**
   * The first `accountCount` accounts below the decrypted root. Both halves
   * are decrypted before the array of `accountCount` slots is allocated, and
   * that allocation fails for a length of 2^32 or more before any account
   * is derived.
   */
  function GetSaveHDWalletAccounts(c: Crypto, saved: SavedWallet, password: string, accountCount: nat)
    : (r: Result<seq<Account>, HdError>)
    ensures DecryptSavedWallet(c, saved, password).Err? ==> r == Err(DecryptionFailed)
    ensures DecryptSavedWallet(c, saved, password).Ok? && accountCount <= HARDENED_OFFSET ==>
      r.Ok? && |r.value| == accountCount
    ensures DecryptSavedWallet(c, saved, password).Ok? && HARDENED_OFFSET < accountCount < TWO_TO_32 ==>
      r == Err(PathSyntax(IndexTooLarge))
    ensures DecryptSavedWallet(c, saved, password).Ok? && accountCount >= TWO_TO_32 ==>
      r == Err(InvalidArrayLength(accountCount))
    ensures r.Ok? ==> |r.value| == accountCount && forall i :: 0 <= i < accountCount ==>
      AccountAt(c, DecryptSavedWallet(c, saved, password).value, i) == Ok(r.value[i])
  {
    match DecryptSavedWallet(c, saved, password)
    case Err(e) => Err(e)
    case Ok(walletKey) =>
      if accountCount >= TWO_TO_32 then Err(InvalidArrayLength(accountCount))
      else
        AccountsUpToPointwise(c, walletKey, accountCount);
        AccountsUpTo(c, walletKey, accountCount)
  }

  /** One account straight from the seed, tagged with the index it was asked for. */
  function GetHdWalletAccountFromSeed(c: Crypto, seed: seq<uint8>, accountIdx: nat): (r: Result<IndexedAccount, HdError>)
    ensures r.Ok? <==> accountIdx < HARDENED_OFFSET
    ensures accountIdx >= HARDENED_OFFSET ==> r == Err(PathSyntax(IndexTooLarge))
    ensures r.Ok? ==>
      && r.value.idx == accountIdx
      && AccountAt(c, WalletRootKey(c, seed), accountIdx) == Ok(r.value.account)
  {
    match AccountAt(c, WalletRootKey(c, seed), accountIdx)
    case Err(e) => Err(e)
    case Ok(a) => Ok(IndexedAccount(a, accountIdx))
  }
}
