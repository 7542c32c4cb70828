/**
 * Properties that relate several wallet operations: path composition, the
 * encrypted round trip of the root key, batch generation against single
 * derivation, and the rejection of plain segments and wrong passwords.
 */
module WalletProperties {
  import opened Wrappers
  import opened Bytes
  import opened Hex
  import opened Bip32Path
  import opened Primitives
  import opened HdWallet

  /** Walking "p/q" is walking p, then walking q from the key p reached. */
  lemma DerivePathFromKeyCompose(c: Crypto, key: ExtendedKey, p: string, q: string)
    requires p != "" && q != ""
    requires PathSegments(p).Ok? && AllHardened(PathSegments(p).value)
    requires PathSegments(q).Ok? && AllHardened(PathSegments(q).value)
    ensures DerivePathFromKey(c, p, key).Ok?
    ensures DerivePathFromKey(c, p + "/" + q, key) == DerivePathFromKey(c, q, DerivePathFromKey(c, p, key).value)
  {
    var sp, sq := PathSegments(p).value, PathSegments(q).value;
    SplitConcat(p, q);
    ParseSegmentsConcat(Split(p), Split(q));
    assert PathSegments(p + "/" + q) == Ok(sp + sq);
    AllHardenedConcat(sp, sq);
    FoldDeriveChildAppend(c, key, sp, sq);
  }

  lemma AllHardenedConcat(a: seq<int>, b: seq<int>)
    requires AllHardened(a) && AllHardened(b)
    ensures AllHardened(a + b)
  {
    forall i | 0 <= i < |a + b| ensures (a + b)[i] >= HARDENED_OFFSET {
      if i < |a| { assert (a + b)[i] == a[i]; } else { assert (a + b)[i] == b[i - |a|]; }
    }
  }

  /** Three pieces without separators, each of which parses, parse as a path piece by piece. */
  lemma ThreeSegmentPath(p: string, q: string, t: string)
    requires '/' !in p && '/' !in q && '/' !in t
    requires ParseSegment(p).Ok? && ParseSegment(q).Ok? && ParseSegment(t).Ok?
    ensures var r := PathSegments(Join([p, q, t]));
      && r.Ok? && |r.value| == 3
      && r.value[0] == ParseSegment(p).value
      && r.value[1] == ParseSegment(q).value
      && r.value[2] == ParseSegment(t).value
  {
    var parts := [p, q, t];
    SplitJoin(parts);
    JoinOfThree(p, q, t);
    assert Join(parts) != "";
    forall i | 0 <= i < |parts| ensures ParseSegment(parts[i]).Ok? {
      assert i == 0 || i == 1 || i == 2;
    }
    ParseSegmentsPointwise(parts);
  }

  /**
   * A plain second segment fails the walk with position 2, whatever the key and
   * primitives, once every segment parses: the text is checked before any derivation.
   */
  lemma PlainSegmentRejected(c: Crypto, key: ExtendedKey, p: string, q: string, t: string)
    requires '/' !in p && '/' !in q && '/' !in t
    requires ParseSegment(p).Ok? && ParseSegment(p).value >= HARDENED_OFFSET
    requires ParseSegment(q).Ok? && ParseSegment(q).value < HARDENED_OFFSET
    requires ParseSegment(t).Ok?
    ensures DerivePathFromKey(c, Join([p, q, t]), key) == Err(NotHardenedSegment(2))
  {
    ThreeSegmentPath(p, q, t);
    var segments := PathSegments(Join([p, q, t])).value;
    assert segments[1..][0] == segments[1];
    assert FirstNotHardened(segments) == Some(1);
  }

  /** Two MAC inputs of child derivation coincide only for the same parent secret and index. */
  lemma ChildMessageInjective(sk1: seq<uint8>, i1: uint32, sk2: seq<uint8>, i2: uint32)
    requires ChildMessage(sk1, i1) == ChildMessage(sk2, i2)
    ensures sk1 == sk2 && i1 == i2
  {
    var m := ChildMessage(sk1, i1);
    assert |sk1| == |sk2|;
    assert sk1 == m[1..|sk1| + 1] == sk2;
  }

  /** Accounts at distinct indices feed distinct messages to their first MAC below the root. */
  lemma AccountMessagesDiffer(c: Crypto, seed: seq<uint8>, i: nat, j: nat)
    requires i < HARDENED_OFFSET && j < HARDENED_OFFSET && i != j
    ensures ChildMessage(WalletRootKey(c, seed).secretKey, i + HARDENED_OFFSET)
         != ChildMessage(WalletRootKey(c, seed).secretKey, j + HARDENED_OFFSET)
  {
    var sk := WalletRootKey(c, seed).secretKey;
    var mi, mj := ChildMessage(sk, i + HARDENED_OFFSET), ChildMessage(sk, j + HARDENED_OFFSET);
    assert BEToUint32(mi[|sk| + 1..]) != BEToUint32(mj[|sk| + 1..]);
  }

  /** From a seed, walking "m/p/q" is walking q from the key that "m/p" reaches. */
  lemma DerivePathFromSeedCompose(c: Crypto, seed: seq<uint8>, p: string, q: string)
    requires p != "" && q != ""
    requires PathSegments(p).Ok? && AllHardened(PathSegments(p).value)
    requires PathSegments(q).Ok? && AllHardened(PathSegments(q).value)
    ensures DerivePathFromSeed(c, "m/" + p, seed).Ok?
    ensures DerivePathFromSeed(c, "m/" + p + "/" + q, seed)
         == DerivePathFromKey(c, q, DerivePathFromSeed(c, "m/" + p, seed).value)
  {
    RootMarkerRegroup(p, q);
    RootMarkerDrop(p);
    RootMarkerDrop(p + "/" + q);
    DerivePathFromKeyCompose(c, GetMasterKeyFromSeed(c, seed), p, q);
  }

  lemma RootMarkerRegroup(p: string, q: string)
    ensures "m/" + p + "/" + q == "m/" + (p + "/" + q)
  {
  }

  lemma RootMarkerDrop(rel: string)
    ensures |"m/" + rel| >= 2 && ("m/" + rel)[..2] == "m/" && ("m/" + rel)[2..] == rel
  {
  }

  /** Walking the root path and then an account path from the seed is walking the account path from the root key. */
  lemma SeedPathThroughRoot(c: Crypto, seed: seq<uint8>, idx: nat)
    requires idx < HARDENED_OFFSET
    ensures DerivePathFromSeed(c, ROOT_PATH + "/" + AccountPath(idx), seed)
         == DerivePathFromKey(c, AccountPath(idx), WalletRootKey(c, seed))
  {
    AccountPathSegments(idx);
    RootThenRelative(c, seed, AccountPath(idx));
  }

  /** Any non-empty all-hardened path below the root, from the seed, is that path from the root key. */
  lemma RootThenRelative(c: Crypto, seed: seq<uint8>, q: string)
    requires q != "" && PathSegments(q).Ok? && AllHardened(PathSegments(q).value)
    ensures DerivePathFromSeed(c, ROOT_PATH + "/" + q, seed) == DerivePathFromKey(c, q, WalletRootKey(c, seed))
  {
    var rel := ROOT_PATH[2..];
    RootPathSegments();
    assert ROOT_PATH == "m/" + rel;
    DerivePathFromSeedCompose(c, seed, rel, q);
  }

  /** The five hardened segments of an account path below the master key. */
  function AccountSegments(idx: nat): (s: seq<int>)
    ensures |s| == 5 && s[2] == idx + HARDENED_OFFSET
    ensures s == [44 + HARDENED_OFFSET, 457 + HARDENED_OFFSET] + [idx + HARDENED_OFFSET, HARDENED_OFFSET, HARDENED_OFFSET]
  {
    [44 + HARDENED_OFFSET, 457 + HARDENED_OFFSET, idx + HARDENED_OFFSET, HARDENED_OFFSET, HARDENED_OFFSET]
  }

  /** The key at m/44h/457h/{idx}h/0h/0h is the master key folded over the five segments. */
  lemma AccountKeyFromSeed(c: Crypto, seed: seq<uint8>, idx: nat)
    requires idx < HARDENED_OFFSET
    ensures DerivePathFromSeed(c, ROOT_PATH + "/" + AccountPath(idx), seed)
         == FoldDeriveChild(c, GetMasterKeyFromSeed(c, seed), AccountSegments(idx))
  {
    var root := WalletRootKey(c, seed);
    SeedPathThroughRoot(c, seed, idx);
    AccountPathSegments(idx);
    FoldDeriveChildAppend(c, GetMasterKeyFromSeed(c, seed),
      [44 + HARDENED_OFFSET, 457 + HARDENED_OFFSET], [idx + HARDENED_OFFSET, HARDENED_OFFSET, HARDENED_OFFSET]);
  }

  /** The account of an index from the seed is formatted from the key five hardened steps below the master key. */
  lemma AccountFromSeedDerives(c: Crypto, seed: seq<uint8>, idx: nat)
    requires idx < HARDENED_OFFSET
    ensures var d := FoldDeriveChild(c, GetMasterKeyFromSeed(c, seed), AccountSegments(idx));
      && d.Ok?
      && GetHdWalletAccountFromSeed(c, seed, idx)
         == Ok(IndexedAccount(FormatAccount(c, c.keyPairFromSeed(d.value.secretKey)), idx))
  {
    var root := WalletRootKey(c, seed);
    AccountAtDerives(c, root, idx);
    FoldDeriveChildAppend(c, GetMasterKeyFromSeed(c, seed),
      [44 + HARDENED_OFFSET, 457 + HARDENED_OFFSET], [idx + HARDENED_OFFSET, HARDENED_OFFSET, HARDENED_OFFSET]);
  }

  /** The account of an index is the one at m/44h/457h/{idx}h/0h/0h from the seed. */
  lemma AccountAtFullPath(c: Crypto, seed: seq<uint8>, idx: nat)
    requires idx < HARDENED_OFFSET
    ensures var d := DerivePathFromSeed(c, ROOT_PATH + "/" + AccountPath(idx), seed);
      && d.Ok?
      && d == FoldDeriveChild(c, GetMasterKeyFromSeed(c, seed), AccountSegments(idx))
      && GetHdWalletAccountFromSeed(c, seed, idx)
         == Ok(IndexedAccount(FormatAccount(c, c.keyPairFromSeed(d.value.secretKey)), idx))
  {
    AccountKeyFromSeed(c, seed, idx);
    AccountFromSeedDerives(c, seed, idx);
  }

  /** Decrypting a saved wallet under its own password gives back exactly the root key. */
  lemma SavedWalletRoundTrip(c: Crypto, seed: seq<uint8>, password: string)
    requires DecryptInvertsEncrypt(c)
    ensures DecryptSavedWallet(c, GenerateSaveHDWalletFromSeed(c, seed, password), password)
         == Ok(WalletRootKey(c, seed))
  {
    var root := WalletRootKey(c, seed);
    var saved := GenerateSaveHDWalletFromSeed(c, seed, password);
    assert c.decryptKey(password, c.encryptKey(password, root.secretKey)) == Some(root.secretKey);
    assert c.decryptKey(password, c.encryptKey(password, root.chainCode)) == Some(root.chainCode);
  }

  /** Under any other password the saved wallet yields no accounts, only the decryption failure. */
  lemma WrongPasswordRejected(c: Crypto, seed: seq<uint8>, password: string, other: string, accountCount: nat)
    requires WrongPasswordFails(c)
    requires other != password
    ensures GetSaveHDWalletAccounts(c, GenerateSaveHDWalletFromSeed(c, seed, password), other, accountCount)
         == Err(DecryptionFailed)
  {
    var root := WalletRootKey(c, seed);
    assert c.decryptKey(other, c.encryptKey(password, root.secretKey)) == None;
  }

  /**
   * The accounts of a saved wallet are, index by index, the accounts derived
   * from the seed one at a time, without their index label. An index of 2^31
   * or more cannot be written as a hardened segment and fails the batch; a
   * count of 2^32 or more already fails when the array is allocated.
   */
  lemma BatchMatchesSingle(c: Crypto, seed: seq<uint8>, password: string, n: nat)
    requires DecryptInvertsEncrypt(c)
    ensures var r := GetSaveHDWalletAccounts(c, GenerateSaveHDWalletFromSeed(c, seed, password), password, n);
      && (n <= HARDENED_OFFSET ==>
            && r.Ok? && |r.value| == n
            && forall i :: 0 <= i < n ==> GetHdWalletAccountFromSeed(c, seed, i) == Ok(IndexedAccount(r.value[i], i)))
      && (HARDENED_OFFSET < n < TWO_TO_32 ==> r == Err(PathSyntax(IndexTooLarge)))
      && (n >= TWO_TO_32 ==> r == Err(InvalidArrayLength(n)))
  {
    SavedWalletRoundTrip(c, seed, password);
    var root := WalletRootKey(c, seed);
    var r := AccountsUpTo(c, root, n);
    AccountsUpToPointwise(c, root, n);
    if r.Ok? {
      forall i | 0 <= i < n
        ensures GetHdWalletAccountFromSeed(c, seed, i) == Ok(IndexedAccount(r.value[i], i))
      {
        assert AccountAt(c, root, i) == Ok(r.value[i]);
      }
    }
  }
}
