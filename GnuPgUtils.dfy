/** GnuPG conventions: where the public key ring lives, and finding an
    encryption key in a key ring collection by a hexadecimal key ID or a
    suffix of one. Reading and decoding the key ring file belongs to the
    OpenPGP library; here the collection is given as its key rings. */
module GnuPgUtils {
  import opened Common

  const PUBRING_FILE_NAME: string := "pubring.gpg"

  /** A `java.io.File` named by a parent directory and a child name. */
  datatype File = File(parent: string, child: string)

  /** Java's string conversion of a possibly null string. */
  function JavaString(s: Option<string>): string
  {
    if s.Some? then s.value else "null"
  }

  /** `getDefaultPubringFile`: `pubring.gpg` in `$GNUPGHOME` when that is
      set, else in `.gnupg` under the user's home directory. The
      environment variable, the `user.home` property and the file
      separator are parameters. */
  function DefaultPubringFile(gnupgHome: Option<string>, userHome: Option<string>, separator: string): (f: File)
    ensures f.child == PUBRING_FILE_NAME
    ensures gnupgHome.Some? ==> f.parent == gnupgHome.value
    ensures gnupgHome.None? ==> f.parent == JavaString(userHome) + separator + ".gnupg"
  {
    match gnupgHome
    case Some(path) => File(path, PUBRING_FILE_NAME)
    case None => File(JavaString(userHome) + separator + ".gnupg", PUBRING_FILE_NAME)
  }

  /** A 64-bit key ID, read as an unsigned bit pattern. */
  type KeyId = x: int | 0 <= x < 0x1_0000_0000_0000_0000

  /** A public key, as far as the lookup looks at it. */
  datatype PublicKey = PublicKey(keyId: KeyId, isEncryptionKey: bool, isRevoked: bool)

  /** A key ring collection, as the key rings it iterates over. */
  type KeyRings = seq<seq<PublicKey>>

  const LONG_MIN: int := -0x8000_0000_0000_0000
  const LONG_MAX: int := 0x7fff_ffff_ffff_ffff

  predicate IsHexDigit(c: char)
  {
    '0' <= c <= '9' || 'a' <= c <= 'f' || 'A' <= c <= 'F'
  }

  function HexDigitValue(c: char): (v: nat)
    requires IsHexDigit(c)
    ensures v < 16
  {
    if '0' <= c <= '9' then c as int - '0' as int
    else if 'a' <= c <= 'f' then c as int - 'a' as int + 10
    else c as int - 'A' as int + 10
  }

  /** The value of a string of hexadecimal digits. */
  function HexValue(s: string): (v: nat)
    requires forall i :: 0 <= i < |s| ==> IsHexDigit(s[i])
    ensures v < Pow2(4 * |s|)
  {
    if s == [] then 0
    else
      var init := s[..|s| - 1];
      assert Pow2(4 * |s|) == 16 * Pow2(4 * |init|) by { Pow2Add(4 * |init|, 4); }
      HexValue(init) * 16 + HexDigitValue(s[|s| - 1])
  }

  /** `Long.parseLong(s, 16)`: an optional sign followed by at least one
      hexadecimal digit, whose value fits a signed 64-bit long; anything
      else fails with NumberFormatException. */
  function ParseHexLong(s: string): (r: Result<int, Exception>)
    ensures r.Err? ==> r.error == NumberFormatException(s)
    ensures r.Ok? ==> LONG_MIN <= r.value <= LONG_MAX
  {
    var neg := |s| > 0 && s[0] == '-';
    var digits := if |s| > 0 && (s[0] == '-' || s[0] == '+') then s[1..] else s;
    if |digits| == 0 || exists i :: 0 <= i < |digits| && !IsHexDigit(digits[i]) then
      Err(NumberFormatException(s))
    else
      var v: int := if neg then 0 - HexValue(digits) as int else HexValue(digits);
      if v < LONG_MIN || v > LONG_MAX then Err(NumberFormatException(s)) else Ok(v)
  }

  function Pow2(n: nat): (p: nat)
    ensures p >= 1
  {
    if n == 0 then 1 else 2 * Pow2(n - 1)
  }

  lemma {:induction false} Pow2Add(a: nat, b: nat)
    ensures Pow2(a + b) == Pow2(a) * Pow2(b)
  {
    if a > 0 {
      Pow2Add(a - 1, b);
    }
  }

  /** The number of low key ID bits compared with an ID of `len`
      characters, as written: `1L << (4 * len)` shifts by `4 * len` modulo
      64, so sixteen characters give the mask 0 and compare no bits. */
  function MaskBitsAsWritten(len: nat): (bits: nat)
    ensures bits < 64 && bits % 4 == 0
  {
    (4 * len) % 64
  }

  /** The number of low key ID bits an ID of `len` characters names: four
      per character, and never more than the key ID has. */
  function MaskBits(len: nat): (bits: nat)
    ensures bits <= 64
    ensures len <= 16 ==> bits == 4 * len
  {
    Min(4 * len, 64)
  }

  /** `(key.getKeyID() & mask) == lid` for a mask of `bits` low one-bits:
      the low `bits` bits of the key ID, read as a non-negative number,
      equal the parsed ID. */
  predicate Matches(key: PublicKey, lid: int, bits: nat)
  {
    key.keyId % Pow2(bits) == lid
  }

  /** The keys of a collection in iteration order: ring by ring, and
      within a ring in order. */
  function Flatten(rings: KeyRings): (keys: seq<PublicKey>)
  {
    if rings == [] then [] else Flatten(rings[..|rings| - 1]) + rings[|rings| - 1]
  }

  /** A key is among the flattened keys exactly when some ring holds it. */
  lemma {:induction false} FlattenHolds(rings: KeyRings, k: PublicKey)
    ensures k in Flatten(rings) <==> exists r :: r in rings && k in r
  {
    if rings != [] {
      var init := rings[..|rings| - 1];
      FlattenHolds(init, k);
      if exists r :: r in init && k in r {
        var r :| r in init && k in r;
        assert r in rings;
      }
      if exists r :: r in rings && k in r {
        var r :| r in rings && k in r;
        if r != rings[|rings| - 1] {
          var i :| 0 <= i < |rings| && rings[i] == r;
          assert init[i] == r;
        }
      }
    }
  }

  /** The keys of the first `n` rings come first. */
  lemma {:induction false} FlattenPrefix(rings: KeyRings, n: nat)
    requires n <= |rings|
    ensures Flatten(rings[..n]) <= Flatten(rings)
  {
    if n < |rings| {
      var init := rings[..|rings| - 1];
      assert init[..n] == rings[..n];
      FlattenPrefix(init, n);
    } else {
      assert rings[..n] == rings;
    }
  }

  /** The position of the first key that matches, or `|keys|` if none
      does. */
  function FirstMatch(keys: seq<PublicKey>, lid: int, bits: nat): (i: nat)
    ensures i <= |keys|
    ensures i < |keys| ==> Matches(keys[i], lid, bits)
    ensures forall j :: 0 <= j < i ==> !Matches(keys[j], lid, bits)
  {
    if keys == [] then 0
    else if Matches(keys[0], lid, bits) then 0
    else
      var i := 1 + FirstMatch(keys[1..], lid, bits);
      assert forall j :: 1 <= j < i ==> keys[j] == keys[1..][j - 1];
      i
  }

  /** What the lookup does with the first matching key: an error if it
      cannot encrypt or is revoked, checked in that order, else the key. */
  function Verdict(key: PublicKey, id: string): (r: Result<Option<PublicKey>, Exception>)
    ensures r.Ok? <==> key.isEncryptionKey && !key.isRevoked
    ensures r.Ok? ==> r.value == Some(key)
    ensures r.Err? ==> r.error.IncompatibleKeyException?
  {
    if !key.isEncryptionKey then Err(IncompatibleKeyException("not an encryption key: " + id))
    else if key.isRevoked then Err(IncompatibleKeyException("key is revoked: " + id))
    else Ok(Some(key))
  }

  /** The lookup of ID `id`, parsed as `lid`, comparing `bits` low bits of
      each key ID: the first matching key decides; without one the key is
      not found. */
  function Search(rings: KeyRings, id: string, lid: int, bits: nat): (r: Result<Option<PublicKey>, Exception>)
    ensures r == Err(KeyNotFoundException("key not found: " + id)) <==> NoneMatch(Flatten(rings), lid, bits)
    ensures r.Err? ==> r.error.KeyNotFoundException? || r.error.IncompatibleKeyException?
    ensures r.Ok? ==>
      && r.value.Some? && r.value.value in Flatten(rings) && Matches(r.value.value, lid, bits)
      && r.value.value.isEncryptionKey && !r.value.value.isRevoked
  {
    var keys := Flatten(rings);
    var i := FirstMatch(keys, lid, bits);
    if i == |keys| then Err(KeyNotFoundException("key not found: " + id)) else Verdict(keys[i], id)
  }

  /** `getPublicKey(col, id)` as written. */
  function FindPublicKeyAsWritten(rings: KeyRings, id: Option<string>): (r: Result<Option<PublicKey>, Exception>)
    ensures id.None? <==> r == Ok(None)
    ensures id.Some? && ParseHexLong(id.value).Err? ==> r == Err(ParseHexLong(id.value).error)
    ensures r.Ok? && id.Some? ==>
      && ParseHexLong(id.value).Ok? && r.value.Some?
      && Matches(r.value.value, ParseHexLong(id.value).value, MaskBitsAsWritten(|id.value|))
      && r.value.value.isEncryptionKey && !r.value.value.isRevoked
  {
    match id
    case None => Ok(None)
    case Some(s) =>
      match ParseHexLong(s)
      case Err(e) => Err(e)
      case Ok(lid) => Search(rings, s, lid, MaskBitsAsWritten(|s|))
  }

  /** `getPublicKey(col, id)` with the mask as intended: a null ID gives
      null, an ID that is not a hexadecimal long fails to parse, and
      otherwise the first key whose low key ID digits are the ID decides. */
  function FindPublicKey(rings: KeyRings, id: Option<string>): (r: Result<Option<PublicKey>, Exception>)
    ensures id.None? <==> r == Ok(None)
    ensures id.Some? && ParseHexLong(id.value).Err? ==> r == Err(ParseHexLong(id.value).error)
    ensures r.Ok? && id.Some? ==>
      && ParseHexLong(id.value).Ok? && r.value.Some?
      && Matches(r.value.value, ParseHexLong(id.value).value, MaskBits(|id.value|))
      && r.value.value.isEncryptionKey && !r.value.value.isRevoked
  {
    match id
    case None => Ok(None)
    case Some(s) =>
      match ParseHexLong(s)
      case Err(e) => Err(e)
      case Ok(lid) => Search(rings, s, lid, MaskBits(|s|))
  }

  /** Away from the sixteen-digit case the two lookups are the same: for
      IDs of fewer than sixteen characters the mask as written already
      names four bits per character. */
  lemma AsWrittenAgreesBelowSixteen(rings: KeyRings, id: string)
    requires |id| < 16
    ensures FindPublicKeyAsWritten(rings, Some(id)) == FindPublicKey(rings, Some(id))
  {
    assert MaskBitsAsWritten(|id|) == MaskBits(|id|);
  }

  /** No key of `keys` matches. */
  predicate NoneMatch(keys: seq<PublicKey>, lid: int, bits: nat)
  {
    forall j :: 0 <= j < |keys| ==> !Matches(keys[j], lid, bits)
  }

  /** When no key of the first `ri` rings nor of ring `ri` matches, no key
      of the first `ri + 1` rings does. */
  lemma NoMatchThroughRing(rings: KeyRings, ri: nat, lid: int, bits: nat)
    requires ri < |rings| && NoneMatch(Flatten(rings[..ri]), lid, bits) && NoneMatch(rings[ri], lid, bits)
    ensures NoneMatch(Flatten(rings[..ri + 1]), lid, bits)
  {
    assert rings[..ri + 1][..ri] == rings[..ri];
  }

  /** When the first matching key of ring `ri` is at `ki` and no earlier
      ring has one, it is the first matching key of the collection. */
  lemma FirstMatchInRing(rings: KeyRings, ri: nat, ki: nat, id: string, lid: int, bits: nat)
    requires ri < |rings| && ki < |rings[ri]|
    requires NoneMatch(Flatten(rings[..ri]), lid, bits)
    requires forall j :: 0 <= j < ki ==> !Matches(rings[ri][j], lid, bits)
    requires Matches(rings[ri][ki], lid, bits)
    ensures var keys := Flatten(rings);
      FirstMatch(keys, lid, bits) < |keys| && keys[FirstMatch(keys, lid, bits)] == rings[ri][ki]
    ensures Search(rings, id, lid, bits) == Verdict(rings[ri][ki], id)
  {
    var seen := Flatten(rings[..ri]);
    var keys := Flatten(rings);
    assert rings[..ri + 1][..ri] == rings[..ri];
    assert Flatten(rings[..ri + 1]) == seen + rings[ri];
    FlattenPrefix(rings, ri + 1);
    var i := |seen| + ki;
    assert keys[i] == rings[ri][ki];
    forall j | 0 <= j < i
      ensures !Matches(keys[j], lid, bits)
    {
      if j < |seen| {
        assert keys[j] == seen[j];
      } else {
        assert keys[j] == rings[ri][j - |seen|];
      }
    }
  }

  /** The lookup over the key rings, ring by ring and key by key,
      returning at the first key whose low bits match. */
  method GetPublicKey(rings: KeyRings, id: Option<string>) returns (r: Result<Option<PublicKey>, Exception>)
    ensures r == FindPublicKey(rings, id)
  {
    if id.None? {
      return Ok(None);
    }
    var s := id.value;
    var parsed := ParseHexLong(s);
    if parsed.Err? {
      return Err(parsed.error);
    }
    var lid := parsed.value;
    var bits := MaskBits(|s|);
    var modulus := Pow2(bits);
    var ri := 0;
    while ri < |rings|
      invariant ri <= |rings| && NoneMatch(Flatten(rings[..ri]), lid, bits)
    {
      var ring := rings[ri];
      var ki := 0;
      while ki < |ring|
        invariant ki <= |ring| && forall j :: 0 <= j < ki ==> !Matches(ring[j], lid, bits)
      {
        var key := ring[ki];
        if key.keyId % modulus == lid {
          FirstMatchInRing(rings, ri, ki, s, lid, bits);
          if !key.isEncryptionKey {
            return Err(IncompatibleKeyException("not an encryption key: " + s));
          }
          if key.isRevoked {
            return Err(IncompatibleKeyException("key is revoked: " + s));
          }
          return Ok(Some(key));
        }
        ki := ki + 1;
      }
      NoMatchThroughRing(rings, ri, lid, bits);
      ri := ri + 1;
    }
    assert rings[..ri] == rings;
    r := Err(KeyNotFoundException("key not found: " + s));
  }

  /** A key the search returns is held by one of the rings. */
  lemma SearchFindsHeldKey(rings: KeyRings, id: string, lid: int, bits: nat)
    ensures Search(rings, id, lid, bits).Ok? ==> exists r :: r in rings && Search(rings, id, lid, bits).value.value in r
  {
    if Search(rings, id, lid, bits).Ok? {
      FlattenHolds(rings, Search(rings, id, lid, bits).value.value);
    }
  }

  /** A key the lookup returns is held by some ring, matches the ID, can
      encrypt and is not revoked; a null ID gives no key. */
  lemma FoundKeyIsUsable(rings: KeyRings, id: Option<string>)
    ensures id.None? <==> FindPublicKey(rings, id) == Ok(None)
    ensures FindPublicKey(rings, id).Ok? && id.Some? ==>
      var k := FindPublicKey(rings, id).value.value;
      && ParseHexLong(id.value).Ok?
      && Matches(k, ParseHexLong(id.value).value, MaskBits(|id.value|))
      && k.isEncryptionKey && !k.isRevoked
      && exists r :: r in rings && k in r
  {
    if id.Some? && ParseHexLong(id.value).Ok? {
      SearchFindsHeldKey(rings, id.value, ParseHexLong(id.value).value, MaskBits(|id.value|));
    }
  }

  /** The same holds for the lookup as written: whatever bits it
      compares, a key it returns is held by some ring, can encrypt and is
      not revoked. */
  lemma FoundKeyIsUsableAsWritten(rings: KeyRings, id: Option<string>)
    ensures id.None? <==> FindPublicKeyAsWritten(rings, id) == Ok(None)
    ensures FindPublicKeyAsWritten(rings, id).Ok? && id.Some? ==>
      var k := FindPublicKeyAsWritten(rings, id).value.value;
      && ParseHexLong(id.value).Ok?
      && Matches(k, ParseHexLong(id.value).value, MaskBitsAsWritten(|id.value|))
      && k.isEncryptionKey && !k.isRevoked
      && exists r :: r in rings && k in r
  {
    if id.Some? && ParseHexLong(id.value).Ok? {
      SearchFindsHeldKey(rings, id.value, ParseHexLong(id.value).value, MaskBitsAsWritten(|id.value|));
    }
  }

  /** For an ID that parses, the key is reported missing exactly when no
      key in any ring matches it. */
  lemma NotFoundIffNoMatch(rings: KeyRings, id: string)
    requires ParseHexLong(id).Ok?
    ensures var lid := ParseHexLong(id).value;
      FindPublicKey(rings, Some(id)) == Err(KeyNotFoundException("key not found: " + id))
      <==> forall r, k :: r in rings && k in r ==> !Matches(k, lid, MaskBits(|id|))
  {
    var lid := ParseHexLong(id).value;
    var bits := MaskBits(|id|);
    var keys := Flatten(rings);
    var i := FirstMatch(keys, lid, bits);
    if i < |keys| {
      FlattenHolds(rings, keys[i]);
      var r :| r in rings && keys[i] in r;
    } else {
      forall r, k | r in rings && k in r
        ensures !Matches(k, lid, bits)
      {
        FlattenHolds(rings, k);
      }
    }
  }

  /** An ID of sixteen hexadecimal digits names a whole key ID, yet the
      lookup as written compares no bits: it never finds the key with
      that ID when the ID is not zero, while the intended lookup does. */
  lemma FullIdMissedAsWritten(id: string, k: PublicKey)
    requires |id| == 16 && ParseHexLong(id).Ok? && ParseHexLong(id).value != 0
    requires k.keyId == ParseHexLong(id).value && k.isEncryptionKey && !k.isRevoked
    ensures FindPublicKeyAsWritten([[k]], Some(id)) == Err(KeyNotFoundException("key not found: " + id))
    ensures FindPublicKey([[k]], Some(id)) == Ok(Some(k))
  {
    assert Flatten([[k]]) == [k] by { assert [[k]][..0] == []; }
    assert MaskBitsAsWritten(16) == 0 && Pow2(0) == 1;
    assert MaskBits(16) == 64;
    Pow2Of64();
    assert k.keyId % Pow2(64) == k.keyId;
  }

  lemma Pow2Of64()
    ensures Pow2(64) == 0x1_0000_0000_0000_0000
  {
    assert Pow2(1) == 2 && Pow2(2) == 4 && Pow2(3) == 8 && Pow2(4) == 16;
    Pow2Add(4, 4);
    assert Pow2(8) == 0x100;
    Pow2Add(8, 8);
    assert Pow2(16) == 0x1_0000;
    Pow2Add(16, 16);
    assert Pow2(32) == 0x1_0000_0000;
    Pow2Add(32, 32);
  }

  /** With an all-zero sixteen-digit ID the lookup as written takes the
      first key of the collection, whatever its ID. */
  lemma ZeroIdTakesFirstKeyAsWritten(id: string, k: PublicKey, rest: seq<PublicKey>)
    requires |id| == 16 && ParseHexLong(id) == Ok(0)
    requires k.isEncryptionKey && !k.isRevoked
    ensures FindPublicKeyAsWritten([[k] + rest], Some(id)) == Ok(Some(k))
  {
    var keys := [k] + rest;
    var rings: KeyRings := [keys];
    assert Flatten(rings) == keys by { assert rings[..0] == []; }
    assert MaskBitsAsWritten(|id|) == 0 && Pow2(0) == 1;
    assert Matches(keys[0], 0, 0);
    assert FirstMatch(keys, 0, 0) == 0;
  }
}
