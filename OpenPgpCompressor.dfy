/** The OpenPGP compressor's choice of output stream chain: an optional
    encryption layer, an optional compression layer and a literal data
    layer, over the stream the compressor writes to, with every setting
    read from the Hadoop configuration. The chain is described by its
    layers; what each layer writes belongs to the OpenPGP library. */
module OpenPgpCompressor {
  import opened Common
  import opened EnumUtils
  import opened GnuPgUtils

  const BUFFER_SIZE_KEY: string := "spotify.hadoop.openpgp.buffersize"
  const COMPRESSION_KEY: string := "spotify.hadoop.openpgp.compression"
  const ENCRYPTION_KEY: string := "spotify.hadoop.openpgp.encryption"
  const KEY_ID_KEY: string := "spotify.hadoop.openpgp.encrypt.keyId"
  const PASS_PHRASE_KEY: string := "spotify.hadoop.openpgp.encrypt.passPhrase"
  const FORMAT_KEY: string := "spotify.hadoop.openpgp.format"
  const INTEGRITY_KEY: string := "spotify.hadoop.openpgp.integrity.sign"
  const PUBRING_PATH_KEY: string := "spotify.hadoop.openpgp.pubring.path"

  /** The literal data format octets of section 5.9 of RFC 4880. */
  const BINARY: int := 0x62
  const TEXT: int := 0x74
  const UTF8: int := 0x75

  /** "No encryption" and "no compression" (sections 9.2 and 9.3 of
      RFC 4880). */
  const NULL_ENCRYPTION: int := 0
  const UNCOMPRESSED: int := 0

  /** The literal data modification time the compressor records: the
      library's "now" marker, the time 0. */
  const NOW: int := 0

  /** The constants of the library's compression algorithm tags. */
  function CompressionAlgorithmTags(): seq<Field>
  {
    [IntConstant("UNCOMPRESSED", 0), IntConstant("ZIP", 1), IntConstant("ZLIB", 2), IntConstant("BZIP2", 3)]
  }

  /** The constants of the library's symmetric key algorithm tags. */
  function SymmetricKeyAlgorithmTags(): seq<Field>
  {
    [ IntConstant("NULL", 0), IntConstant("IDEA", 1), IntConstant("TRIPLE_DES", 2), IntConstant("CAST5", 3),
      IntConstant("BLOWFISH", 4), IntConstant("SAFER", 5), IntConstant("DES", 6), IntConstant("AES_128", 7),
      IntConstant("AES_192", 8), IntConstant("AES_256", 9), IntConstant("TWOFISH", 10) ]
  }

  /** `COMPRESSION_ALGORITHMS`: compression algorithm name to tag. */
  function CompressionAlgorithms(): map<string, Option<int>>
  {
    Mapping(CompressionAlgorithmTags())
  }

  /** `ENCRYPTION_ALGORITHMS`: symmetric algorithm name to tag. */
  function EncryptionAlgorithms(): map<string, Option<int>>
  {
    Mapping(SymmetricKeyAlgorithmTags())
  }

  /** `map.get(name)` unboxed to an `int`: a missing name gives null,
      and unboxing null throws. */
  function Unbox(m: map<string, Option<int>>, name: string): (r: Result<int, Exception>)
    ensures r.Ok? <==> name in m && m[name].Some?
    ensures r.Ok? ==> r.value == m[name].value
    ensures r.Err? ==> r.error == NullPointerException
  {
    if name in m && m[name].Some? then Ok(m[name].value) else Err(NullPointerException)
  }

  /** The compression table maps each tag name to its tag. */
  lemma CompressionTable()
    ensures CompressionAlgorithms() == map["UNCOMPRESSED" := Some(0), "ZIP" := Some(1), "ZLIB" := Some(2), "BZIP2" := Some(3)]
  {
    var c := CompressionAlgorithmTags();
    assert c[..1][..0] == [];
    assert Mapping(c[..1]) == map["UNCOMPRESSED" := Some(0)];
    assert c[..2][..1] == c[..1];
    assert Mapping(c[..2]) == map["UNCOMPRESSED" := Some(0), "ZIP" := Some(1)];
    assert c[..3][..2] == c[..2];
    assert Mapping(c[..3]) == map["UNCOMPRESSED" := Some(0), "ZIP" := Some(1), "ZLIB" := Some(2)];
    assert c[..4][..3] == c[..3] && c[..4] == c;
  }

  /** The first six entries of `ENCRYPTION_ALGORITHMS`. */
  lemma EncryptionTablePrefix()
    ensures Mapping(SymmetricKeyAlgorithmTags()[..6]) == map[
      "NULL" := Some(0), "IDEA" := Some(1), "TRIPLE_DES" := Some(2), "CAST5" := Some(3),
      "BLOWFISH" := Some(4), "SAFER" := Some(5)]
  {
    var e := SymmetricKeyAlgorithmTags();
    assert e[..1][..0] == [];
    assert Mapping(e[..1]) == map["NULL" := Some(0)];
    assert e[..2][..1] == e[..1];
    assert Mapping(e[..2]) == map["NULL" := Some(0), "IDEA" := Some(1)];
    assert e[..3][..2] == e[..2];
    assert Mapping(e[..3]) == map["NULL" := Some(0), "IDEA" := Some(1), "TRIPLE_DES" := Some(2)];
    assert e[..4][..3] == e[..3];
    assert Mapping(e[..4]) == map["NULL" := Some(0), "IDEA" := Some(1), "TRIPLE_DES" := Some(2), "CAST5" := Some(3)];
    assert e[..5][..4] == e[..4];
    assert Mapping(e[..5]) == map["NULL" := Some(0), "IDEA" := Some(1), "TRIPLE_DES" := Some(2), "CAST5" := Some(3),
      "BLOWFISH" := Some(4)];
    assert e[..6][..5] == e[..5];
  }

  /** The symmetric algorithm table maps each tag name to its tag. */
  lemma EncryptionTable()
    ensures EncryptionAlgorithms() == map[
      "NULL" := Some(0), "IDEA" := Some(1), "TRIPLE_DES" := Some(2), "CAST5" := Some(3),
      "BLOWFISH" := Some(4), "SAFER" := Some(5), "DES" := Some(6), "AES_128" := Some(7),
      "AES_192" := Some(8), "AES_256" := Some(9), "TWOFISH" := Some(10)]
  {
    var e := SymmetricKeyAlgorithmTags();
    EncryptionTablePrefix();
    assert e[..7][..6] == e[..6];
    assert Mapping(e[..7]) == map["NULL" := Some(0), "IDEA" := Some(1), "TRIPLE_DES" := Some(2), "CAST5" := Some(3),
      "BLOWFISH" := Some(4), "SAFER" := Some(5), "DES" := Some(6)];
    assert e[..8][..7] == e[..7];
    assert Mapping(e[..8]) == map["NULL" := Some(0), "IDEA" := Some(1), "TRIPLE_DES" := Some(2), "CAST5" := Some(3),
      "BLOWFISH" := Some(4), "SAFER" := Some(5), "DES" := Some(6), "AES_128" := Some(7)];
    assert e[..9][..8] == e[..8];
    assert Mapping(e[..9]) == map["NULL" := Some(0), "IDEA" := Some(1), "TRIPLE_DES" := Some(2), "CAST5" := Some(3),
      "BLOWFISH" := Some(4), "SAFER" := Some(5), "DES" := Some(6), "AES_128" := Some(7), "AES_192" := Some(8)];
    assert e[..10][..9] == e[..9];
    assert Mapping(e[..10]) == map["NULL" := Some(0), "IDEA" := Some(1), "TRIPLE_DES" := Some(2), "CAST5" := Some(3),
      "BLOWFISH" := Some(4), "SAFER" := Some(5), "DES" := Some(6), "AES_128" := Some(7), "AES_192" := Some(8),
      "AES_256" := Some(9)];
    assert e[..11][..10] == e[..10] && e[..11] == e;
  }

  /** The encryption key: a public key, a pass phrase for symmetric-only
      encryption, or none (null, or any other object). */
  datatype Key = PublicKeyKey(publicKey: PublicKey) | PassPhrase(phrase: string) | NoKey

  /** One stream of the chain, from the stream written to outwards. */
  datatype Layer =
    | Target
    | Encryption(algorithm: int, withIntegrityPacket: bool, key: Key, bufferSize: nat)
    | Compression(algorithm: int)
    | LiteralData(format: int, name: string, mtime: int, bufferSize: nat)

  /** Whether the chain has an encryption layer. */
  predicate Encrypting(encryption: int, signed: bool)
  {
    encryption != NULL_ENCRYPTION || signed
  }

  /** The chain the static `createOutputStream` builds. The target comes
      first and the literal data layer, which writes are given to, last;
      there is an encryption layer exactly when encryption or integrity
      is asked for, directly over the target, and a compression layer
      exactly when compression is asked for, directly under the literal
      data layer. Any failure is rethrown wrapped in a RuntimeException:
      encryption without a key, reported first, and a negative buffer
      size, whose buffer cannot be allocated. */
  function Chain(key: Key, encryption: int, signed: bool, compression: int, format: int, name: string, mtime: int, bufferSize: int): (r: Result<seq<Layer>, Exception>)
    ensures r.Err? <==> (Encrypting(encryption, signed) && key.NoKey?) || bufferSize < 0
    ensures r.Err? && Encrypting(encryption, signed) && key.NoKey? ==>
      r.error == RuntimeExceptionOf(IOException("Encryption was requested but not key was specified"))
    ensures r.Err? && !(Encrypting(encryption, signed) && key.NoKey?) ==> r.error == RuntimeExceptionOf(NegativeArraySizeException)
    ensures r.Ok? ==>
      var s := r.value;
      && |s| == 2 + (if Encrypting(encryption, signed) then 1 else 0) + (if compression != UNCOMPRESSED then 1 else 0)
      && s[0] == Target
      && s[|s| - 1] == LiteralData(format % 0x1_0000, name, mtime, bufferSize)
      && (Encrypting(encryption, signed) <==> s[1].Encryption?)
      && (Encrypting(encryption, signed) ==> s[1] == Encryption(encryption, signed, key, bufferSize))
      && (compression != UNCOMPRESSED <==> s[|s| - 2].Compression?)
      && (compression != UNCOMPRESSED ==> s[|s| - 2] == Compression(compression))
      && forall i :: 0 < i < |s| - 1 ==> s[i].Encryption? || s[i].Compression?
  {
    if Encrypting(encryption, signed) && key.NoKey? then
      Err(RuntimeExceptionOf(IOException("Encryption was requested but not key was specified")))
    else if bufferSize < 0 then
      Err(RuntimeExceptionOf(NegativeArraySizeException))
    else
      Ok([Target]
        + (if Encrypting(encryption, signed) then [Encryption(encryption, signed, key, bufferSize)] else [])
        + (if compression != UNCOMPRESSED then [Compression(compression)] else [])
        + [LiteralData(format % 0x1_0000, name, mtime, bufferSize)])
  }

  /** The static `createOutputStream`: the list of streams grows one
      layer at a time, each opened over the one before. */
  method CreateChain(key: Key, encryption: int, signed: bool, compression: int, format: int, name: string, mtime: int, bufferSize: int)
    returns (r: Result<seq<Layer>, Exception>)
    ensures r == Chain(key, encryption, signed, compression, format, name, mtime, bufferSize)
  {
    var streams := [Target];
    if encryption != NULL_ENCRYPTION || signed {
      if key.NoKey? {
        return Err(RuntimeExceptionOf(IOException("Encryption was requested but not key was specified")));
      }
      if bufferSize < 0 {
        return Err(RuntimeExceptionOf(NegativeArraySizeException));
      }
      streams := streams + [Encryption(encryption, signed, key, bufferSize)];
    }
    assert streams == [Target] + (if Encrypting(encryption, signed) then [Encryption(encryption, signed, key, bufferSize)] else []);
    if compression != UNCOMPRESSED {
      streams := streams + [Compression(compression)];
    }
    assert streams == [Target]
      + (if Encrypting(encryption, signed) then [Encryption(encryption, signed, key, bufferSize)] else [])
      + (if compression != UNCOMPRESSED then [Compression(compression)] else []);
    if bufferSize < 0 {
      return Err(RuntimeExceptionOf(NegativeArraySizeException));
    }
    // `(char) format` keeps the low sixteen bits.
    streams := streams + [LiteralData(format % 0x1_0000, name, mtime, bufferSize)];
    r := Ok(streams);
  }

  /** The literal data format named by the configuration, by exact name,
      "binary" by default. */
  function GetFormat(conf: Configuration): (r: Result<int, Exception>)
    ensures r.Ok? <==> GetOr(conf, FORMAT_KEY, "binary") in {"binary", "text", "utf-8"}
    ensures r.Err? ==> r.error == RuntimeException("unknown format")
    ensures r.Ok? ==> r.value in {BINARY, TEXT, UTF8}
    ensures FORMAT_KEY !in conf ==> r == Ok(BINARY)
    ensures var f := GetOr(conf, FORMAT_KEY, "binary");
      && (r == Ok(BINARY) <==> f == "binary")
      && (r == Ok(TEXT) <==> f == "text")
      && (r == Ok(UTF8) <==> f == "utf-8")
  {
    var format := GetOr(conf, FORMAT_KEY, "binary");
    if format == "binary" then Ok(BINARY)
    else if format == "text" then Ok(TEXT)
    else if format == "utf-8" then Ok(UTF8)
    else Err(RuntimeException("unknown format"))
  }

  /** The compression algorithm names, each at the index of its tag. */
  const COMPRESSION_NAMES: seq<string> := ["UNCOMPRESSED", "ZIP", "ZLIB", "BZIP2"]

  /** The symmetric algorithm names of section 9.2 of RFC 4880, each at
      the index of its tag. */
  const SYMMETRIC_NAMES: seq<string> :=
    ["NULL", "IDEA", "TRIPLE_DES", "CAST5", "BLOWFISH", "SAFER", "DES", "AES_128", "AES_192", "AES_256", "TWOFISH"]

  /** The compression algorithm named by the configuration in any case,
      "uncompressed" by default; an unknown name fails on unboxing. */
  function GetCompressionAlgorithm(conf: Configuration): (r: Result<int, Exception>)
    ensures r.Ok? ==> 0 <= r.value <= 3
    ensures r.Err? ==> r.error == NullPointerException
    ensures var name := ToUpper(GetOr(conf, COMPRESSION_KEY, "uncompressed"));
      forall i :: 0 <= i < |COMPRESSION_NAMES| ==> (name == COMPRESSION_NAMES[i] <==> r == Ok(i))
  {
    CompressionTable();
    Unbox(CompressionAlgorithms(), ToUpper(GetOr(conf, COMPRESSION_KEY, "uncompressed")))
  }

  /** Compression is off by default, and the configured name selects
      one of the four tags or fails. */
  lemma CompressionSetting(conf: Configuration)
    ensures COMPRESSION_KEY !in conf ==> GetCompressionAlgorithm(conf) == Ok(UNCOMPRESSED)
    ensures var name := ToUpper(GetOr(conf, COMPRESSION_KEY, "uncompressed"));
      && (GetCompressionAlgorithm(conf).Ok? <==> name in {"UNCOMPRESSED", "ZIP", "ZLIB", "BZIP2"})
      && (GetCompressionAlgorithm(conf).Err? ==> GetCompressionAlgorithm(conf).error == NullPointerException)
      && (GetCompressionAlgorithm(conf).Ok? ==> 0 <= GetCompressionAlgorithm(conf).value <= 3)
      && (forall i :: 0 <= i < |COMPRESSION_NAMES| ==>
            (name == COMPRESSION_NAMES[i] <==> GetCompressionAlgorithm(conf) == Ok(i)))
  {
    CompressionTable();
    if COMPRESSION_KEY !in conf {
      assert ToUpper("uncompressed") == "UNCOMPRESSED";
    }
  }

  /** What the environment gives the compressor: the `GNUPGHOME`
      variable, the `user.home` property, the file separator, and the key
      rings held by each key ring file that can be read and decoded. */
  datatype Environment = Environment(
    gnupgHome: Option<string>,
    userHome: Option<string>,
    separator: string,
    pubrings: map<Pubring, KeyRings>)

  /** A key ring file: a configured path, or the GnuPG default. */
  datatype Pubring = ConfiguredPath(path: string) | DefaultPubring(file: File)

  /** `getPubringFile`: the configured path, else the GnuPG default. */
  function GetPubringFile(conf: Configuration, env: Environment): (f: Pubring)
    ensures PUBRING_PATH_KEY in conf ==> f == ConfiguredPath(conf[PUBRING_PATH_KEY])
    ensures PUBRING_PATH_KEY !in conf ==> f == DefaultPubring(DefaultPubringFile(env.gnupgHome, env.userHome, env.separator))
  {
    match Get(conf, PUBRING_PATH_KEY)
    case Some(path) => ConfiguredPath(path)
    case None => DefaultPubring(DefaultPubringFile(env.gnupgHome, env.userHome, env.separator))
  }

  /** Reading and decoding a key ring file; one that cannot be read is
      an IOException. */
  function ReadPubring(env: Environment, f: Pubring): Result<KeyRings, Exception>
  {
    if f in env.pubrings then Ok(env.pubrings[f]) else Err(IOException("cannot read the public key ring"))
  }

  /** `getPublicKey(id)`: null for a null ID; otherwise the key the key
      ring file yields for the ID by the lookup as written, any failure
      rewrapped as a KeyNotFoundException. */
  function GetPublicKeyById(conf: Configuration, env: Environment, id: Option<string>): (r: Result<Option<PublicKey>, Exception>)
    ensures id.None? <==> r == Ok(None)
    ensures r.Err? ==> r.error.KeyNotFoundExceptionOf?
    ensures r.Ok? && id.Some? ==> r.value.Some? && r.value.value.isEncryptionKey && !r.value.value.isRevoked
    ensures r.Ok? && id.Some? ==>
      ParseHexLong(id.value).Ok? && Matches(r.value.value, ParseHexLong(id.value).value, MaskBitsAsWritten(|id.value|))
  {
    if id.None? then Ok(None)
    else
      match ReadPubring(env, GetPubringFile(conf, env))
      case Err(e) => Err(KeyNotFoundExceptionOf(e))
      case Ok(rings) =>
        match FindPublicKeyAsWritten(rings, id)
        case Err(e) => Err(KeyNotFoundExceptionOf(e))
        case Ok(k) => Ok(k)
  }

  /** The public key named by the configured key ID. */
  function GetPublicKey(conf: Configuration, env: Environment): Result<Option<PublicKey>, Exception>
  {
    GetPublicKeyById(conf, env, Get(conf, KEY_ID_KEY))
  }

  /** A configured key ID either yields a usable key from the key ring
      file or fails with a KeyNotFoundException; without a key ID there
      is no public key. */
  lemma PublicKeySetting(conf: Configuration, env: Environment)
    ensures KEY_ID_KEY !in conf <==> GetPublicKey(conf, env) == Ok(None)
    ensures GetPublicKey(conf, env).Err? ==> GetPublicKey(conf, env).error.KeyNotFoundExceptionOf?
    ensures GetPublicKey(conf, env).Ok? && KEY_ID_KEY in conf ==>
      var k := GetPublicKey(conf, env).value.value;
      var rings := ReadPubring(env, GetPubringFile(conf, env)).value;
      && ParseHexLong(conf[KEY_ID_KEY]).Ok?
      && Matches(k, ParseHexLong(conf[KEY_ID_KEY]).value, MaskBitsAsWritten(|conf[KEY_ID_KEY]|))
      && k.isEncryptionKey && !k.isRevoked && exists r :: r in rings && k in r
  {
    if KEY_ID_KEY in conf && ReadPubring(env, GetPubringFile(conf, env)).Ok? {
      FoundKeyIsUsableAsWritten(ReadPubring(env, GetPubringFile(conf, env)).value, Get(conf, KEY_ID_KEY));
    }
  }

  /** `getKey`: the public key if there is one, else the pass phrase,
      else none. */
  function GetKey(conf: Configuration, env: Environment): (r: Result<Key, Exception>)
    ensures r.Err? <==> GetPublicKey(conf, env).Err?
    ensures r.Err? ==> r.error.KeyNotFoundExceptionOf?
    ensures KEY_ID_KEY in conf && r.Ok? ==>
      r.value.PublicKeyKey? && r.value.publicKey.isEncryptionKey && !r.value.publicKey.isRevoked
    ensures KEY_ID_KEY !in conf ==>
      r == (if PASS_PHRASE_KEY in conf then Ok(PassPhrase(conf[PASS_PHRASE_KEY])) else Ok(NoKey))
  {
    PublicKeySetting(conf, env);
    match GetPublicKey(conf, env)
    case Err(e) => Err(e)
    case Ok(Some(k)) => Ok(PublicKeyKey(k))
    case Ok(None) =>
      match Get(conf, PASS_PHRASE_KEY)
      case Some(p) => Ok(PassPhrase(p))
      case None => Ok(NoKey)
  }

  /** Whether a public key or a pass phrase is available; a failed key
      lookup is the failure. */
  function HasKey(conf: Configuration, env: Environment): (r: Result<bool, Exception>)
    ensures r.Err? <==> GetKey(conf, env).Err?
    ensures r.Ok? ==> (r.value <==> !GetKey(conf, env).value.NoKey?)
  {
    match GetPublicKey(conf, env)
    case Err(e) => Err(e)
    case Ok(k) => Ok(k.Some? || PASS_PHRASE_KEY in conf)
  }

  /** Looking a name up in `ENCRYPTION_ALGORITHMS` gives the tag of the
      symmetric algorithm with that name. */
  lemma SymmetricTag(name: string)
    ensures Unbox(EncryptionAlgorithms(), name).Ok? <==>
      name in {"NULL", "IDEA", "TRIPLE_DES", "CAST5", "BLOWFISH", "SAFER", "DES", "AES_128", "AES_192", "AES_256", "TWOFISH"}
    ensures Unbox(EncryptionAlgorithms(), name).Ok? ==> 0 <= Unbox(EncryptionAlgorithms(), name).value <= 10
    ensures forall i :: 0 <= i < |SYMMETRIC_NAMES| ==>
      (name == SYMMETRIC_NAMES[i] <==> Unbox(EncryptionAlgorithms(), name) == Ok(i))
  {
    EncryptionTable();
  }

  /** `getEncryptionAlgorithm`: the configured name in any case, else
      "cast5" when a key is available and "null" when not. */
  function GetEncryptionAlgorithm(conf: Configuration, env: Environment): (r: Result<int, Exception>)
    ensures r.Ok? ==> 0 <= r.value <= 10
    ensures ENCRYPTION_KEY in conf ==>
      (r.Ok? <==> ToUpper(conf[ENCRYPTION_KEY]) in {"NULL", "IDEA", "TRIPLE_DES", "CAST5", "BLOWFISH", "SAFER", "DES",
                                                     "AES_128", "AES_192", "AES_256", "TWOFISH"})
    ensures ENCRYPTION_KEY in conf && r.Err? ==> r.error == NullPointerException
    ensures ENCRYPTION_KEY in conf ==>
      forall i :: 0 <= i < |SYMMETRIC_NAMES| ==> (ToUpper(conf[ENCRYPTION_KEY]) == SYMMETRIC_NAMES[i] <==> r == Ok(i))
    ensures ENCRYPTION_KEY !in conf ==> (r.Err? <==> HasKey(conf, env).Err?)
    ensures ENCRYPTION_KEY !in conf && HasKey(conf, env).Ok? ==>
      r == Ok(if HasKey(conf, env).value then 3 else NULL_ENCRYPTION)
  {
    match Get(conf, ENCRYPTION_KEY)
    case Some(algo) =>
      SymmetricTag(ToUpper(algo));
      Unbox(EncryptionAlgorithms(), ToUpper(algo))
    case None =>
      match HasKey(conf, env)
      case Err(e) => Err(e)
      case Ok(has) =>
        EncryptionTable();
        assert ToUpper("cast5") == "CAST5" && ToUpper("null") == "NULL";
        Unbox(EncryptionAlgorithms(), ToUpper(if has then "cast5" else "null"))
  }

  /** `wantsIntegrity`: the configured value, true only for "true" in any
      case; by default true exactly when a key is available. */
  function WantsIntegrity(conf: Configuration, env: Environment): (r: Result<bool, Exception>)
    ensures INTEGRITY_KEY in conf ==> r.Ok? && (r.value <==> ToUpper(conf[INTEGRITY_KEY]) == "TRUE")
    ensures INTEGRITY_KEY !in conf ==> r == HasKey(conf, env)
  {
    match Get(conf, INTEGRITY_KEY)
    case Some(b) => Ok(EqualsIgnoreCase(b, "true"))
    case None =>
      match HasKey(conf, env)
      case Err(e) => Err(e)
      case Ok(has) => Ok(has)
  }

  /** `getBufferSize`: the configured integer, 16 kB by default. */
  function GetBufferSize(conf: Configuration): (r: Result<int, Exception>)
    ensures BUFFER_SIZE_KEY !in conf ==> r == Ok(0x4000)
    ensures BUFFER_SIZE_KEY in conf ==> r == ParseInt(conf[BUFFER_SIZE_KEY])
  {
    GetInt(conf, BUFFER_SIZE_KEY, 0x4000)
  }

  /** Without encryption settings, encryption defaults to CAST5 with an
      integrity packet when a key is available, and to none without one. */
  lemma EncryptionDefaults(conf: Configuration, env: Environment)
    requires ENCRYPTION_KEY !in conf && INTEGRITY_KEY !in conf && HasKey(conf, env).Ok?
    ensures HasKey(conf, env).value ==> GetEncryptionAlgorithm(conf, env) == Ok(3) && WantsIntegrity(conf, env) == Ok(true)
    ensures !HasKey(conf, env).value ==>
      GetEncryptionAlgorithm(conf, env) == Ok(NULL_ENCRYPTION) && WantsIntegrity(conf, env) == Ok(false)
  {
    EncryptionTable();
    assert ToUpper("cast5") == "CAST5" && ToUpper("null") == "NULL";
  }

  /** The settings the compressor passes to the chain. */
  datatype Settings = Settings(key: Key, encryption: int, integrity: bool, compression: int, format: int, bufferSize: int)

  /** The settings, read in the order of the arguments of the
      compressor's `createOutputStream`; the first failure wins. */
  function GetSettings(conf: Configuration, env: Environment): (r: Result<Settings, Exception>)
    ensures r.Ok? <==>
      && GetKey(conf, env).Ok? && GetEncryptionAlgorithm(conf, env).Ok? && WantsIntegrity(conf, env).Ok?
      && GetCompressionAlgorithm(conf).Ok? && GetFormat(conf).Ok? && GetBufferSize(conf).Ok?
    ensures r.Ok? ==>
      r.value == Settings(GetKey(conf, env).value, GetEncryptionAlgorithm(conf, env).value, WantsIntegrity(conf, env).value,
                          GetCompressionAlgorithm(conf).value, GetFormat(conf).value, GetBufferSize(conf).value)
    ensures GetKey(conf, env).Err? ==> r == Err(GetKey(conf, env).error)
  {
    match GetKey(conf, env)
    case Err(e) => Err(e)
    case Ok(key) =>
      match GetEncryptionAlgorithm(conf, env)
      case Err(e) => Err(e)
      case Ok(encryption) =>
        match WantsIntegrity(conf, env)
        case Err(e) => Err(e)
        case Ok(integrity) =>
          match GetCompressionAlgorithm(conf)
          case Err(e) => Err(e)
          case Ok(compression) =>
            match GetFormat(conf)
            case Err(e) => Err(e)
            case Ok(format) =>
              match GetBufferSize(conf)
              case Err(e) => Err(e)
              case Ok(bufferSize) => Ok(Settings(key, encryption, integrity, compression, format, bufferSize))
  }

  /** The compressor's `createOutputStream`: the chain for the configured
      settings, with an empty file name and the time 0. */
  function CreateOutputStream(conf: Configuration, env: Environment): (r: Result<seq<Layer>, Exception>)
    ensures GetSettings(conf, env).Err? ==> r == Err(GetSettings(conf, env).error)
    ensures r.Ok? ==>
      var s := GetSettings(conf, env).value;
      && GetSettings(conf, env).Ok? && s.bufferSize >= 0 && |r.value| >= 2
      && r.value[0] == Target && r.value[|r.value| - 1] == LiteralData(s.format, "", NOW, s.bufferSize)
      && (r.value[1].Encryption? <==> Encrypting(s.encryption, s.integrity))
      && (r.value[1].Encryption? ==> r.value[1].key == s.key && !s.key.NoKey?)
  {
    match GetSettings(conf, env)
    case Err(e) => Err(e)
    case Ok(s) => Chain(s.key, s.encryption, s.integrity, s.compression, s.format, "", NOW, s.bufferSize)
  }

  /** `Boolean.valueOf`: the integrity setting is on for "true" in any
      case and off for every other word. */
  lemma IntegritySetting(env: Environment)
    ensures WantsIntegrity(map[INTEGRITY_KEY := "TRUE"], env) == Ok(true)
    ensures WantsIntegrity(map[INTEGRITY_KEY := "True"], env) == Ok(true)
    ensures WantsIntegrity(map[INTEGRITY_KEY := "yes"], env) == Ok(false)
    ensures WantsIntegrity(map[INTEGRITY_KEY := "1"], env) == Ok(false)
  {
    assert ToUpper("TRUE") == "TRUE" && ToUpper("True") == "TRUE";
    assert ToUpper("yes")[0] == 'Y' && ToUpper("1")[0] == '1';
  }

  /** Left to their defaults, encryption and integrity follow the key:
      the chain is encrypted exactly when a public key or a pass phrase
      is available, so it never fails for want of a key. */
  lemma DefaultEncryptionFollowsKey(conf: Configuration, env: Environment)
    requires ENCRYPTION_KEY !in conf && INTEGRITY_KEY !in conf
    ensures CreateOutputStream(conf, env) != Err(RuntimeExceptionOf(IOException("Encryption was requested but not key was specified")))
    ensures CreateOutputStream(conf, env).Ok? ==>
      (CreateOutputStream(conf, env).value[1].Encryption? <==> !GetKey(conf, env).value.NoKey?)
  {
    if GetSettings(conf, env).Ok? {
      EncryptionDefaults(conf, env);
    }
  }

  /** The compressor looks keys up as written: a configured sixteen-digit
      key ID of a usable key in the key ring file is not found, and the
      chain is not built. */
  lemma FullKeyIdNotFound(id: string, env: Environment, k: PublicKey)
    requires |id| == 16 && ParseHexLong(id).Ok? && ParseHexLong(id).value != 0
    requires k.keyId == ParseHexLong(id).value && k.isEncryptionKey && !k.isRevoked
    requires ReadPubring(env, GetPubringFile(map[KEY_ID_KEY := id], env)) == Ok([[k]])
    ensures CreateOutputStream(map[KEY_ID_KEY := id], env) ==
      Err(KeyNotFoundExceptionOf(KeyNotFoundException("key not found: " + id)))
  {
    FullIdMissedAsWritten(id, k);
  }

  /** An empty configuration gives a bare literal data packet in binary
      format with 16 kB buffers: no encryption and no compression. */
  lemma DefaultChain(env: Environment)
    ensures CreateOutputStream(map[], env) == Ok([Target, LiteralData(BINARY, "", NOW, 0x4000)])
  {
    var conf: Configuration := map[];
    assert GetKey(conf, env) == Ok(NoKey);
    EncryptionDefaults(conf, env);
    CompressionSetting(conf);
    assert GetSettings(conf, env) == Ok(Settings(NoKey, NULL_ENCRYPTION, false, UNCOMPRESSED, BINARY, 0x4000));
    assert Chain(NoKey, NULL_ENCRYPTION, false, UNCOMPRESSED, BINARY, "", NOW, 0x4000).value == [Target, LiteralData(BINARY, "", NOW, 0x4000)];
  }

  /** With only a pass phrase configured, the settings are the defaults
      for a key: CAST5 with an integrity packet, no compression, binary
      data and the default buffer size. */
  lemma PassPhraseSettings(env: Environment, phrase: string)
    ensures GetSettings(map[PASS_PHRASE_KEY := phrase], env) ==
      Ok(Settings(PassPhrase(phrase), 3, true, UNCOMPRESSED, BINARY, 0x4000))
  {
    var conf := map[PASS_PHRASE_KEY := phrase];
    assert GetKey(conf, env) == Ok(PassPhrase(phrase));
    EncryptionDefaults(conf, env);
    CompressionSetting(conf);
  }

  /** A pass phrase alone gives symmetric CAST5 encryption with an
      integrity packet, over a binary literal data packet. */
  lemma PassPhraseChain(env: Environment, phrase: string)
    ensures var conf := map[PASS_PHRASE_KEY := phrase];
      CreateOutputStream(conf, env) ==
        Ok([Target, Encryption(3, true, PassPhrase(phrase), 0x4000), LiteralData(BINARY, "", NOW, 0x4000)])
  {
    PassPhraseSettings(env, phrase);
    assert Chain(PassPhrase(phrase), 3, true, UNCOMPRESSED, BINARY, "", NOW, 0x4000).value ==
      [Target, Encryption(3, true, PassPhrase(phrase), 0x4000), LiteralData(BINARY, "", NOW, 0x4000)];
  }

  /** The unit test's plain chain: no encryption, no integrity packet and
      no compression give the target and a UTF-8 literal data layer
      only, whatever the key. */
  method PlainChain(key: Key) returns (r: Result<seq<Layer>, Exception>)
    ensures r == Ok([Target, LiteralData(UTF8, "", NOW, 0x4000)])
  {
    r := CreateChain(key, NULL_ENCRYPTION, false, UNCOMPRESSED, UTF8, "", NOW, 0x4000);
    assert r.value == [Target, LiteralData(UTF8, "", NOW, 0x4000)];
  }
}
