/** The OpenPGP decompressor's choice of input stream: the data of the
    first literal data packet of the message, found depth first through
    compressed packets and public-key-encrypted packets. Packets are
    given as a tree; parsing, decompressing and decrypting them belong
    to the OpenPGP library. */
module OpenPgpDecompressor {
  import opened Common
  import opened GnuPgUtils

  const INTEGRITY_VERIFY_KEY: string := "spotify.hadoop.openpgp.integrity.verify"

  /** A packet as the packet factory returns it. A compressed packet
      holds the packets its data decompresses to; an unreadable packet
      stands for the factory failing with `error`. */
  datatype Packet =
    | LiteralData(data: seq<byte>)
    | CompressedData(packets: seq<Packet>)
    | EncryptedDataList(entries: seq<EncryptedData>)
    | Unreadable(error: Exception)
    | OtherPacket

  /** An entry of an encrypted data list. A public-key-encrypted entry
      names the key it is encrypted to, the failure opening its data with
      that key if opening fails, and otherwise the packets its data
      decrypts to. */
  datatype EncryptedData =
    | PublicKeyEncrypted(keyId: KeyId, openError: Option<Exception>, packets: seq<Packet>)
    | OtherEncrypted

  /** The private key factory: the key IDs it has a private key for;
      asking for any other throws `missing`. */
  datatype KeyFactory = KeyFactory(keys: set<KeyId>, missing: Exception)

  /** `getFirstLiteralDataInputStream` over a packet sequence: packets in
      order; a literal data packet ends the search with its data; a
      compressed packet is searched, and the search goes on after it when
      it holds no literal data; an encrypted data list is searched entry
      by entry; other packets are skipped; the end gives null. */
  function SearchPackets(ps: seq<Packet>, f: KeyFactory): (r: Result<Option<seq<byte>>, Exception>)
    ensures (forall j :: 0 <= j < |ps| ==> ps[j].OtherPacket?) ==> r == Ok(None)
    ensures r.Err? ==> exists j :: 0 <= j < |ps| && !ps[j].LiteralData? && !ps[j].OtherPacket?
    decreases ps
  {
    if ps == [] then Ok(None)
    else
      match ps[0]
      case LiteralData(data) => Ok(Some(data))
      case CompressedData(inner) =>
        (match SearchPackets(inner, f)
         case Ok(None) => SearchPackets(ps[1..], f)
         case found => found)
      case EncryptedDataList(entries) =>
        (match SearchEntries(entries, f)
         case Ok(None) => SearchPackets(ps[1..], f)
         case found => found)
      case Unreadable(e) => Err(e)
      case OtherPacket => SearchPackets(ps[1..], f)
  }

  /** The loop over an encrypted data list: a public-key-encrypted entry
      is opened with the factory's key for its key ID and searched; other
      entries are skipped. */
  function SearchEntries(es: seq<EncryptedData>, f: KeyFactory): (r: Result<Option<seq<byte>>, Exception>)
    ensures (forall j :: 0 <= j < |es| ==> es[j].OtherEncrypted?) ==> r == Ok(None)
    ensures r.Err? ==> exists j :: 0 <= j < |es| && es[j].PublicKeyEncrypted?
    decreases es
  {
    if es == [] then Ok(None)
    else
      match es[0]
      case OtherEncrypted => SearchEntries(es[1..], f)
      case PublicKeyEncrypted(keyId, openError, inner) =>
        if keyId !in f.keys then Err(f.missing)
        else if openError.Some? then Err(openError.value)
        else
          match SearchPackets(inner, f)
          case Ok(None) => SearchEntries(es[1..], f)
          case found => found
  }

  /** What the search can meet that ends it: literal data, or a failure. */
  datatype Event = Found(data: seq<byte>) | Failed(error: Exception)

  /** The events of a packet sequence in depth-first order. */
  function Events(ps: seq<Packet>, f: KeyFactory): seq<Event>
    decreases ps
  {
    if ps == [] then []
    else
      var first :=
        match ps[0]
        case LiteralData(data) => [Found(data)]
        case CompressedData(inner) => Events(inner, f)
        case EncryptedDataList(entries) => EntryEvents(entries, f)
        case Unreadable(e) => [Failed(e)]
        case OtherPacket => [];
      first + Events(ps[1..], f)
  }

  /** The events of an encrypted data list in depth-first order. */
  function EntryEvents(es: seq<EncryptedData>, f: KeyFactory): seq<Event>
    decreases es
  {
    if es == [] then []
    else
      var first :=
        match es[0]
        case OtherEncrypted => []
        case PublicKeyEncrypted(keyId, openError, inner) =>
          if keyId !in f.keys then [Failed(f.missing)]
          else if openError.Some? then [Failed(openError.value)]
          else Events(inner, f);
      first + EntryEvents(es[1..], f)
  }

  /** The outcome the first event decides: its data, its failure, or
      null when there is none. */
  function FirstEvent(events: seq<Event>): (r: Result<Option<seq<byte>>, Exception>)
    ensures r == Ok(None) <==> events == []
  {
    if events == [] then Ok(None)
    else if events[0].Found? then Ok(Some(events[0].data))
    else Err(events[0].error)
  }

  lemma FirstEventOfConcat(a: seq<Event>, b: seq<Event>)
    ensures FirstEvent(a + b) == if a == [] then FirstEvent(b) else FirstEvent(a)
  {
    if a == [] {
      assert a + b == b;
    } else {
      assert (a + b)[0] == a[0];
    }
  }

  /** The search returns what the first event in depth-first order
      decides. */
  lemma {:induction false} SearchIsFirstEvent(ps: seq<Packet>, f: KeyFactory)
    ensures SearchPackets(ps, f) == FirstEvent(Events(ps, f))
    decreases ps
  {
    if ps != [] {
      var rest := Events(ps[1..], f);
      SearchIsFirstEvent(ps[1..], f);
      match ps[0]
      case LiteralData(data) =>
        FirstEventOfConcat([Found(data)], rest);
      case CompressedData(inner) =>
        SearchIsFirstEvent(inner, f);
        FirstEventOfConcat(Events(inner, f), rest);
      case EncryptedDataList(entries) =>
        EntrySearchIsFirstEvent(entries, f);
        FirstEventOfConcat(EntryEvents(entries, f), rest);
      case Unreadable(e) =>
        FirstEventOfConcat([Failed(e)], rest);
      case OtherPacket =>
        FirstEventOfConcat([], rest);
    }
  }

  lemma {:induction false} EntrySearchIsFirstEvent(es: seq<EncryptedData>, f: KeyFactory)
    ensures SearchEntries(es, f) == FirstEvent(EntryEvents(es, f))
    decreases es
  {
    if es != [] {
      var rest := EntryEvents(es[1..], f);
      EntrySearchIsFirstEvent(es[1..], f);
      match es[0]
      case OtherEncrypted =>
        FirstEventOfConcat([], rest);
      case PublicKeyEncrypted(keyId, openError, inner) =>
        if keyId !in f.keys {
          FirstEventOfConcat([Failed(f.missing)], rest);
        } else if openError.Some? {
          FirstEventOfConcat([Failed(openError.value)], rest);
        } else {
          SearchIsFirstEvent(inner, f);
          FirstEventOfConcat(Events(inner, f), rest);
        }
    }
  }

  /** The search finds data exactly when the first depth-first event is
      literal data, and then returns that data; it fails exactly when
      the first event is a failure. */
  lemma SearchFindsFirstLiteral(ps: seq<Packet>, f: KeyFactory)
    ensures var events := Events(ps, f);
      && (SearchPackets(ps, f).Ok? && SearchPackets(ps, f).value.Some? <==> events != [] && events[0].Found?)
      && (events != [] && events[0].Found? ==> SearchPackets(ps, f) == Ok(Some(events[0].data)))
      && (SearchPackets(ps, f).Err? <==> events != [] && events[0].Failed?)
      && (SearchPackets(ps, f) == Ok(None) <==> events == [])
  {
    SearchIsFirstEvent(ps, f);
  }

  /** A flat message: when no packet is compressed, encrypted or
      unreadable, the search returns the data of the first literal data
      packet, or null when there is none. */
  lemma {:induction false} FlatSearch(ps: seq<Packet>, f: KeyFactory, i: nat)
    requires forall j :: 0 <= j < |ps| ==> ps[j].LiteralData? || ps[j].OtherPacket?
    requires i <= |ps| && (i < |ps| ==> ps[i].LiteralData?)
    requires forall j :: 0 <= j < i ==> ps[j].OtherPacket?
    ensures SearchPackets(ps, f) == if i < |ps| then Ok(Some(ps[i].data)) else Ok(None)
    decreases i
  {
    if ps != [] && i > 0 {
      assert forall j :: 0 <= j < |ps| - 1 ==> ps[1..][j] == ps[j + 1];
      FlatSearch(ps[1..], f, i - 1);
    }
  }

  /** The static `createInputStream`: integrity verification is refused
      before anything is read; a message without literal data is an
      IOException; the library's PGPException and
      NoSuchProviderException come back wrapped in an IOException; any
      other failure passes through. */
  function CreateInputStream(ps: seq<Packet>, verifySign: bool, f: KeyFactory): (r: Result<seq<byte>, Exception>)
    ensures verifySign ==> r == Err(UnsupportedOperationException(Some("Message integrity validation not yet implemented.")))
    ensures r.Ok? <==> !verifySign && SearchPackets(ps, f).Ok? && SearchPackets(ps, f).value.Some?
    ensures r.Ok? ==> r.value == SearchPackets(ps, f).value.value
    ensures r.Err? ==> !r.error.PGPException? && !r.error.NoSuchProviderException?
  {
    if verifySign then Err(UnsupportedOperationException(Some("Message integrity validation not yet implemented.")))
    else
      match SearchPackets(ps, f)
      case Ok(Some(data)) => Ok(data)
      case Ok(None) => Err(IOException("No OpenPGP literal data found"))
      case Err(e) => if e.PGPException? || e.NoSuchProviderException? then Err(IOExceptionOf(e)) else Err(e)
  }

  /** The decompressor's `createInputStream`: verification as configured,
      off by default. */
  function CreateInputStreamFor(conf: Configuration, ps: seq<Packet>, f: KeyFactory): (r: Result<seq<byte>, Exception>)
    ensures INTEGRITY_VERIFY_KEY !in conf ==> r == CreateInputStream(ps, false, f)
    ensures INTEGRITY_VERIFY_KEY in conf && EqualsIgnoreCase(conf[INTEGRITY_VERIFY_KEY], "true") ==>
      r == Err(UnsupportedOperationException(Some("Message integrity validation not yet implemented.")))
  {
    CreateInputStream(ps, GetBoolean(conf, INTEGRITY_VERIFY_KEY, false), f)
  }

  /** The error rules of `createInputStream`, stated against the
      depth-first events: verification is refused whatever the message;
      otherwise the first event decides, data being returned, no event
      being "no literal data", and a library failure being wrapped. */
  lemma CreateInputStreamRules(ps: seq<Packet>, verifySign: bool, f: KeyFactory)
    ensures verifySign ==>
      CreateInputStream(ps, verifySign, f) == Err(UnsupportedOperationException(Some("Message integrity validation not yet implemented.")))
    ensures !verifySign ==>
      var events := Events(ps, f);
      && (events == [] ==> CreateInputStream(ps, verifySign, f) == Err(IOException("No OpenPGP literal data found")))
      && (events != [] && events[0].Found? ==> CreateInputStream(ps, verifySign, f) == Ok(events[0].data))
      && (events != [] && events[0].Failed? ==>
            var e := events[0].error;
            CreateInputStream(ps, verifySign, f) ==
              if e.PGPException? || e.NoSuchProviderException? then Err(IOExceptionOf(e)) else Err(e))
  {
    SearchIsFirstEvent(ps, f);
  }

  /** Verification is off unless configured "true" in any case. */
  lemma VerificationSetting(conf: Configuration, ps: seq<Packet>, f: KeyFactory)
    ensures CreateInputStreamFor(conf, ps, f) == CreateInputStream(ps,
      INTEGRITY_VERIFY_KEY in conf && EqualsIgnoreCase(conf[INTEGRITY_VERIFY_KEY], "true"), f)
  {
  }

  /** A message encrypted to a key the factory holds: the entry for that
      key decrypts to a compressed packet holding the literal data, whose
      data becomes the input stream; entries of other kinds before it are
      passed over. */
  lemma EncryptedMessage(text: seq<byte>, id: KeyId, f: KeyFactory)
    requires id in f.keys
    ensures CreateInputStream(
      [EncryptedDataList([OtherEncrypted, PublicKeyEncrypted(id, None, [CompressedData([OtherPacket, LiteralData(text)])])])],
      false, f) == Ok(text)
  {
    var literal := [OtherPacket, LiteralData(text)];
    assert SearchPackets(literal, f) == Ok(Some(text)) by {
      assert literal[1..] == [LiteralData(text)];
    }
    var compressed := [CompressedData(literal)];
    assert SearchPackets(compressed, f) == Ok(Some(text));
    var entries := [OtherEncrypted, PublicKeyEncrypted(id, None, compressed)];
    assert SearchEntries(entries, f) == Ok(Some(text)) by {
      assert entries[1..] == [PublicKeyEncrypted(id, None, compressed)];
    }
  }

  /** A compressed packet without literal data does not end the search:
      the literal data packet after it is found. */
  lemma SearchGoesOnAfterCompressed(text: seq<byte>, f: KeyFactory)
    ensures SearchPackets([CompressedData([OtherPacket]), LiteralData(text)], f) == Ok(Some(text))
  {
    var ps := [CompressedData([OtherPacket]), LiteralData(text)];
    assert [OtherPacket][1..] == [];
    assert ps[1..] == [LiteralData(text)];
  }

  /** A message encrypted to several keys fails when the factory lacks the
      key of the first public-key-encrypted entry, even if it has the key
      of a later one: the factory's failure ends the search. */
  lemma MissingKeyEndsSearch(text: seq<byte>, missing: KeyId, held: KeyId, f: KeyFactory)
    requires missing !in f.keys && held in f.keys
    ensures SearchPackets([EncryptedDataList([
      PublicKeyEncrypted(missing, None, [LiteralData(text)]),
      PublicKeyEncrypted(held, None, [LiteralData(text)])])], f) == Err(f.missing)
  {
  }
}
