/** `did:key` identifiers: multicodec prefix, base58btc body, optional fragment. */
module DidKey {
  import opened Text
  import opened Base58
  import opened Base58Codec

  const CODEC_ED25519: nat := 0xed
  const CODEC_SECP256K1: nat := 0xe7
  const CODEC_P256: nat := 0x1200

  datatype Pubkey = Ed25519(bytes: seq<Byte>) | P256(bytes: seq<Byte>) | Secp256k1(bytes: seq<Byte>)

  datatype DidError = NotDidKey | InvalidMultibase | InvalidKeyLength | UnknownCodec

  function KeyLength(k: Pubkey): nat {
    if k.Ed25519? then 32 else 33
  }

  /** The lengths the key type allows. */
  predicate Legal(k: Pubkey) {
    |k.bytes| == KeyLength(k)
  }

  function CodecOf(k: Pubkey): nat {
    match k
    case Ed25519(_) => CODEC_ED25519
    case P256(_) => CODEC_P256
    case Secp256k1(_) => CODEC_SECP256K1
  }

  // ----------------------------------------------------------------- varint

  /** Unsigned varint of the multiformats specification. */
  function Varint(n: nat): seq<Byte> {
    if n < 128 then [n] else [128 + n % 128] + Varint(n / 128)
  }

  /** Its decoder: at most nine bytes, and no trailing zero byte. `i` is the
      number of bytes already read. */
  function ReadVarint(bs: seq<Byte>, i: nat): Option<(nat, seq<Byte>)> {
    if bs == [] || i > 8 then None
    else if bs[0] < 128 then
      if bs[0] == 0 && i > 0 then None else Some((bs[0], bs[1..]))
    else
      match ReadVarint(bs[1..], i + 1)
      case None => None
      case Some((n, rest)) => Some((bs[0] - 128 + 128 * n, rest))
  }

  /** 128 to the power `k`: what `k` varint bytes can hold. */
  function Capacity(k: nat): nat {
    if k == 0 then 1 else 128 * Capacity(k - 1)
  }

  lemma {:induction false} ReadWritten(n: nat, rest: seq<Byte>, i: nat)
    requires i <= 8 && n < Capacity(9 - i) && (i > 0 ==> n > 0)
    ensures ReadVarint(Varint(n) + rest, i) == Some((n, rest))
    decreases n
  {
    var bs := Varint(n) + rest;
    if n < 128 {
      assert bs[1..] == rest;
    } else {
      assert Capacity(9 - i) == 128 * Capacity(8 - i) && Capacity(0) == 1;
      assert i < 8;
      ReadWritten(n / 128, rest, i + 1);
      assert bs[1..] == Varint(n / 128) + rest;
    }
  }

  /** Whatever is accepted is the one minimal encoding of what it says. */
  lemma {:induction false} ReadIsMinimal(bs: seq<Byte>, i: nat)
    requires ReadVarint(bs, i).Some?
    ensures var (n, rest) := ReadVarint(bs, i).value; bs == Varint(n) + rest && (i > 0 ==> n > 0)
  {
    if bs[0] >= 128 {
      ReadIsMinimal(bs[1..], i + 1);
      var (n, rest) := ReadVarint(bs[1..], i + 1).value;
      var m := bs[0] - 128 + 128 * n;
      assert m >= 128 && m % 128 == bs[0] - 128 && m / 128 == n;
      assert bs == [bs[0]] + bs[1..];
    }
  }

  lemma CodecsFit()
    ensures Capacity(9) > 0x1200
  {
    assert Capacity(9) == 128 * Capacity(8) && Capacity(8) == 128 * Capacity(7) && Capacity(7) == 128 * Capacity(6);
    CapacityPositive(6);
  }

  lemma CapacityPositive(k: nat)
    ensures Capacity(k) >= 1
  {
  }

  // ------------------------------------------------------------- multicodec

  function ToMulticodec(k: Pubkey): seq<Byte> {
    Varint(CodecOf(k)) + k.bytes
  }

  function FromMulticodec(bs: seq<Byte>): Result<Pubkey, DidError> {
    match ReadVarint(bs, 0)
    case None => Err(InvalidMultibase)
    case Some((code, rest)) =>
      if code == CODEC_ED25519 then (if |rest| != 32 then Err(InvalidKeyLength) else Ok(Ed25519(rest)))
      else if code == CODEC_P256 then (if |rest| != 33 then Err(InvalidKeyLength) else Ok(P256(rest)))
      else if code == CODEC_SECP256K1 then (if |rest| != 33 then Err(InvalidKeyLength) else Ok(Secp256k1(rest)))
      else Err(UnknownCodec)
  }

  /** Multicodec bytes and legal keys correspond one to one. */
  lemma MulticodecExact(k: Pubkey, bs: seq<Byte>)
    ensures FromMulticodec(bs) == Ok(k) <==> Legal(k) && bs == ToMulticodec(k)
  {
    hide Varint, ReadVarint;
    if FromMulticodec(bs) == Ok(k) {
      ReadIsMinimal(bs, 0);
    }
    if Legal(k) && bs == ToMulticodec(k) {
      CodecsFit();
      ReadWritten(CodecOf(k), k.bytes, 0);
    }
  }

  lemma PrefixBytes()
    ensures Varint(CODEC_ED25519) == [0xed, 0x01]
    ensures Varint(CODEC_P256) == [0x80, 0x24]
    ensures Varint(CODEC_SECP256K1) == [0xe7, 0x01]
  {
    assert Varint(1) == [1] && Varint(0x24) == [0x24];
  }

  /** The bytes that start each kind of key, and the one length each takes. */
  lemma KnownPrefixes(bytes: seq<Byte>)
    ensures FromMulticodec([0xed, 0x01] + bytes) == if |bytes| == 32 then Ok(Ed25519(bytes)) else Err(InvalidKeyLength)
    ensures FromMulticodec([0x80, 0x24] + bytes) == if |bytes| == 33 then Ok(P256(bytes)) else Err(InvalidKeyLength)
    ensures FromMulticodec([0xe7, 0x01] + bytes) == if |bytes| == 33 then Ok(Secp256k1(bytes)) else Err(InvalidKeyLength)
  {
    PrefixBytes();
    CodecsFit();
    hide Varint, ReadVarint, Capacity;
    ReadWritten(CODEC_ED25519, bytes, 0);
    ReadWritten(CODEC_P256, bytes, 0);
    ReadWritten(CODEC_SECP256K1, bytes, 0);
  }

  /** A code that is none of the three is unknown, whatever follows it. */
  lemma UnknownPrefixes(n: nat, bytes: seq<Byte>)
    requires n < Capacity(9) && n !in {0xed, 0x1200, 0xe7}
    ensures FromMulticodec(Varint(n) + bytes) == Err(UnknownCodec)
  {
    hide Varint, ReadVarint;
    ReadWritten(n, bytes, 0);
  }

  // ------------------------------------------------------------ identifiers

  const PREFIX := "did:key:"

  /** The multibase text: the base58btc tag and the encoded payload. */
  function Body(k: Pubkey): string {
    "z" + Encode(ToMulticodec(k))
  }

  /** `encode`. */
  function EncodeDid(k: Pubkey): string {
    PREFIX + Body(k)
  }

  /** `decode`: prefix, fragment stripped, multibase tag, base58btc, multicodec. */
  function DecodeDid(did: string): Result<Pubkey, DidError> {
    if !(PREFIX <= did) then Err(NotDidKey)
    else
      var stripped := did[|PREFIX|..];
      var body := Split(stripped, '#')[0];
      if body == "" || body[0] != 'z' then Err(InvalidMultibase)
      else
        match Decode(body[1..])
        case None => Err(InvalidMultibase)
        case Some(bytes) => FromMulticodec(bytes)
  }

  lemma BodyLacksHash(k: Pubkey)
    ensures Lacks(Body(k), '#')
  {
    hide Encode;
    EncodedText(ToMulticodec(k));
  }

  /** The body, read on its own, names exactly the key it was made for. */
  lemma BodyExact(k: Pubkey, body: string)
    ensures (body != "" && body[0] == 'z' && Decode(body[1..]).Some?
             && FromMulticodec(Decode(body[1..]).value) == Ok(k))
        <==> Legal(k) && body == Body(k)
  {
    hide Encode, Decode, FromMulticodec, ToMulticodec;
    if Legal(k) && body == Body(k) {
      assert body[1..] == Encode(ToMulticodec(k));
      DecodeEncode(ToMulticodec(k));
      MulticodecExact(k, ToMulticodec(k));
    }
    if body != "" && body[0] == 'z' && Decode(body[1..]).Some? {
      MulticodecExact(k, Decode(body[1..]).value);
      EncodeDecode(body[1..]);
      assert body == "z" + body[1..];
    }
  }

  lemma FirstPart(s: string)
    ensures Lacks(s, '#') ==> Split(s, '#')[0] == s
    ensures !Lacks(s, '#') ==> Lacks(Split(s, '#')[0], '#') && exists f: string :: s == Split(s, '#')[0] + "#" + f
  {
    match SplitOnce(s, '#')
    case None =>
    case Some((a, b)) =>
      assert Split(s, '#')[0] == a;
      assert s == a + "#" + b;
  }

  lemma FirstPartOf(a: string, f: string)
    requires Lacks(a, '#')
    ensures Split(a + "#" + f, '#')[0] == a
  {
    SplitOnceAfter(a, '#', f);
  }

  /** `did` is the canonical identifier of `k`, alone or with a fragment. */
  ghost predicate Names(did: string, k: Pubkey) {
    did == EncodeDid(k) || exists f: string :: did == EncodeDid(k) + "#" + f
  }

  /** Canonicity: an identifier decodes to a key exactly when the key has a
      legal length and the identifier is that key's own encoding, with or
      without a fragment. So distinct fragment-free identifiers never name the
      same key, and every key round-trips. */
  lemma Canonicity(did: string, k: Pubkey)
    ensures DecodeDid(did) == Ok(k) <==> Legal(k) && Names(did, k)
  {
    hide Encode, Decode, FromMulticodec, ToMulticodec, Split, Lacks;
    BodyLacksHash(k);
    if PREFIX <= did {
      var stripped := did[|PREFIX|..];
      var body := Split(stripped, '#')[0];
      BodyExact(k, body);
      FirstPart(stripped);
      assert did == PREFIX + stripped;
      if body == Body(k) && !Lacks(stripped, '#') {
        var f: string :| stripped == body + "#" + f;
        assert did == EncodeDid(k) + "#" + f;
      }
    }
    if Names(did, k) {
      NamedBody(did, k);
    }
  }

  lemma NamedBody(did: string, k: Pubkey)
    requires Names(did, k)
    ensures PREFIX <= did && Split(did[|PREFIX|..], '#')[0] == Body(k)
  {
    hide Encode, ToMulticodec, Split, Lacks;
    BodyLacksHash(k);
    if did == EncodeDid(k) {
      assert did[|PREFIX|..] == Body(k);
      FirstPart(Body(k));
    } else {
      var f: string :| did == EncodeDid(k) + "#" + f;
      assert did[|PREFIX|..] == Body(k) + "#" + f;
      FirstPartOf(Body(k), f);
    }
  }

  lemma {:induction false} RoundTrip(k: Pubkey, fragment: string)
    requires Legal(k)
    ensures DecodeDid(EncodeDid(k)) == Ok(k) && DecodeDid(EncodeDid(k) + "#" + fragment) == Ok(k)
  {
    hide EncodeDid, DecodeDid;
    Canonicity(EncodeDid(k), k);
    Canonicity(EncodeDid(k) + "#" + fragment, k);
  }

  lemma OneIdentifierPerKey(a: string, b: string, k: Pubkey)
    requires DecodeDid(a) == Ok(k) && DecodeDid(b) == Ok(k) && Lacks(a, '#') && Lacks(b, '#')
    ensures a == b
  {
    hide EncodeDid, DecodeDid;
    Canonicity(a, k);
    Canonicity(b, k);
    NoFragment(a, k);
    NoFragment(b, k);
  }

  lemma NoFragment(did: string, k: Pubkey)
    requires Names(did, k) && Lacks(did, '#')
    ensures did == EncodeDid(k)
  {
    hide EncodeDid;
    forall f: string ensures did != EncodeDid(k) + "#" + f {
      assert (EncodeDid(k) + "#" + f)[|EncodeDid(k)|] == '#';
    }
  }

  /** Why an identifier is refused before its payload is looked at: it lacks the
      prefix, or its body up to a fragment is not base58btc text. */
  lemma RefusedBecause(did: string)
    ensures DecodeDid(did) == Err(NotDidKey) <==> |did| < 8 || did[..8] != "did:key:"
    ensures "did:key:" <= did && (did[8..] == "" || did[8] != 'z') ==> DecodeDid(did) == Err(InvalidMultibase)
  {
    hide Decode, ReadVarint;
    assert |PREFIX| == 8 && (PREFIX <= did <==> |did| >= 8 && did[..8] == PREFIX);
    if PREFIX <= did {
      FirstPart(did[8..]);
      hide Split;
      var body := Split(did[8..], '#')[0];
      if body != "" {
        assert body[0] == did[8];
      }
    }
  }

  // ------------------------------------------------ the Nostr DID document

  /** `format_multibase_schnorr`: the secp256k1 codec over a 32-byte x-only key. */
  function SchnorrMultibase(pk: seq<Byte>): string
    requires |pk| == 32
  {
    "z" + Encode([0xe7, 0x01] + pk)
  }

  /** That text carries the secp256k1 codec but one byte less than the key
      type needs, so `did:key` refuses it, for every key. */
  lemma {:induction false} SchnorrMultibaseIsNoDidKey(pk: seq<Byte>)
    requires |pk| == 32
    ensures DecodeDid(PREFIX + SchnorrMultibase(pk)) == Err(InvalidKeyLength)
  {
    var bs := [0xe7, 0x01] + pk;
    EncodedText(bs);
    DecodeEncode(bs);
    ShortKey(pk);
    hide Encode, Decode, DecodeDid, FromMulticodec;
    DecodeBody(Encode(bs), bs);
  }

  lemma DecodeBody(text: string, bs: seq<Byte>)
    requires Lacks(text, '#') && Decode(text) == Some(bs)
    ensures DecodeDid(PREFIX + ("z" + text)) == FromMulticodec(bs)
  {
    hide Decode, FromMulticodec, Split;
    var body := "z" + text;
    assert (PREFIX + body)[|PREFIX|..] == body;
    FirstPart(body);
    assert body[1..] == text;
  }

  lemma ShortKey(pk: seq<Byte>)
    requires |pk| == 32
    ensures FromMulticodec([0xe7, 0x01] + pk) == Err(InvalidKeyLength)
  {
    var bs := [0xe7, 0x01] + pk;
    assert bs[1..] == [0x01] + pk && bs[1..][1..] == pk;
    assert ReadVarint(bs[1..], 1) == Some((1, pk));
  }
}
