/**
 The authenticated-CMS shape gate: AuthEnvelopedData (section 2.1 of RFC 5083)
 with AES-256-GCM (section 3.2 of RFC 5084), one recipient, and nothing else.
 */
module Cms {
  import opened Wrappers
  import opened Der

  // Content octets of 1.2.840.113549.1.9.16.1.23, 1.2.840.113549.1.7.1 and 2.16.840.1.101.3.4.1.46.
  const AUTH_ENVELOPED_DATA: Bytes := [0x2a, 0x86, 0x48, 0x86, 0xf7, 0x0d, 0x01, 0x09, 0x10, 0x01, 0x17]
  const DATA: Bytes := [0x2a, 0x86, 0x48, 0x86, 0xf7, 0x0d, 0x01, 0x07, 0x01]
  const AES256_GCM: Bytes := [0x60, 0x86, 0x48, 0x01, 0x65, 0x03, 0x04, 0x01, 0x2e]

  // ---------------------------------------------------------------- printing

  /** What varies between two accepted archives. */
  datatype Shape = Shape(recipient: Bytes, nonce: Bytes, cipher: Bytes, mac: Bytes) {
    predicate Valid() { recipient != [] && |nonce| == 12 && cipher != [] && |mac| == 16 }
  }

  function Params(nonce: Bytes): (s: Bytes)
    requires |nonce| == 12
    ensures |s| == 17
  {
    Tlv(4, nonce) + Tlv(2, [16])
  }

  function Algorithm(nonce: Bytes): (s: Bytes)
    requires |nonce| == 12
    ensures |s| == 30
  {
    Tlv(6, AES256_GCM) + Tlv(0x30, Params(nonce))
  }

  function Encrypted(nonce: Bytes, cipher: Bytes): Bytes
    requires |nonce| == 12 && |cipher| < MAX_LENGTH
  {
    Tlv(6, DATA) + Tlv(0x30, Algorithm(nonce)) + Tlv(0x80, cipher)
  }

  /** The nested contents, innermost first, each short enough for the length octets around it. */
  predicate AuthFits(shape: Shape)
    requires shape.Valid()
  {
    && |shape.recipient| < MAX_LENGTH && |Tlv(0x30, shape.recipient)| < MAX_LENGTH
    && |shape.cipher| < MAX_LENGTH && |Encrypted(shape.nonce, shape.cipher)| < MAX_LENGTH
  }

  function Auth(shape: Shape): Bytes
    requires shape.Valid() && AuthFits(shape)
  {
    Tlv(2, [0]) + Tlv(0x31, Tlv(0x30, shape.recipient)) + Tlv(0x30, Encrypted(shape.nonce, shape.cipher)) + Tlv(4, shape.mac)
  }

  function ContentInfo(auth: Bytes): Bytes
    requires |auth| < MAX_LENGTH && |Tlv(0x30, auth)| < MAX_LENGTH
  {
    Tlv(6, AUTH_ENVELOPED_DATA) + Tlv(0xa0, Tlv(0x30, auth))
  }

  predicate FileFits(auth: Bytes) {
    |auth| < MAX_LENGTH && |Tlv(0x30, auth)| < MAX_LENGTH && |ContentInfo(auth)| < MAX_LENGTH
  }

  predicate Printable(shape: Shape) { shape.Valid() && AuthFits(shape) && FileFits(Auth(shape)) }

  /** The unique DER printing of an archive. */
  function Print(shape: Shape): Bytes
    requires Printable(shape)
  {
    Tlv(0x30, ContentInfo(Auth(shape)))
  }

  // ---------------------------------------------------------------- recognizing

  function ReadParams(s: Bytes): Option<Bytes> {
    match ReadTlv(s, 4)
    case None => None
    case Some(Piece(nonce, rest)) =>
      if |nonce| != 12 || ReadExact(rest, 2, [16]) != Some([]) then None else Some(nonce)
  }

  function ReadAlgorithm(s: Bytes): Option<Bytes> {
    match ReadExact(s, 6, AES256_GCM)
    case None => None
    case Some(rest) =>
      match ReadOnly(rest, 0x30)
      case None => None
      case Some(params) => ReadParams(params)
  }

  datatype Sealed = Sealed(nonce: Bytes, cipher: Bytes)

  function ReadEncrypted(s: Bytes): Option<Sealed> {
    match ReadExact(s, 6, DATA)
    case None => None
    case Some(afterType) =>
      match ReadTlv(afterType, 0x30)
      case None => None
      case Some(Piece(algorithm, afterAlgorithm)) =>
        match (ReadAlgorithm(algorithm), ReadOnly(afterAlgorithm, 0x80))
        case (Some(nonce), Some(cipher)) => if cipher == [] then None else Some(Sealed(nonce, cipher))
        case _ => None
  }

  function ReadRecipients(s: Bytes): Option<Bytes> {
    match ReadOnly(s, 0x30)
    case None => None
    case Some(recipient) => if recipient == [] then None else Some(recipient)
  }

  datatype Body = Body(sealed: Sealed, mac: Bytes)

  function ReadBody(s: Bytes): Option<Body> {
    match ReadTlv(s, 0x30)
    case None => None
    case Some(Piece(encrypted, afterEncrypted)) =>
      match (ReadEncrypted(encrypted), ReadOnly(afterEncrypted, 4))
      case (Some(sealed), Some(mac)) => if |mac| != 16 then None else Some(Body(sealed, mac))
      case _ => None
  }

  function ReadAuth(s: Bytes): Option<Shape> {
    match ReadExact(s, 2, [0])
    case None => None
    case Some(afterVersion) =>
      match ReadTlv(afterVersion, 0x31)
      case None => None
      case Some(Piece(recipients, afterRecipients)) =>
        match (ReadRecipients(recipients), ReadBody(afterRecipients))
        case (Some(recipient), Some(body)) => Some(Shape(recipient, body.sealed.nonce, body.sealed.cipher, body.mac))
        case _ => None
  }

  function Recognize(s: Bytes): Option<Shape> {
    match ReadOnly(s, 0x30)
    case None => None
    case Some(content) =>
      match ReadExact(content, 6, AUTH_ENVELOPED_DATA)
      case None => None
      case Some(afterType) =>
        match ReadOnly(afterType, 0xa0)
        case None => None
        case Some(explicit) =>
          match ReadOnly(explicit, 0x30)
          case None => None
          case Some(auth) => ReadAuth(auth)
  }

  // ---------------------------------------------------------------- accepts iff printed

  lemma ParamsExact(s: Bytes, nonce: Bytes)
    ensures ReadParams(s) == Some(nonce) <==> |nonce| == 12 && s == Params(nonce)
  {
    ReadInvertsPrint(s, 4, nonce, Tlv(2, [16]));
    assert Tlv(2, [16]) + [] == Tlv(2, [16]);
    ExactInvertsPrint(Tlv(2, [16]), 2, [16], []);
    if ReadTlv(s, 4).Some? {
      ExactInvertsPrint(ReadTlv(s, 4).value.rest, 2, [16], []);
    }
  }

  lemma AlgorithmExact(s: Bytes, nonce: Bytes)
    ensures ReadAlgorithm(s) == Some(nonce) <==> |nonce| == 12 && s == Algorithm(nonce)
  {
    if |nonce| == 12 {
      var params := Tlv(0x30, Params(nonce));
      ExactInvertsPrint(s, 6, AES256_GCM, params);
      OnlyInvertsPrint(params, 0x30, Params(nonce));
      ParamsExact(Params(nonce), nonce);
    }
    if ReadAlgorithm(s) == Some(nonce) {
      var rest := ReadExact(s, 6, AES256_GCM).value;
      var params := ReadOnly(rest, 0x30).value;
      ExactInvertsPrint(s, 6, AES256_GCM, rest);
      OnlyInvertsPrint(rest, 0x30, params);
      ParamsExact(params, nonce);
    }
  }

  lemma Regroup3(a: Bytes, b: Bytes, c: Bytes)
    ensures a + b + c == a + (b + c)
  {
  }

  lemma Regroup4(a: Bytes, b: Bytes, c: Bytes, d: Bytes)
    ensures a + b + c + d == a + (b + (c + d))
  {
  }

  lemma EncryptedPrintedIsRead(nonce: Bytes, cipher: Bytes)
    requires |nonce| == 12 && cipher != [] && |cipher| < MAX_LENGTH
    ensures ReadEncrypted(Encrypted(nonce, cipher)) == Some(Sealed(nonce, cipher))
  {
    var s, sealed := Encrypted(nonce, cipher), Tlv(0x80, cipher);
    var rest := Tlv(0x30, Algorithm(nonce)) + sealed;
    Regroup3(Tlv(6, DATA), Tlv(0x30, Algorithm(nonce)), sealed);
    ExactInvertsPrint(s, 6, DATA, rest);
    ReadInvertsPrint(rest, 0x30, Algorithm(nonce), sealed);
    AlgorithmExact(Algorithm(nonce), nonce);
    OnlyInvertsPrint(sealed, 0x80, cipher);
  }

  lemma EncryptedReadIsPrinted(s: Bytes)
    requires ReadEncrypted(s).Some?
    ensures var Sealed(nonce, cipher) := ReadEncrypted(s).value;
            |nonce| == 12 && cipher != [] && |cipher| < MAX_LENGTH && s == Encrypted(nonce, cipher)
  {
    var Sealed(nonce, cipher) := ReadEncrypted(s).value;
    var rest := ReadExact(s, 6, DATA).value;
    var Piece(algorithm, sealed) := ReadTlv(rest, 0x30).value;
    ExactInvertsPrint(s, 6, DATA, rest);
    ReadInvertsPrint(rest, 0x30, algorithm, sealed);
    AlgorithmExact(algorithm, nonce);
    OnlyInvertsPrint(sealed, 0x80, cipher);
    Regroup3(Tlv(6, DATA), Tlv(0x30, algorithm), sealed);
  }

  lemma RecipientsExact(s: Bytes, recipient: Bytes)
    ensures ReadRecipients(s) == Some(recipient) <==>
            recipient != [] && |recipient| < MAX_LENGTH && s == Tlv(0x30, recipient)
  {
    OnlyInvertsPrint(s, 0x30, recipient);
  }

  lemma BodyPrintedIsRead(nonce: Bytes, cipher: Bytes, mac: Bytes)
    requires |nonce| == 12 && cipher != [] && |cipher| < MAX_LENGTH && |Encrypted(nonce, cipher)| < MAX_LENGTH && |mac| == 16
    ensures ReadBody(Tlv(0x30, Encrypted(nonce, cipher)) + Tlv(4, mac)) == Some(Body(Sealed(nonce, cipher), mac))
  {
    ReadInvertsPrint(Tlv(0x30, Encrypted(nonce, cipher)) + Tlv(4, mac), 0x30, Encrypted(nonce, cipher), Tlv(4, mac));
    EncryptedPrintedIsRead(nonce, cipher);
    OnlyInvertsPrint(Tlv(4, mac), 4, mac);
  }

  lemma AuthPrintedIsRead(shape: Shape)
    requires shape.Valid() && AuthFits(shape)
    ensures ReadAuth(Auth(shape)) == Some(shape)
  {
    var recipients, encrypted := Tlv(0x30, shape.recipient), Tlv(0x30, Encrypted(shape.nonce, shape.cipher));
    var body := encrypted + Tlv(4, shape.mac);
    Regroup4(Tlv(2, [0]), Tlv(0x31, recipients), encrypted, Tlv(4, shape.mac));
    ExactInvertsPrint(Auth(shape), 2, [0], Tlv(0x31, recipients) + body);
    ReadInvertsPrint(Tlv(0x31, recipients) + body, 0x31, recipients, body);
    RecipientsExact(recipients, shape.recipient);
    BodyPrintedIsRead(shape.nonce, shape.cipher, shape.mac);
  }

  lemma AuthReadIsPrinted(s: Bytes)
    requires ReadAuth(s).Some?
    ensures var shape := ReadAuth(s).value; shape.Valid() && AuthFits(shape) && s == Auth(shape)
  {
    var shape := ReadAuth(s).value;
    var afterVersion := ReadExact(s, 2, [0]).value;
    ExactInvertsPrint(s, 2, [0], afterVersion);
    var Piece(recipients, afterRecipients) := ReadTlv(afterVersion, 0x31).value;
    ReadInvertsPrint(afterVersion, 0x31, recipients, afterRecipients);
    RecipientsExact(recipients, shape.recipient);
    var Piece(encrypted, afterEncrypted) := ReadTlv(afterRecipients, 0x30).value;
    ReadInvertsPrint(afterRecipients, 0x30, encrypted, afterEncrypted);
    EncryptedReadIsPrinted(encrypted);
    OnlyInvertsPrint(afterEncrypted, 4, shape.mac);
    Regroup4(Tlv(2, [0]), Tlv(0x31, recipients), Tlv(0x30, encrypted), afterEncrypted);
  }

  lemma PrintedIsRecognized(shape: Shape)
    requires Printable(shape)
    ensures Recognize(Print(shape)) == Some(shape)
  {
    var auth := Auth(shape);
    var explicit := Tlv(0x30, auth);
    OnlyInvertsPrint(Print(shape), 0x30, ContentInfo(auth));
    ExactInvertsPrint(ContentInfo(auth), 6, AUTH_ENVELOPED_DATA, Tlv(0xa0, explicit));
    OnlyInvertsPrint(Tlv(0xa0, explicit), 0xa0, explicit);
    OnlyInvertsPrint(explicit, 0x30, auth);
    AuthPrintedIsRead(shape);
  }

  lemma RecognizedIsPrinted(s: Bytes)
    requires Recognize(s).Some?
    ensures Printable(Recognize(s).value) && s == Print(Recognize(s).value)
  {
    var content := ReadOnly(s, 0x30).value;
    OnlyInvertsPrint(s, 0x30, content);
    var afterType := ReadExact(content, 6, AUTH_ENVELOPED_DATA).value;
    ExactInvertsPrint(content, 6, AUTH_ENVELOPED_DATA, afterType);
    var explicit := ReadOnly(afterType, 0xa0).value;
    OnlyInvertsPrint(afterType, 0xa0, explicit);
    var auth := ReadOnly(explicit, 0x30).value;
    OnlyInvertsPrint(explicit, 0x30, auth);
    AuthReadIsPrinted(auth);
  }

  /** The gate accepts a byte string with a shape exactly when the string is that shape's printing. */
  lemma AcceptsIffPrinted(s: Bytes, shape: Shape)
    ensures Recognize(s) == Some(shape) <==> Printable(shape) && s == Print(shape)
  {
    if Printable(shape) { PrintedIsRecognized(shape); }
    if Recognize(s).Some? { RecognizedIsPrinted(s); }
  }

  /** Printings are unique: two archives with the same bytes are the same archive. */
  lemma PrintIsInjective(a: Shape, b: Shape)
    requires Printable(a) && Printable(b) && Print(a) == Print(b)
    ensures a == b
  {
    PrintedIsRecognized(a);
    PrintedIsRecognized(b);
  }

  lemma TlvLength(tag: byte, content: Bytes)
    requires |content| < MAX_LENGTH
    ensures |content| + 2 <= |Tlv(tag, content)| <= |content| + 6
  {
    BigEndianShort(|content|);
  }

  /** Every valid shape has a printing unless it comes within 200 bytes of the 32-bit length limit. */
  lemma PrintableBelowLimit(shape: Shape)
    requires shape.Valid() && |shape.recipient| + |shape.cipher| + 200 <= MAX_LENGTH
    ensures Printable(shape)
  {
    TlvLength(0x30, shape.recipient);
    TlvLength(0x80, shape.cipher);
    var algorithm := Tlv(0x30, Algorithm(shape.nonce));
    assert |algorithm| == 32;
    var encrypted := Encrypted(shape.nonce, shape.cipher);
    TlvLength(0x31, Tlv(0x30, shape.recipient));
    TlvLength(0x30, encrypted);
    var auth := Auth(shape);
    TlvLength(0x30, auth);
    TlvLength(0xa0, Tlv(0x30, auth));
  }

  // ---------------------------------------------------------------- the bytes themselves

  /** Base-128 digits of an arc, all but the last with the high bit set (section 8.19 of ITU-T X.690). */
  function Arc(n: nat): Bytes {
    if n < 128 then [n as byte] else High(n / 128) + [(n % 128) as byte]
  }

  function High(n: nat): Bytes {
    if n < 128 then [(128 + n) as byte] else High(n / 128) + [(128 + n % 128) as byte]
  }

  function Arcs(arcs: seq<nat>): Bytes {
    if arcs == [] then [] else Arc(arcs[0]) + Arcs(arcs[1..])
  }

  /** The content octets of an object identifier. */
  function Oid(first: nat, second: nat, rest: seq<nat>): Bytes { Arc(40 * first + second) + Arcs(rest) }

  lemma ArcValues()
    ensures Arc(840) == [0x86, 0x48] && Arc(113549) == [0x86, 0xf7, 0x0d]
  {
    assert High(6) == [0x86] && 840 / 128 == 6 && 840 % 128 == 0x48;
    assert High(887) == [0x86, 0xf7] by { assert 887 / 128 == 6 && 887 % 128 == 0x77; }
    assert 113549 / 128 == 887 && 113549 % 128 == 0x0d;
  }

  lemma {:induction false} ArcsCons(a: nat, rest: seq<nat>)
    ensures Arcs([a] + rest) == Arc(a) + Arcs(rest)
  {
    assert ([a] + rest)[1..] == rest;
  }

  /** Arcs below 128 are their own octets. */
  lemma {:induction false} SmallArc(a: nat, rest: seq<nat>)
    requires a < 128
    ensures Arcs([a] + rest) == [a as byte] + Arcs(rest)
  {
    ArcsCons(a, rest);
  }

  lemma Rsadsi(rest: seq<nat>)
    ensures Oid(1, 2, [840] + ([113549] + rest)) == [0x2a, 0x86, 0x48, 0x86, 0xf7, 0x0d] + Arcs(rest)
  {
    ArcValues();
    ArcsCons(840, [113549] + rest);
    ArcsCons(113549, rest);
  }

  lemma {:induction false} LastArc(a: nat)
    requires a < 128
    ensures Arcs([a]) == [a as byte]
  {
    assert [a][1..] == [];
  }

  /** The content type is id-ct-authEnvelopedData. */
  lemma ContentTypeIs()
    ensures AUTH_ENVELOPED_DATA == Oid(1, 2, [840, 113549, 1, 9, 16, 1, 23])
  {
    hide Arcs, Arc, Oid;
    Rsadsi([1, 9, 16, 1, 23]);
    SmallArc(1, [9, 16, 1, 23]);
    SmallArc(9, [16, 1, 23]);
    SmallArc(16, [1, 23]);
    SmallArc(1, [23]);
    LastArc(23);
    assert [840] + ([113549] + [1, 9, 16, 1, 23]) == [840, 113549, 1, 9, 16, 1, 23];
    assert [1] + [9, 16, 1, 23] == [1, 9, 16, 1, 23] && [9] + [16, 1, 23] == [9, 16, 1, 23];
    assert [16] + [1, 23] == [16, 1, 23] && [1] + [23] == [1, 23];
  }

  /** The encrypted content is id-data. */
  lemma DataTypeIs()
    ensures DATA == Oid(1, 2, [840, 113549, 1, 7, 1])
  {
    hide Arcs, Arc, Oid;
    Rsadsi([1, 7, 1]);
    SmallArc(1, [7, 1]);
    SmallArc(7, [1]);
    LastArc(1);
    assert [840] + ([113549] + [1, 7, 1]) == [840, 113549, 1, 7, 1];
    assert [1] + [7, 1] == [1, 7, 1] && [7] + [1] == [7, 1];
  }

  /** The algorithm is id-aes256-GCM. */
  lemma AlgorithmIs()
    ensures AES256_GCM == Oid(2, 16, [840, 1, 101, 3, 4, 1, 46])
  {
    ArcValues();
    assert Arc(96) == [0x60];
    hide Arcs, Arc;
    ArcsCons(840, [1, 101, 3, 4, 1, 46]);
    SmallArc(1, [101, 3, 4, 1, 46]);
    SmallArc(101, [3, 4, 1, 46]);
    SmallArc(3, [4, 1, 46]);
    SmallArc(4, [1, 46]);
    SmallArc(1, [46]);
    LastArc(46);
    assert [840] + [1, 101, 3, 4, 1, 46] == [840, 1, 101, 3, 4, 1, 46] && [1] + [101, 3, 4, 1, 46] == [1, 101, 3, 4, 1, 46];
    assert [101] + [3, 4, 1, 46] == [101, 3, 4, 1, 46] && [3] + [4, 1, 46] == [3, 4, 1, 46];
    assert [4] + [1, 46] == [4, 1, 46] && [1] + [46] == [1, 46];
  }

  lemma ShortTlv(tag: byte, content: Bytes)
    requires |content| < 128
    ensures Tlv(tag, content) == [tag, |content| as byte] + content
  {
  }

  /** A 12-octet nonce and the tag length 16. */
  lemma ParamsAre(nonce: Bytes)
    requires |nonce| == 12
    ensures Params(nonce) == [0x04, 0x0c] + nonce + [0x02, 0x01, 0x10]
  {
    hide Tlv;
    ShortTlv(4, nonce);
    ShortTlv(2, [16]);
  }

  lemma AlgorithmBytes(nonce: Bytes)
    requires |nonce| == 12
    ensures Algorithm(nonce) == [0x06, 0x09] + AES256_GCM + [0x30, 0x11] + Params(nonce)
  {
    hide Tlv, Params;
    ShortTlv(6, AES256_GCM);
    ShortTlv(0x30, Params(nonce));
  }

  lemma EncryptedBytes(nonce: Bytes, cipher: Bytes)
    requires |nonce| == 12 && |cipher| < 83
    ensures Encrypted(nonce, cipher) ==
            [0x06, 0x09] + DATA + [0x30, 0x1e] + Algorithm(nonce) + [0x80, |cipher| as byte] + cipher
  {
    hide Tlv, Algorithm;
    ShortTlv(6, DATA);
    ShortTlv(0x30, Algorithm(nonce));
    ShortTlv(0x80, cipher);
  }

  lemma AuthBytes(shape: Shape)
    requires shape.Valid() && AuthFits(shape) && |shape.recipient| + |shape.cipher| <= 38
    ensures |Encrypted(shape.nonce, shape.cipher)| == 45 + |shape.cipher|
    ensures var r, c := |shape.recipient|, |shape.cipher|;
            Auth(shape) ==
            [0x02, 0x01, 0x00] + [0x31, (r + 2) as byte, 0x30, r as byte] + shape.recipient +
            [0x30, (45 + c) as byte] + Encrypted(shape.nonce, shape.cipher) + [0x04, 0x10] + shape.mac
  {
    EncryptedBytes(shape.nonce, shape.cipher);
    hide Tlv, Encrypted;
    ShortTlv(2, [0]);
    ShortTlv(0x30, shape.recipient);
    ShortTlv(0x31, Tlv(0x30, shape.recipient));
    ShortTlv(0x30, Encrypted(shape.nonce, shape.cipher));
    ShortTlv(4, shape.mac);
  }

  /** The whole file, as long as every length fits in one octet: content type, explicit tag, authenticated data. */
  lemma ArchiveBytes(shape: Shape)
    requires shape.Valid() && |shape.recipient| + |shape.cipher| <= 38
    ensures Printable(shape)
    ensures var n := |shape.recipient| + |shape.cipher|;
            Print(shape) ==
            [0x30, (89 + n) as byte, 0x06, 0x0b] + AUTH_ENVELOPED_DATA +
            [0xa0, (74 + n) as byte, 0x30, (72 + n) as byte] + Auth(shape)
  {
    PrintableBelowLimit(shape);
    AuthBytes(shape);
    hide Tlv, Auth, Printable;
    var auth := Auth(shape);
    ShortTlv(0x30, auth);
    ShortTlv(0xa0, Tlv(0x30, auth));
    ShortTlv(6, AUTH_ENVELOPED_DATA);
    ShortTlv(0x30, ContentInfo(auth));
  }
}
