/**
 Strict DER: the minimal-length tag-length-value printing of section 10.1 of
 ITU-T X.690, and the reader that accepts exactly it (lengths below 2^32).
 */
module Der {
  import opened Wrappers

  type Bytes = seq<byte>

  const MAX_LENGTH := 0x1_0000_0000

  /** Base-256 digits, most significant first, none for zero. */
  function BigEndian(n: nat): (digits: Bytes)
    ensures n > 0 ==> digits != [] && digits[0] != 0
  {
    if n == 0 then [] else BigEndian(n / 256) + [(n % 256) as byte]
  }

  function Value(digits: Bytes): nat {
    if digits == [] then 0 else Value(digits[..|digits| - 1]) * 256 + digits[|digits| - 1] as nat
  }

  /** The length octets: short form below 128, otherwise a count and the minimal digits. */
  function LengthOctets(n: nat): Bytes
    requires n < MAX_LENGTH
  {
    if n < 128 then [n as byte]
    else
      BigEndianShort(n);
      [(128 + |BigEndian(n)|) as byte] + BigEndian(n)
  }

  function Tlv(tag: byte, content: Bytes): Bytes
    requires |content| < MAX_LENGTH
  {
    [tag] + LengthOctets(|content|) + content
  }

  lemma {:induction false} BigEndianValue(n: nat)
    ensures Value(BigEndian(n)) == n
  {
    if n > 0 {
      BigEndianValue(n / 256);
      assert BigEndian(n)[..|BigEndian(n)| - 1] == BigEndian(n / 256);
    }
  }

  /** Digits without a leading zero are the printing of their value. */
  lemma {:induction false} ValueBigEndian(digits: Bytes)
    requires digits == [] || digits[0] != 0
    ensures BigEndian(Value(digits)) == digits
    decreases |digits|
  {
    if digits != [] {
      var front, last := digits[..|digits| - 1], digits[|digits| - 1];
      ValueBigEndian(front);
      assert digits == front + [last];
      assert Value(digits) / 256 == Value(front) && Value(digits) % 256 == last as nat;
      assert front == [] ==> last != 0;
      assert front != [] ==> Value(front) != 0;
    }
  }

  lemma {:induction false} BigEndianBound(n: nat, k: nat)
    requires n < Power256(k)
    ensures |BigEndian(n)| <= k
    decreases k
  {
    if n > 0 {
      if k == 0 { assert false; }
      BigEndianBound(n / 256, k - 1);
    }
  }

  function Power256(k: nat): nat { if k == 0 then 1 else 256 * Power256(k - 1) }

  lemma BigEndianShort(n: nat)
    requires n < MAX_LENGTH
    ensures |BigEndian(n)| <= 4
  {
    assert Power256(4) == MAX_LENGTH;
    BigEndianBound(n, 4);
  }

  lemma {:induction false} ValueBound(digits: Bytes)
    ensures Value(digits) < Power256(|digits|)
    decreases |digits|
  {
    if digits != [] {
      ValueBound(digits[..|digits| - 1]);
    }
  }

  lemma ValueShort(digits: Bytes)
    requires |digits| <= 4
    ensures Value(digits) < MAX_LENGTH
  {
    ValueBound(digits);
    assert Power256(0) == 1 && Power256(1) == 256 && Power256(2) == 65536 && Power256(3) == 16777216 && Power256(4) == MAX_LENGTH;
  }

  // ---------------------------------------------------------------- reading

  /** One element and what follows it. */
  datatype Piece = Piece(content: Bytes, rest: Bytes)

  /** Length of the header and of the content announced at the front of `s`. */
  datatype Header = Header(head: nat, size: nat)

  function ReadHeader(s: Bytes, tag: byte): (h: Option<Header>)
    ensures h.Some? ==> 2 <= h.value.head <= |s|
  {
    if |s| < 2 || s[0] != tag then None
    else if s[1] < 128 then Some(Header(2, s[1] as nat))
    else
      var n := s[1] as nat - 128;
      if n == 0 || n > 4 || |s| < 2 + n || s[2] == 0 then None
      else
        var size := Value(s[2..2 + n]);
        if size < 128 then None else Some(Header(2 + n, size))
  }

  function ReadTlv(s: Bytes, tag: byte): Option<Piece> {
    match ReadHeader(s, tag)
    case None => None
    case Some(Header(head, size)) =>
      if size > |s| - head then None else Some(Piece(s[head..head + size], s[head + size..]))
  }

  /** An element with known content; the result is what follows it. */
  function ReadExact(s: Bytes, tag: byte, content: Bytes): Option<Bytes> {
    match ReadTlv(s, tag)
    case None => None
    case Some(Piece(found, rest)) => if found != content then None else Some(rest)
  }

  /** An element that fills its parent. */
  function ReadOnly(s: Bytes, tag: byte): Option<Bytes> {
    match ReadTlv(s, tag)
    case None => None
    case Some(Piece(content, rest)) => if rest != [] then None else Some(content)
  }

  lemma LengthOctetsRead(tag: byte, n: nat, tail: Bytes)
    requires n < MAX_LENGTH
    ensures ReadHeader([tag] + LengthOctets(n) + tail, tag) == Some(Header(1 + |LengthOctets(n)|, n))
  {
    var s := [tag] + LengthOctets(n) + tail;
    if n >= 128 {
      BigEndianShort(n);
      BigEndianValue(n);
      var digits := BigEndian(n);
      assert s[1] as nat == 128 + |digits|;
      assert s[2..2 + |digits|] == digits;
    }
  }

  lemma HeaderIsMinimal(s: Bytes, tag: byte)
    requires ReadHeader(s, tag).Some?
    ensures var Header(head, size) := ReadHeader(s, tag).value;
            size < MAX_LENGTH && s[..head] == [tag] + LengthOctets(size)
  {
    if s[1] >= 128 {
      var digits := s[2..2 + (s[1] as nat - 128)];
      ValueShort(digits);
      ValueBigEndian(digits);
    }
  }

  lemma ReadPrinted(tag: byte, content: Bytes, rest: Bytes)
    requires |content| < MAX_LENGTH
    ensures ReadTlv(Tlv(tag, content) + rest, tag) == Some(Piece(content, rest))
  {
    var front := [tag] + LengthOctets(|content|);
    var s := Tlv(tag, content) + rest;
    assert s == front + (content + rest);
    LengthOctetsRead(tag, |content|, content + rest);
    assert s[|front|..|front| + |content|] == content;
    assert s[|front| + |content|..] == rest;
  }

  lemma PrintRead(s: Bytes, tag: byte)
    requires ReadTlv(s, tag).Some?
    ensures var Piece(content, rest) := ReadTlv(s, tag).value;
            |content| < MAX_LENGTH && s == Tlv(tag, content) + rest
  {
    HeaderIsMinimal(s, tag);
    var Header(head, size) := ReadHeader(s, tag).value;
    assert s == s[..head] + s[head..head + size] + s[head + size..];
  }

  /** The reader inverts the printer, and accepts nothing else: in particular no second length form. */
  lemma ReadInvertsPrint(s: Bytes, tag: byte, content: Bytes, rest: Bytes)
    ensures ReadTlv(s, tag) == Some(Piece(content, rest)) <==>
            |content| < MAX_LENGTH && s == Tlv(tag, content) + rest
  {
    if |content| < MAX_LENGTH { ReadPrinted(tag, content, rest); }
    if ReadTlv(s, tag).Some? { PrintRead(s, tag); }
  }

  lemma ExactInvertsPrint(s: Bytes, tag: byte, content: Bytes, rest: Bytes)
    requires |content| < MAX_LENGTH
    ensures ReadExact(s, tag, content) == Some(rest) <==> s == Tlv(tag, content) + rest
  {
    ReadInvertsPrint(s, tag, content, rest);
  }

  lemma OnlyInvertsPrint(s: Bytes, tag: byte, content: Bytes)
    ensures ReadOnly(s, tag) == Some(content) <==> |content| < MAX_LENGTH && s == Tlv(tag, content)
  {
    ReadInvertsPrint(s, tag, content, []);
    if |content| < MAX_LENGTH {
      assert Tlv(tag, content) + [] == Tlv(tag, content);
    }
  }

  lemma {:induction false} BigEndianSnoc(n: nat)
    requires n > 0
    ensures BigEndian(n) == BigEndian(n / 256) + [(n % 256) as byte]
  {
  }

  /** The length octets written out: one below 128, then a count and big-endian octets, as few as possible. */
  lemma LengthsAre(n: nat)
    requires n < 0x1_0000_0000
    ensures n < 128 ==> LengthOctets(n) == [n as byte]
    ensures 128 <= n < 256 ==> LengthOctets(n) == [0x81, n as byte]
    ensures 256 <= n < 65536 ==> LengthOctets(n) == [0x82, (n / 256) as byte, (n % 256) as byte]
    ensures 65536 <= n < 0x100_0000 ==> LengthOctets(n) == [0x83, (n / 65536) as byte, (n / 256 % 256) as byte, (n % 256) as byte]
    ensures 0x100_0000 <= n ==>
              LengthOctets(n) ==
              [0x84, (n / 0x100_0000) as byte, (n / 65536 % 256) as byte, (n / 256 % 256) as byte, (n % 256) as byte]
  {
    hide BigEndian;
    var a := n / 256;
    var b := a / 256;
    var c := b / 256;
    assert b == n / 65536 && c == n / 0x100_0000 && c / 256 == 0;
    BigEndianZero();
    if n > 0 { BigEndianSnoc(n); }
    if a > 0 { BigEndianSnoc(a); }
    if b > 0 { BigEndianSnoc(b); }
    if c > 0 { BigEndianSnoc(c); }
  }

  lemma BigEndianZero()
    ensures BigEndian(0) == []
  {
  }
}
