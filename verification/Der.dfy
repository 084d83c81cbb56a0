/** Reading the length of an RSA key from its DER encoding (ITU-T X.690, section 8.1), and the encoder it undoes. */
module Der {
  import opened Wrappers

  newtype Byte = n: int | 0 <= n < 256
  type Bytes = seq<Byte>

  const SEQUENCE: Byte := 0x30
  const INTEGER: Byte := 0x02
  const BIT_STRING: Byte := 0x03
  const DER_MAX_DEPTH: nat := 2

  // Reading -----------------------------------------------------------------------------------

  /** What kind of value was found, and that data[start..end] holds it. A read that fails gives None. */
  datatype Tlv = Tlv(tag: Byte, start: nat, end: nat)

  function BigEndian(bytes: Bytes): (n: nat) {
    if bytes == [] then 0 else BigEndian(bytes[..|bytes| - 1]) * 256 + bytes[|bytes| - 1] as int
  }

  /** Length octets: how many there are and the length they state. */
  datatype Length = Length(octets: nat, value: nat)

  function ReadLength(data: Bytes): (r: Option<Length>)
    ensures r.Some? ==> 1 <= r.value.octets <= |data|
  {
    if data == [] then None
    else if data[0] < 0x80 then Some(Length(1, data[0] as int))
    else
      var size := data[0] as int - 0x80;
      if !(0 < size <= 4) || 1 + size > |data| then None
      else Some(Length(1 + size, BigEndian(data[1..1 + size])))
  }

  /** The three numbers a successful read returns always mark a part of the data. */
  function ReadTlv(data: Bytes, pos: nat): (r: Option<Tlv>)
    ensures r.Some? ==> pos + 2 <= r.value.start <= r.value.end <= |data| && r.value.tag == data[pos]
  {
    if pos + 2 > |data| then None
    else
      match ReadLength(data[pos + 1..])
      case None => None
      case Some(length) =>
        var start := pos + 1 + length.octets;
        if start + length.value > |data| then None else Some(Tlv(data[pos], start, start + length.value))
  }

  /** Number of bits of n, zero for zero. */
  function BitLength(n: nat): nat {
    if n == 0 then 0 else 1 + BitLength(n / 2)
  }

  /** What the outer sequence starts with: the modulus of a bare key, or an algorithm and a key as bit string. */
  datatype Key = Modulus(octets: Bytes) | Wrapped(inner: Bytes)

  function BitString(der: Bytes, pos: nat): Option<Key> {
    match ReadTlv(der, pos)
    case None => None
    case Some(bits) => if bits.tag == BIT_STRING then Some(Wrapped(Slice(der, bits.start + 1, bits.end))) else None
  }

  function FirstField(der: Bytes, pos: nat): Option<Key> {
    match ReadTlv(der, pos)
    case None => None
    case Some(first) =>
      if first.tag == SEQUENCE then BitString(der, first.end)
      else if first.tag == INTEGER then Some(Modulus(der[first.start..first.end]))
      else None
  }

  function ReadKey(der: Bytes): Option<Key> {
    match ReadTlv(der, 0)
    case None => None
    case Some(outer) => if outer.tag == SEQUENCE then FirstField(der, outer.start) else None
  }

  function RsaKeyBits(der: Bytes, depth: nat): Option<nat>
    decreases DER_MAX_DEPTH - depth
  {
    if depth >= DER_MAX_DEPTH then None
    else
      match ReadKey(der)
      case None => None
      case Some(Wrapped(inner)) => RsaKeyBits(inner, depth + 1)
      case Some(Modulus(octets)) =>
        NonZero(BitLength(BigEndian(octets)))
  }

  function NonZero(n: nat): Option<nat> { if n == 0 then None else Some(n) }

  /** A Python slice: empty when the end comes before the start. */
  function Slice(data: Bytes, start: nat, end: nat): Bytes
    requires end <= |data|
  {
    if start <= end then data[start..end] else []
  }

  /** The head of a value: its tag, and a length of one octet below 128, or of one to four octets behind their number.
      */
  predicate HasHead(data: Bytes, pos: nat, tag: Byte, start: nat, size: nat) {
    && pos + 2 <= |data| && data[pos] == tag && start <= |data|
    && (|| (data[pos + 1] < 128 && start == pos + 2 && size == data[pos + 1] as int)
        || (129 <= data[pos + 1] <= 132 && start == pos + 2 + (data[pos + 1] as int - 128)
            && size == BigEndian(data[pos + 2..start])))
  }

  /** A value is read exactly when its head is there and its content lies within the data. */
  lemma ReadTlvExactly(data: Bytes, pos: nat, tag: Byte, start: nat, end: nat)
    requires start <= end
    ensures ReadTlv(data, pos) == Some(Tlv(tag, start, end))
       <==> HasHead(data, pos, tag, start, end - start) && end <= |data|
  {
    if pos + 2 <= |data| {
      var rest := data[pos + 1..];
      assert rest[0] == data[pos + 1];
      if data[pos + 1] >= 128 {
        var octets := data[pos + 1] as int - 128;
        assert 1 + octets <= |rest| ==> rest[1..1 + octets] == data[pos + 2..pos + 2 + octets];
      }
    }
  }

  /** A sequence that starts with an integer, and that integer. */
  predicate IsBare(der: Bytes, modulus: nat) {
    var outer := ReadTlv(der, 0);
    && outer.Some? && outer.value.tag == SEQUENCE
    && var first := ReadTlv(der, outer.value.start);
       && first.Some? && first.value.tag == INTEGER
       && modulus == BigEndian(der[first.value.start..first.value.end])
  }

  /** A sequence that starts with a sequence and goes on with a bit string, and what follows the first octet of that. */
  predicate Wraps(der: Bytes, inner: Bytes) {
    var outer := ReadTlv(der, 0);
    && outer.Some? && outer.value.tag == SEQUENCE
    && var first := ReadTlv(der, outer.value.start);
       && first.Some? && first.value.tag == SEQUENCE
       && var bits := ReadTlv(der, first.value.end);
          && bits.Some? && bits.value.tag == BIT_STRING
          && inner == Slice(der, bits.value.start + 1, bits.value.end)
  }

  /** On any bytes: a length is found exactly for a bare key that is not zero, or such a key wrapped once. */
  lemma KeyExactly(der: Bytes, b: nat)
    ensures RsaKeyBits(der, 0) == Some(b)
       <==> exists modulus :: b == BitLength(modulus) && b > 0
              && (IsBare(der, modulus) || exists inner :: Wraps(der, inner) && IsBare(inner, modulus))
  {
    BareExactly(der, b, 0);
    match ReadKey(der)
    case Some(Wrapped(inner)) =>
      assert Wraps(der, inner);
      BareExactly(inner, b, 1);
    case _ =>
  }

  lemma BareExactly(der: Bytes, b: nat, depth: nat)
    requires depth < DER_MAX_DEPTH
    ensures forall modulus :: IsBare(der, modulus) ==>
              ReadKey(der).Some? && ReadKey(der).value.Modulus? && modulus == BigEndian(ReadKey(der).value.octets)
    ensures ReadKey(der).Some? && ReadKey(der).value.Modulus? ==>
              IsBare(der, BigEndian(ReadKey(der).value.octets))
              && (RsaKeyBits(der, depth) == Some(b)
                  <==> b > 0 && b == BitLength(BigEndian(ReadKey(der).value.octets)))
  {
  }

  // What a bit length is ------------------------------------------------------------------------

  /** The bit length is the b with 2^(b-1) <= n < 2^b, and no other number is. */
  lemma {:induction false} BitLengthExact(n: nat, b: nat)
    requires n > 0
    ensures BitLength(n) == b <==> b > 0 && Pow2(b - 1) <= n < Pow2(b)
    decreases n
  {
    if n > 1 && b > 1 {
      BitLengthExact(n / 2, b - 1);
    } else if n > 1 {
      assert BitLength(n) == 1 + BitLength(n / 2) && BitLength(n / 2) > 0;
    }
  }

  // Writing ---------------------------------------------------------------------------------------

  /** The shortest big-endian form; empty for zero. */
  function Minimal(n: nat): (bytes: Bytes) {
    if n == 0 then [] else Minimal(n / 256) + [(n % 256) as Byte]
  }

  const LIMIT: nat := 0x1_0000_0000

  /** Content whose length fits in the four bytes the reader accepts. */
  predicate Fits(content: Bytes) { |content| < LIMIT }

  function EncodeLength(n: nat): (bytes: Bytes)
    requires n < LIMIT
    ensures bytes != []
  {
    if n < 0x80 then [n as Byte] else
      MinimalSize(n);
      [(0x80 + |Minimal(n)|) as Byte] + Minimal(n)
  }

  function EncodeTlv(tag: Byte, content: Bytes): Bytes
    requires Fits(content)
  {
    [tag] + EncodeLength(|content|) + content
  }

  /** Two's complement: a leading zero keeps a number with the high bit set positive. */
  function IntegerContent(n: nat): Bytes {
    var bytes := Minimal(n);
    if bytes == [] || bytes[0] >= 0x80 then [0] + bytes else bytes
  }

  /** Both numbers and the key around them have lengths the reader accepts. */
  predicate KeyFits(modulus: nat, exponent: nat) {
    && Fits(IntegerContent(modulus)) && Fits(IntegerContent(exponent))
    && Fits(EncodeTlv(INTEGER, IntegerContent(modulus)) + EncodeTlv(INTEGER, IntegerContent(exponent)))
  }

  /** RSAPublicKey of RFC 8017, appendix A.1.1: modulus, then exponent. */
  function EncodeRsaPublicKey(modulus: nat, exponent: nat): Bytes
    requires KeyFits(modulus, exponent)
  {
    EncodeTlv(SEQUENCE, EncodeTlv(INTEGER, IntegerContent(modulus)) + EncodeTlv(INTEGER, IntegerContent(exponent)))
  }

  predicate WrapFits(algorithm: Bytes, key: Bytes) {
    && Fits(algorithm) && Fits([0] + key)
    && Fits(EncodeTlv(SEQUENCE, algorithm) + EncodeTlv(BIT_STRING, [0] + key))
  }

  /** A SubjectPublicKeyInfo: one field for the algorithm, and a bit string whose first octet, a zero, precedes the
      key. */
  function Wrap(algorithm: Bytes, key: Bytes): Bytes
    requires WrapFits(algorithm, key)
  {
    EncodeTlv(SEQUENCE, EncodeTlv(SEQUENCE, algorithm) + EncodeTlv(BIT_STRING, [0] + key))
  }

  lemma {:induction false} BigEndianMinimal(n: nat)
    ensures BigEndian(Minimal(n)) == n
  {
    if n != 0 {
      BigEndianMinimal(n / 256);
      assert Minimal(n)[..|Minimal(n)| - 1] == Minimal(n / 256);
    }
  }

  lemma {:induction false} LeadingZero(bytes: Bytes)
    ensures BigEndian([0] + bytes) == BigEndian(bytes)
  {
    if bytes == [] {
      assert [0] + bytes == [0];
    } else {
      LeadingZero(bytes[..|bytes| - 1]);
      assert ([0] + bytes)[..|bytes|] == [0] + bytes[..|bytes| - 1];
    }
  }

  lemma MinimalSize(n: nat)
    requires 0 < n < LIMIT
    ensures 1 <= |Minimal(n)| <= 4
  {
    assert n / 256 / 256 / 256 / 256 == 0;
    assert n / 256 / 256 / 256 == 0 ==> |Minimal(n / 256 / 256 / 256)| == 0;
    assert |Minimal(n / 256 / 256 / 256 / 256)| == 0;
    assert |Minimal(n / 256 / 256 / 256)| <= 1;
    assert |Minimal(n / 256 / 256)| <= 2;
    assert |Minimal(n / 256)| <= 3;
  }

  // Round trips -----------------------------------------------------------------------------------

  function HeaderSize(content: Bytes): (n: nat)
    requires Fits(content)
    ensures forall tag :: n + |content| == |EncodeTlv(tag, content)|
  {
    1 + |EncodeLength(|content|)|
  }

  lemma ReadUndoesLength(n: nat, after: Bytes)
    requires n < LIMIT
    ensures ReadLength(EncodeLength(n) + after) == Some(Length(|EncodeLength(n)|, n))
  {
    if n >= 0x80 {
      MinimalSize(n);
      BigEndianMinimal(n);
      assert (EncodeLength(n) + after)[1..1 + |Minimal(n)|] == Minimal(n);
    }
  }

  function Marks(tag: Byte, pos: nat, content: Bytes): Tlv
    requires Fits(content)
  {
    Tlv(tag, pos + HeaderSize(content), pos + HeaderSize(content) + |content|)
  }

  lemma SplitAt<T>(data: seq<T>, a: seq<T>, x: T, b: seq<T>, c: seq<T>, d: seq<T>)
    requires data == a + ([x] + b + c) + d
    ensures data[|a|] == x && data[|a| + 1..] == b + (c + d)
    ensures data[|a| + 1 + |b|..|a| + 1 + |b| + |c|] == c
  {
  }

  /** The reader undoes the writer at any place of any data. */
  lemma ReadUndoesWrite(data: Bytes, before: Bytes, tag: Byte, content: Bytes, after: Bytes)
    requires Fits(content) && data == before + EncodeTlv(tag, content) + after
    ensures var tlv := Marks(tag, |before|, content);
            ReadTlv(data, |before|) == Some(tlv) && tlv.end <= |data| && data[tlv.start..tlv.end] == content
  {
    SplitAt(data, before, tag, EncodeLength(|content|), content, after);
    ReadUndoesLength(|content|, content + after);
  }

  lemma IntegerValue(n: nat)
    ensures BigEndian(IntegerContent(n)) == n
  {
    LeadingZero(Minimal(n));
    BigEndianMinimal(n);
  }

  /** In every lemma below, der is data whose parts are known. */
  lemma ReadOuter(der: Bytes, content: Bytes, after: Bytes)
    requires Fits(content) && der == EncodeTlv(SEQUENCE, content) + after
    ensures ReadKey(der) == FirstField(der, HeaderSize(content))
  {
    assert der == [] + EncodeTlv(SEQUENCE, content) + after;
    ReadUndoesWrite(der, [], SEQUENCE, content, after);
  }

  lemma ReadInteger(der: Bytes, before: Bytes, octets: Bytes, after: Bytes)
    requires Fits(octets) && der == before + EncodeTlv(INTEGER, octets) + after
    ensures FirstField(der, |before|) == Some(Modulus(octets))
  {
    ReadUndoesWrite(der, before, INTEGER, octets, after);
  }

  lemma ReadBareKey(der: Bytes, head: Bytes, number: Bytes, rest: Bytes, after: Bytes)
    requires Fits(number) && Fits(EncodeTlv(INTEGER, number) + rest)
    requires der == EncodeTlv(SEQUENCE, EncodeTlv(INTEGER, number) + rest) + after
    requires head == [SEQUENCE] + EncodeLength(|EncodeTlv(INTEGER, number) + rest|)
    ensures ReadKey(der) == Some(Modulus(number))
  {
    ReadOuter(der, EncodeTlv(INTEGER, number) + rest, after);
    Regroup(der, head, EncodeTlv(INTEGER, number), rest, after);
    ReadInteger(der, head, number, rest + after);
  }

  lemma Regroup<T>(data: seq<T>, head: seq<T>, a: seq<T>, b: seq<T>, c: seq<T>)
    requires data == head + (a + b) + c
    ensures data == head + a + (b + c)
  {
  }

  /** Every bare key whose lengths fit is read, whatever bytes follow it. */
  lemma BareKey(modulus: nat, exponent: nat, after: Bytes, depth: nat)
    requires modulus > 0 && KeyFits(modulus, exponent) && depth < DER_MAX_DEPTH
    ensures RsaKeyBits(EncodeRsaPublicKey(modulus, exponent) + after, depth) == Some(BitLength(modulus))
  {
    var number, rest := IntegerContent(modulus), EncodeTlv(INTEGER, IntegerContent(exponent));
    ReadBareKey(EncodeRsaPublicKey(modulus, exponent) + after,
                [SEQUENCE] + EncodeLength(|EncodeTlv(INTEGER, number) + rest|),
                number, rest, after);
    IntegerValue(modulus);
    assert BitLength(modulus) > 0;
  }

  /** An algorithm, and behind it the bit string of a key. */
  lemma FieldsOf(der: Bytes, at: nat, alg: Tlv, bits: Tlv, octets: Bytes, key: Bytes)
    requires ReadTlv(der, at) == Some(alg) && alg.tag == SEQUENCE
    requires ReadTlv(der, alg.end) == Some(bits) && bits.tag == BIT_STRING
    requires bits.start < bits.end <= |der| && der[bits.start..bits.end] == octets && octets == [0] + key
    ensures FirstField(der, at) == Some(Wrapped(key))
  {
    assert der[bits.start + 1..bits.end] == octets[1..] == key;
  }

  /** The same as encoded, right to the end of the data. */
  lemma ReadFields(der: Bytes, head: Bytes, alg: Bytes, bits: Bytes, algorithm: Bytes, octets: Bytes, key: Bytes)
    requires octets == [0] + key && Fits(algorithm) && Fits(octets)
    requires alg == EncodeTlv(SEQUENCE, algorithm) && bits == EncodeTlv(BIT_STRING, octets)
    requires der == head + alg + bits
    ensures FirstField(der, |head|) == Some(Wrapped(key))
  {
    var front := head + alg;
    var first, second := Marks(SEQUENCE, |head|, algorithm), Marks(BIT_STRING, |front|, octets);
    assert ReadTlv(der, |head|) == Some(first) && first.end == |front| by {
      ReadUndoesWrite(der, head, SEQUENCE, algorithm, bits);
    }
    assert ReadTlv(der, |front|) == Some(second) && second.end <= |der| && der[second.start..second.end] == octets by {
      assert der == front + bits + [];
      ReadUndoesWrite(der, front, BIT_STRING, octets, []);
    }
    FieldsOf(der, |head|, first, second, octets, key);
  }

  lemma ReadWrapped(der: Bytes, head: Bytes, content: Bytes, algorithm: Bytes, octets: Bytes, key: Bytes)
    requires octets == [0] + key && Fits(algorithm) && Fits(octets) && Fits(content)
    requires content == EncodeTlv(SEQUENCE, algorithm) + EncodeTlv(BIT_STRING, octets)
    requires der == EncodeTlv(SEQUENCE, content) && head == [SEQUENCE] + EncodeLength(|content|)
    ensures ReadKey(der) == Some(Wrapped(key))
  {
    assert ReadKey(der) == FirstField(der, |head|) by {
      assert der == EncodeTlv(SEQUENCE, content) + [];
      ReadOuter(der, content, []);
    }
    assert FirstField(der, |head|) == Some(Wrapped(key)) by {
      Ungroup(der, head, EncodeTlv(SEQUENCE, algorithm), EncodeTlv(BIT_STRING, octets), content);
      ReadFields(der, head, EncodeTlv(SEQUENCE, algorithm), EncodeTlv(BIT_STRING, octets), algorithm, octets, key);
    }
  }

  lemma Ungroup<T>(data: seq<T>, head: seq<T>, a: seq<T>, b: seq<T>, content: seq<T>)
    requires content == a + b && data == head + content
    ensures data == head + a + b
  {
  }

  /** The reader finds the key inside a SubjectPublicKeyInfo. */
  lemma Unwrap(algorithm: Bytes, key: Bytes)
    requires WrapFits(algorithm, key)
    ensures ReadKey(Wrap(algorithm, key)) == Some(Wrapped(key))
  {
    var content := EncodeTlv(SEQUENCE, algorithm) + EncodeTlv(BIT_STRING, [0] + key);
    ReadWrapped(Wrap(algorithm, key), [SEQUENCE] + EncodeLength(|content|), content, algorithm, [0] + key, key);
  }

  /** A key is read bare and wrapped once, with the length its modulus has. */
  lemma KeyRoundTrip(modulus: nat, exponent: nat, algorithm: Bytes, bits: nat)
    requires modulus > 0 && KeyFits(modulus, exponent)
    requires bits > 0 && Pow2(bits - 1) <= modulus < Pow2(bits)
    ensures var key := EncodeRsaPublicKey(modulus, exponent);
            && RsaKeyBits(key, 0) == Some(bits)
            && (WrapFits(algorithm, key) ==> RsaKeyBits(Wrap(algorithm, key), 0) == Some(bits))
  {
    var key := EncodeRsaPublicKey(modulus, exponent);
    BitLengthExact(modulus, bits);
    assert key + [] == key;
    BareKey(modulus, exponent, [], 0);
    BareKey(modulus, exponent, [], 1);
    if WrapFits(algorithm, key) {
      Unwrap(algorithm, key);
    }
  }

  /** A key wrapped twice is never read, whatever it holds. */
  lemma DoubleWrapRefused(outer: Bytes, inner: Bytes, key: Bytes)
    requires WrapFits(inner, key) && WrapFits(outer, Wrap(inner, key))
    ensures RsaKeyBits(Wrap(outer, Wrap(inner, key)), 0) == None
  {
    Unwrap(outer, Wrap(inner, key));
    Unwrap(inner, key);
  }

  /** A length is only ever reported for data that holds that many bits: the number of bytes bounds it. */
  lemma {:induction false} BitsWithinData(der: Bytes, depth: nat)
    ensures var r := RsaKeyBits(der, depth); r.Some? ==> 0 < r.value <= 8 * |der|
    decreases DER_MAX_DEPTH - depth
  {
    if depth < DER_MAX_DEPTH {
      var key := ReadKey(der);
      KeyWithinData(der, key);
      KeyBits(der, depth, key);
      match key
      case None =>
      case Some(Wrapped(inner)) => BitsWithinData(inner, depth + 1);
      case Some(Modulus(octets)) => BitsOfBytes(octets);
    }
  }

  lemma KeyBits(der: Bytes, depth: nat, key: Option<Key>)
    requires depth < DER_MAX_DEPTH && key == ReadKey(der)
    ensures RsaKeyBits(der, depth)
         == match key
            case None => None
            case Some(Wrapped(inner)) => RsaKeyBits(inner, depth + 1)
            case Some(Modulus(octets)) => NonZero(BitLength(BigEndian(octets)))
  {
  }

  lemma KeyWithinData(der: Bytes, key: Option<Key>)
    requires key == ReadKey(der)
    ensures match key
            case None => true
            case Some(Wrapped(inner)) => |inner| < |der|
            case Some(Modulus(octets)) => |octets| < |der|
  {
  }

  lemma {:induction false} BitsOfBytes(bytes: Bytes)
    ensures BitLength(BigEndian(bytes)) <= 8 * |bytes|
  {
    if bytes != [] {
      var n := BigEndian(bytes[..|bytes| - 1]);
      BitsOfBytes(bytes[..|bytes| - 1]);
      BitsOfByte(n, bytes[|bytes| - 1] as int);
    }
  }

  lemma BitsOfByte(n: nat, last: nat)
    requires last < 256
    ensures BitLength(n * 256 + last) <= BitLength(n) + 8
  {
    Halving(n * 256 + last, 8);
    assert Halve(n * 256 + last, 8) == (n * 256 + last) / 2 / 2 / 2 / 2 / 2 / 2 / 2 / 2 == n by {
      HalveEight(n * 256 + last);
    }
  }

  function Halve(n: nat, times: nat): nat {
    if times == 0 then n else Halve(n / 2, times - 1)
  }

  lemma HalveEight(n: nat)
    ensures Halve(n, 8) == n / 2 / 2 / 2 / 2 / 2 / 2 / 2 / 2
  {
    var four := n / 2 / 2 / 2 / 2;
    assert Halve(n, 8) == Halve(n / 2, 7) == Halve(n / 2 / 2, 6) == Halve(n / 2 / 2 / 2, 5) == Halve(four, 4);
    assert Halve(four, 4) == Halve(four / 2, 3) == Halve(four / 2 / 2, 2);
  }

  lemma {:induction false} Halving(n: nat, times: nat)
    ensures BitLength(n) <= BitLength(Halve(n, times)) + times
  {
    if times > 0 {
      Halving(n / 2, times - 1);
    }
  }
}
