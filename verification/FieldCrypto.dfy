/** Field encryption: a stream cipher under a header that names the key, and the
    encryption of chosen columns of a row in place. */
module FieldCrypto {
  import opened Prelude
  import opened Limbs

  const VERSION: Byte := 2
  const NONCE_LEN := 16
  const MIN_HEADER_LEN := 1 + 2 + NONCE_LEN

  datatype EncryptionKey = EncryptionKey(key: Bytes, id: Bytes)

  // The cipher: byte `i` of the key stream for a key and a nonce.
  type Cipher = (Bytes, Bytes, nat) -> Byte

  // ---------------------------------------------------------------------
  // The key stream
  // ---------------------------------------------------------------------

  /** Exclusive or of the lowest `bits` bits. */
  function XorBits(a: nat, b: nat, bits: nat): nat {
    if bits == 0 then 0 else (a + b) % 2 + 2 * XorBits(a / 2, b / 2, bits - 1)
  }

  lemma {:induction false} XorTwice(a: nat, b: nat, bits: nat)
    requires a < Pow(2, bits)
    ensures XorBits(a, b, bits) < Pow(2, bits)
    ensures XorBits(XorBits(a, b, bits), b, bits) == a
  {
    if bits > 0 {
      XorTwice(a / 2, b / 2, bits - 1);
      var rest := XorBits(a / 2, b / 2, bits - 1);
      XorStep(a, b, rest);
      hide XorBits;
      XorOf(a, b, bits);
      XorOf((a + b) % 2 + 2 * rest, b, bits);
    }
  }

  lemma XorOf(a: nat, b: nat, bits: nat)
    requires bits > 0
    ensures XorBits(a, b, bits) == (a + b) % 2 + 2 * XorBits(a / 2, b / 2, bits - 1)
  {
  }

  lemma XorStep(a: nat, b: nat, rest: nat)
    ensures var c := (a + b) % 2 + 2 * rest; c / 2 == rest && (c + b) % 2 == a % 2
  {
  }

  function Xor(a: Byte, b: Byte): Byte {
    XorByte(a, b);
    XorBits(a, b, 8)
  }

  lemma {:induction false} XorByte(a: Byte, b: Byte)
    ensures XorBits(a, b, 8) < 256 && XorBits(XorBits(a, b, 8), b, 8) == a
  {
    assert Pow(2, 8) == 256;
    XorTwice(a, b, 8);
  }

  /** Bit `k` of a number. */
  function Bit(x: nat, k: nat): nat { if k == 0 then x % 2 else Bit(x / 2, k - 1) }

  lemma BitOf(x: nat, k: nat)
    ensures Bit(x, k) == if k == 0 then x % 2 else Bit(x / 2, k - 1)
  {
  }

  lemma HalfOf(bit: nat, rest: nat)
    requires bit < 2
    ensures (bit + 2 * rest) / 2 == rest && (bit + 2 * rest) % 2 == bit
  {
  }

  lemma Parity(a: nat, b: nat)
    ensures (a + b) % 2 == (a % 2 + b % 2) % 2
  {
  }

  // The lowest bit of an exclusive or, and the others.
  lemma {:induction false} XorParts(a: nat, b: nat, bits: nat)
    requires bits > 0
    ensures XorBits(a, b, bits) % 2 == (a % 2 + b % 2) % 2
    ensures XorBits(a, b, bits) / 2 == XorBits(a / 2, b / 2, bits - 1)
  {
    XorOf(a, b, bits);
    hide XorBits;
    HalfOf((a + b) % 2, XorBits(a / 2, b / 2, bits - 1));
    Parity(a, b);
  }

  /** Exclusive or, bit by bit. */
  lemma {:induction false} XorIsBitwise(a: nat, b: nat, bits: nat, k: nat)
    requires k < bits
    ensures Bit(XorBits(a, b, bits), k) == (Bit(a, k) + Bit(b, k)) % 2
  {
    hide XorBits, Bit;
    XorParts(a, b, bits);
    BitOf(XorBits(a, b, bits), k);
    BitOf(a, k);
    BitOf(b, k);
    if k > 0 { XorIsBitwise(a / 2, b / 2, bits - 1, k - 1); }
  }

  lemma HalfBelow(s: nat, bits: nat)
    requires bits > 0 && s < Pow(2, bits)
    ensures s / 2 < Pow(2, bits - 1)
  {
  }

  lemma SameParts(c: nat, s: nat, t: nat)
    requires (c % 2 + s % 2) % 2 == (c % 2 + t % 2) % 2 && s / 2 == t / 2
    ensures s == t
  {
  }

  lemma {:induction false} XorSame(c: nat, s: nat, t: nat, bits: nat)
    requires s < Pow(2, bits) && t < Pow(2, bits) && XorBits(c, s, bits) == XorBits(c, t, bits)
    ensures s == t
  {
    if bits > 0 {
      hide XorBits, Pow;
      XorParts(c, s, bits);
      XorParts(c, t, bits);
      HalfBelow(s, bits);
      HalfBelow(t, bits);
      XorSame(c / 2, s / 2, t / 2, bits - 1);
      SameParts(c, s, t);
    }
  }

  /** A byte masked with one stream byte is unmasked by exactly that one. */
  lemma {:induction false} UnmaskedIff(p: Byte, s: Byte, t: Byte)
    ensures Xor(Xor(p, s), t) == p <==> t == s
  {
    XorByte(p, s);
    assert Pow(2, 8) == 256;
    hide XorBits;
    if Xor(Xor(p, s), t) == p { XorSame(Xor(p, s), s, t, 8); }
  }

  function ApplyStream(cipher: Cipher, key: Bytes, nonce: Bytes, data: Bytes): (out: Bytes)
    ensures |out| == |data|
  {
    seq<Byte>(|data|, i requires 0 <= i < |data| => Xor(data[i], cipher(key, nonce, i)))
  }

  /** Applying the key stream twice gives the data back. */
  lemma {:induction false} StreamTwice(cipher: Cipher, key: Bytes, nonce: Bytes, data: Bytes)
    ensures ApplyStream(cipher, key, nonce, ApplyStream(cipher, key, nonce, data)) == data
  {
    forall i | 0 <= i < |data| ensures Xor(Xor(data[i], cipher(key, nonce, i)), cipher(key, nonce, i)) == data[i] {
      XorByte(data[i], cipher(key, nonce, i));
    }
    hide Xor;
  }

  // ---------------------------------------------------------------------
  // Framing
  // ---------------------------------------------------------------------

  // A length cast to 16 bits, least significant byte first.
  function Length16(n: nat): (b: Bytes)
    ensures |b| == 2
  {
    [n % 256, (n / 256) % 256]
  }

  function EncryptField(cipher: Cipher, plain: Bytes, key: EncryptionKey, nonce: Bytes): (data: Bytes)
    requires |nonce| == NONCE_LEN
  {
    [VERSION] + Length16(|key.id|) + key.id + nonce + ApplyStream(cipher, key.key, nonce, plain)
  }

  datatype Failure = InvalidCiphertext | UnsupportedVersion(version: Byte) | Unresolved
  datatype Result<+T> = Ok(value: T) | Err(failure: Failure)

  function IdLength(data: Bytes): nat
    requires |data| >= 3
  {
    data[1] as nat + 256 * data[2] as nat
  }

  function DecryptField(cipher: Cipher, data: Bytes, key: EncryptionKey): Result<Bytes> {
    if |data| < MIN_HEADER_LEN then Err(InvalidCiphertext)
    else if data[0] != VERSION then Err(UnsupportedVersion(data[0]))
    else
      var start := 3 + IdLength(data);
      if |data| < start + NONCE_LEN then Err(InvalidCiphertext)
      else Ok(ApplyStream(cipher, key.key, data[start..start + NONCE_LEN], data[start + NONCE_LEN..]))
  }

  /** The key id in the header, before it is deserialized. */
  function HeaderKeyId(data: Bytes): Option<Bytes> {
    if |data| < MIN_HEADER_LEN || data[0] != VERSION then None
    else
      var end := 3 + IdLength(data);
      if |data| < end + NONCE_LEN then None else Some(data[3..end])
  }

  lemma {:induction false} HeaderParts(cipher: Cipher, plain: Bytes, key: EncryptionKey, nonce: Bytes)
    requires |nonce| == NONCE_LEN
    ensures var data := EncryptField(cipher, plain, key, nonce);
      && |data| == MIN_HEADER_LEN + |key.id| + |plain|
      && data[0] == VERSION && IdLength(data) == |key.id| % 65536
      && data[1] == |key.id| % 256 && data[2] == (|key.id| / 256) % 256
      && data[3..3 + |key.id|] == key.id
      && data[3 + |key.id|..3 + |key.id| + NONCE_LEN] == nonce
      && data[3 + |key.id| + NONCE_LEN..] == ApplyStream(cipher, key.key, nonce, plain)
  {
    hide ApplyStream, Length16;
    LengthBack(|key.id|);
    Framed([VERSION] + Length16(|key.id|), key.id, nonce, ApplyStream(cipher, key.key, nonce, plain));
  }

  lemma LengthBack(n: nat)
    ensures Length16(n)[0] as nat + 256 * Length16(n)[1] as nat == n % 65536
    ensures Length16(n)[0] == n % 256 && Length16(n)[1] == (n / 256) % 256
  {
  }

  lemma {:induction false} Framed(head: Bytes, id: Bytes, nonce: Bytes, body: Bytes)
    ensures var data := head + id + nonce + body;
      && |data| == |head| + |id| + |nonce| + |body|
      && (forall k | 0 <= k < |head| :: data[k] == head[k])
      && data[|head|..|head| + |id|] == id
      && data[|head| + |id|..|head| + |id| + |nonce|] == nonce
      && data[|head| + |id| + |nonce|..] == body
  {
  }

  /** The header names the key that was used, exactly when its id is shorter than
      65536 bytes. */
  lemma {:induction false} HeaderNamesKeyIff(cipher: Cipher, plain: Bytes, key: EncryptionKey, nonce: Bytes)
    requires |nonce| == NONCE_LEN
    ensures HeaderKeyId(EncryptField(cipher, plain, key, nonce)) == Some(key.id) <==> |key.id| < 65536
  {
    HeaderParts(cipher, plain, key, nonce);
    hide EncryptField;
  }

  /** The bytes of a ciphertext: version 2, the length of the key id, the key id, the
      nonce, and the plaintext with the key stream of this key and nonce over it. */
  lemma {:induction false} CiphertextBytes(cipher: Cipher, plain: Bytes, key: EncryptionKey, nonce: Bytes, i: nat,
                                           k: nat)
    requires |nonce| == 16 && i < |plain| && k < 8
    ensures var data := EncryptField(cipher, plain, key, nonce);
      && |data| == 19 + |key.id| + |plain|
      && data[0] == 2 && data[1] == |key.id| % 256 && data[2] == (|key.id| / 256) % 256
      && data[3..3 + |key.id|] == key.id && data[3 + |key.id|..19 + |key.id|] == nonce
      && Bit(data[19 + |key.id| + i], k) == (Bit(plain[i], k) + Bit(cipher(key.key, nonce, i), k)) % 2
  {
    HeaderParts(cipher, plain, key, nonce);
    var data := EncryptField(cipher, plain, key, nonce);
    hide EncryptField, XorBits;
    var body := data[19 + |key.id|..];
    assert data[19 + |key.id| + i] == body[i] == Xor(plain[i], cipher(key.key, nonce, i));
    XorIsBitwise(plain[i], cipher(key.key, nonce, i), 8, k);
  }

  /** Another key gives the plaintext exactly when its key stream under the nonce is
      the same on every byte. */
  lemma {:induction false} DecryptsToIff(cipher: Cipher, plain: Bytes, key: EncryptionKey, nonce: Bytes,
                                         other: EncryptionKey)
    requires |nonce| == NONCE_LEN && |key.id| < 65536
    ensures DecryptField(cipher, EncryptField(cipher, plain, key, nonce), other) == Ok(plain) <==>
      forall i | 0 <= i < |plain| :: cipher(other.key, nonce, i) == cipher(key.key, nonce, i)
  {
    HeaderParts(cipher, plain, key, nonce);
    hide EncryptField;
    var body := ApplyStream(cipher, key.key, nonce, plain);
    var back := ApplyStream(cipher, other.key, nonce, body);
    forall i | 0 <= i < |plain|
      ensures back[i] == plain[i] <==> cipher(other.key, nonce, i) == cipher(key.key, nonce, i)
    {
      UnmaskedIff(plain[i], cipher(key.key, nonce, i), cipher(other.key, nonce, i));
    }
    hide Xor, ApplyStream;
    assert back == plain <==> forall i | 0 <= i < |plain| :: back[i] == plain[i];
  }

  /** A field decrypts to what was encrypted. */
  lemma {:induction false} FieldRoundTrip(cipher: Cipher, plain: Bytes, key: EncryptionKey, nonce: Bytes)
    requires |nonce| == NONCE_LEN && |key.id| < 65536
    ensures DecryptField(cipher, EncryptField(cipher, plain, key, nonce), key) == Ok(plain)
  {
    HeaderParts(cipher, plain, key, nonce);
    StreamTwice(cipher, key.key, nonce, plain);
    hide EncryptField, ApplyStream;
  }

  // ---------------------------------------------------------------------
  // Values and their bytes
  // ---------------------------------------------------------------------

  type I64 = x: int | -0x8000_0000_0000_0000 <= x < 0x8000_0000_0000_0000

  // A JSON integer may also be an unsigned 64-bit one.
  type JsonInt = x: int | -0x8000_0000_0000_0000 <= x < 0x1_0000_0000_0000_0000

  // A JSON value. A float is its eight bytes, a text its UTF-8 bytes.
  datatype Json = Integer(n: JsonInt) | Float(bits: Bytes) | Bool(b: bool) | Text(utf8: Bytes) | Null | Other(code: nat)
  datatype FieldType = IntegerField | RealField | TextField | BlobField

  // What is taken as given: base64, the UTF-8 check, the double nearest to an
  // integer, and whether a double is finite.
  datatype Codec = Codec(encode: Bytes -> Bytes, decode: Bytes -> Option<Bytes>, valid: Bytes -> bool,
                         nearest: JsonInt -> Bytes, finite: Bytes -> bool)

  ghost predicate Lawful(codec: Codec) {
    && (forall b: Bytes :: codec.decode(codec.encode(b)) == Some(b))
    && (forall s: Bytes | codec.decode(s).Some? :: codec.encode(codec.decode(s).value) == s)
    && (forall b: Bytes :: codec.valid(codec.encode(b)))
    && (forall n: JsonInt :: |codec.nearest(n)| == 8 && codec.finite(codec.nearest(n)))
  }

  function Mirror(b: Bytes): (r: Bytes)
    ensures |r| == |b|
  {
    seq<Byte>(|b|, k requires 0 <= k < |b| => b[|b| - 1 - k])
  }

  // Two's complement, most significant byte first.
  function BigEndian(n: I64): (b: Bytes)
    ensures |b| == 8
  {
    var u := if n < 0 then n + 0x1_0000_0000_0000_0000 else n;
    DigitsBelow(256, u, 8);
    Mirror(Digits(256, u, 8))
  }

  function FromBigEndian(b: Bytes): I64
    requires |b| == 8
  {
    Word(Mirror(b));
    var u := Number(256, Mirror(b));
    if u >= 0x8000_0000_0000_0000 then u - 0x1_0000_0000_0000_0000 else u
  }

  lemma {:induction false} Word(b: Bytes)
    requires |b| == 8
    ensures Number(256, b) < 0x1_0000_0000_0000_0000
  {
    NumberBelow(256, b);
    assert Pow(256, 8) == 0x1_0000_0000_0000_0000 by { EightBytes(); }
  }

  lemma EightBytes()
    ensures Pow(256, 8) == 0x1_0000_0000_0000_0000
  {
    assert Pow(256, 4) == 0x1_0000_0000;
    assert Pow(256, 5) == 0x100_0000_0000 && Pow(256, 6) == 0x1_0000_0000_0000 && Pow(256, 7) == 0x100_0000_0000_0000;
  }

  lemma MirrorTwice(b: Bytes)
    ensures Mirror(Mirror(b)) == b
  {
  }

  lemma {:induction false} IntegerBytes(n: I64)
    ensures FromBigEndian(BigEndian(n)) == n
  {
    hide Digits, Number, Pow, Mirror;
    var u: nat := if n < 0 then n + 0x1_0000_0000_0000_0000 else n;
    EightBytes();
    NumberOfDigits(256, u, 8);
    DigitsBelow(256, u, 8);
    MirrorTwice(Digits(256, u, 8));
  }

  /** The eight bytes of an integer, most significant first, in two's complement. */
  lemma {:induction false} BigEndianBytes(n: I64)
    ensures var b := BigEndian(n);
      var high := ((b[0] as int * 256 + b[1]) * 256 + b[2]) * 256 + b[3];
      && |b| == 8
      && (((high * 256 + b[4]) * 256 + b[5]) * 256 + b[6]) * 256 + b[7] ==
         if n < 0 then n + 0x1_0000_0000_0000_0000 else n
  {
    hide Digits, Number, Pow, Mirror;
    var u: nat := if n < 0 then n + 0x1_0000_0000_0000_0000 else n;
    EightBytes();
    NumberOfDigits(256, u, 8);
    var d := Digits(256, u, 8);
    DigitsBelow(256, u, 8);
    MirrorAt(d);
    EightByteNumber(d);
  }

  lemma MirrorAt(b: Bytes)
    ensures forall k | 0 <= k < |b| :: Mirror(b)[k] == b[|b| - 1 - k]
  {
  }

  lemma {:induction false} EightByteNumber(d: seq<nat>)
    requires |d| == 8
    ensures Number(256, d)
         == ((((((d[7] * 256 + d[6]) * 256 + d[5]) * 256 + d[4]) * 256 + d[3]) * 256 + d[2]) * 256 + d[1]) * 256 + d[0]
  {
    hide Number;
    assert d[0..] == d;
    NumberFrom(256, d, 0);
    NumberFrom(256, d, 1);
    NumberFrom(256, d, 2);
    NumberFrom(256, d, 3);
    NumberFrom(256, d, 4);
    NumberFrom(256, d, 5);
    NumberFrom(256, d, 6);
    NumberFrom(256, d, 7);
  }

  /** The bytes a value is encrypted as, if it fits the column. */
  function Plain(codec: Codec, v: Json, t: FieldType): Option<Bytes> {
    match (t, v)
    case (IntegerField, Integer(n)) => if n < 0x8000_0000_0000_0000 then Some(BigEndian(n)) else None
    case (IntegerField, Bool(b)) => Some([if b then 1 else 0])
    case (RealField, Float(bits)) => Some(bits)
    case (RealField, Integer(n)) => Some(codec.nearest(n))
    case (TextField, Text(utf8)) => Some(utf8)
    case (BlobField, Text(utf8)) => codec.decode(utf8)
    case _ => None
  }

  /** The value the bytes are read back as. */
  function FromPlain(codec: Codec, plain: Bytes, t: FieldType): Option<Json> {
    match t
    case IntegerField =>
      if |plain| == 8 then Some(Integer(FromBigEndian(plain)))
      else if |plain| == 1 then Some(Integer(plain[0]))
      else None
    case RealField => if |plain| == 8 && codec.finite(plain) then Some(Float(plain)) else None
    case TextField => if codec.valid(plain) then Some(Text(plain)) else None
    case BlobField => Some(Text(codec.encode(plain)))
  }

  /** Floats are finite and have eight bytes, texts are UTF-8. */
  ghost predicate IsJson(codec: Codec, v: Json) {
    match v
    case Float(bits) => |bits| == 8 && codec.finite(bits)
    case Text(utf8) => codec.valid(utf8)
    case _ => true
  }

  /** A text that the column would not encrypt but that reads as base64, and so is
      taken for a ciphertext. */
  predicate Stray(codec: Codec, v: Json, t: FieldType) {
    v.Text? && Plain(codec, v, t).None? && codec.decode(v.utf8).Some?
  }

  // What an encrypted value comes back as: booleans as 0 and 1, and an integer in
  // a real column as the nearest double.
  function Normal(codec: Codec, v: Json, t: FieldType): Json {
    match (t, v)
    case (IntegerField, Bool(b)) => Integer(if b then 1 else 0)
    case (RealField, Integer(n)) => Float(codec.nearest(n))
    case _ => v
  }

  lemma {:induction false} PlainBack(codec: Codec, v: Json, t: FieldType)
    requires Lawful(codec) && IsJson(codec, v)
    ensures Plain(codec, v, t).Some? ==> FromPlain(codec, Plain(codec, v, t).value, t) == Some(Normal(codec, v, t))
    ensures Plain(codec, v, t).None? ==> Normal(codec, v, t) == v
  {
    if v.Integer? && v.n < 0x8000_0000_0000_0000 { IntegerBytes(v.n); }
    hide BigEndian, FromBigEndian;
  }

  // ---------------------------------------------------------------------
  // One column
  // ---------------------------------------------------------------------

  function Seal(codec: Codec, cipher: Cipher, v: Json, t: FieldType, key: EncryptionKey, nonce: Bytes): Json
    requires |nonce| == NONCE_LEN
  {
    match Plain(codec, v, t)
    case None => v
    case Some(plain) => Text(codec.encode(EncryptField(cipher, plain, key, nonce)))
  }

  type Keys = Bytes -> Option<EncryptionKey>   // the key for a key id, if it can be resolved

  function Open(codec: Codec, cipher: Cipher, v: Json, t: FieldType, keys: Keys): Result<Json> {
    if !v.Text? || codec.decode(v.utf8).None? then Ok(v)
    else
      var data := codec.decode(v.utf8).value;
      var id := HeaderKeyId(data);
      if id.None? then Err(InvalidCiphertext)
      else if keys(id.value).None? then Err(Unresolved)
      else
        match DecryptField(cipher, data, keys(id.value).value)
        case Ok(plain) => Ok(match FromPlain(codec, plain, t) case None => v case Some(w) => w)
        case Err(failure) => Err(failure)
  }

  /** What a column encrypts: numbers and booleans that fit it, texts, base64 texts. */
  predicate Encryptable(codec: Codec, v: Json, t: FieldType) {
    match t
    case IntegerField => (v.Integer? && v.n < 0x8000_0000_0000_0000) || v.Bool?
    case RealField => v.Float? || v.Integer?
    case TextField => v.Text?
    case BlobField => v.Text? && codec.decode(v.utf8).Some?
  }

  /** A value is left as it is exactly when the column does not encrypt it; otherwise
      it becomes the base64 of a ciphertext under the key, of bytes that stand for it. */
  lemma {:induction false} SealedIsEncrypted(codec: Codec, cipher: Cipher, v: Json, t: FieldType, key: EncryptionKey,
                                             nonce: Bytes) returns (plain: Bytes)
    requires Lawful(codec) && IsJson(codec, v) && |nonce| == NONCE_LEN
    ensures !Encryptable(codec, v, t) ==> Seal(codec, cipher, v, t, key, nonce) == v
    ensures Encryptable(codec, v, t) ==>
      && Seal(codec, cipher, v, t, key, nonce) == Text(codec.encode(EncryptField(cipher, plain, key, nonce)))
      && FromPlain(codec, plain, t) == Some(Normal(codec, v, t))
  {
    hide EncryptField, BigEndian, FromPlain, Normal;
    PlainBack(codec, v, t);
    plain := match Plain(codec, v, t) case None => [] case Some(b) => b;
  }

  /** Everything decrypts that has a readable header; the rest of it is the body. */
  lemma {:induction false} DecryptsIff(cipher: Cipher, data: Bytes, key: EncryptionKey)
    ensures HeaderKeyId(data).Some? <==> DecryptField(cipher, data, key).Ok?
    ensures HeaderKeyId(data).Some? ==>
      |DecryptField(cipher, data, key).value| == |data| - MIN_HEADER_LEN - IdLength(data)
    ensures |data| >= 19 && data[0] != 2 <==>
      DecryptField(cipher, data, key).Err? && DecryptField(cipher, data, key).failure.UnsupportedVersion?
  {
    hide ApplyStream;
  }

  // A ciphertext whose key is known.
  predicate Resolves(data: Bytes, keys: Keys) {
    HeaderKeyId(data).Some? && keys(HeaderKeyId(data).value).Some?
  }

  function Body(cipher: Cipher, data: Bytes, keys: Keys): Bytes
    requires Resolves(data, keys)
  {
    var key := keys(HeaderKeyId(data).value).value;
    DecryptsIff(cipher, data, key);
    DecryptField(cipher, data, key).value
  }

  // A ciphertext with a known key whose body is no number for the column: of the
  // wrong length or, in a real column, not finite.
  predicate Inert(codec: Codec, cipher: Cipher, data: Bytes, t: FieldType, keys: Keys) {
    && Resolves(data, keys)
    && var n := |data| - MIN_HEADER_LEN - IdLength(data);
    if t.IntegerField? then n != 8 && n != 1 else n != 8 || !codec.finite(Body(cipher, data, keys))
  }

  /** A stray text comes back only as an inert ciphertext. */
  predicate Returns(codec: Codec, cipher: Cipher, v: Json, t: FieldType, keys: Keys) {
    Stray(codec, v, t) ==> Inert(codec, cipher, codec.decode(v.utf8).value, t, keys)
  }

  lemma {:induction false} OpenPlain(codec: Codec, cipher: Cipher, plain: Bytes, v: Json, t: FieldType,
                                     key: EncryptionKey, nonce: Bytes, keys: Keys)
    requires Lawful(codec) && |nonce| == NONCE_LEN && |key.id| < 65536 && keys(key.id) == Some(key)
    requires FromPlain(codec, plain, t) == Some(v)
    ensures Open(codec, cipher, Text(codec.encode(EncryptField(cipher, plain, key, nonce))), t, keys) == Ok(v)
  {
    hide EncryptField, DecryptField, HeaderKeyId, FromPlain;
    var data := EncryptField(cipher, plain, key, nonce);
    HeaderNamesKeyIff(cipher, plain, key, nonce);
    FieldRoundTrip(cipher, plain, key, nonce);
    assert codec.decode(codec.encode(data)) == Some(data);
  }

  /** What becomes of a stray text: it is left in the clear, and reading it back is
      an error, a number, or the text again, each in exactly one case. */
  lemma {:induction false} StrayText(codec: Codec, cipher: Cipher, v: Json, t: FieldType, key: EncryptionKey,
                                     nonce: Bytes, keys: Keys)
    requires Stray(codec, v, t) && |nonce| == NONCE_LEN
    ensures Seal(codec, cipher, v, t, key, nonce) == v
    ensures var data, back := codec.decode(v.utf8).value, Open(codec, cipher, v, t, keys);
      && (HeaderKeyId(data).None? <==> back == Err(InvalidCiphertext))
      && (HeaderKeyId(data).Some? && !Resolves(data, keys) <==> back == Err(Unresolved))
      && (Resolves(data, keys) && !Inert(codec, cipher, data, t, keys) <==>
          back.Ok? && (back.value.Integer? || back.value.Float?))
      && (Inert(codec, cipher, data, t, keys) <==> back == Ok(v))
  {
    hide HeaderKeyId, DecryptField, FromBigEndian;
    var data := codec.decode(v.utf8).value;
    if Resolves(data, keys) { DecryptsIff(cipher, data, keys(HeaderKeyId(data).value).value); }
  }

  /** A sealed value opens to what it was, normalised, exactly when it is no stray
      text or an inert one. */
  lemma {:induction false} OpenSealedIff(codec: Codec, cipher: Cipher, v: Json, t: FieldType, key: EncryptionKey,
                                         nonce: Bytes, keys: Keys)
    requires Lawful(codec) && IsJson(codec, v) && |nonce| == NONCE_LEN && |key.id| < 65536
    requires keys(key.id) == Some(key)
    ensures Open(codec, cipher, Seal(codec, cipher, v, t, key, nonce), t, keys) == Ok(Normal(codec, v, t)) <==>
      Returns(codec, cipher, v, t, keys)
  {
    hide FromPlain, Plain, Normal, Inert, EncryptField;
    PlainBack(codec, v, t);
    if Plain(codec, v, t).Some? {
      OpenPlain(codec, cipher, Plain(codec, v, t).value, Normal(codec, v, t), t, key, nonce, keys);
    } else if Stray(codec, v, t) {
      StrayText(codec, cipher, v, t, key, nonce, keys);
    }
  }

  /** For instance: an integer column that is encrypted twice keeps the ciphertext of
      the first time and reads back as the number. */
  lemma {:induction false} EncryptedTwice(codec: Codec, cipher: Cipher, n: I64, key: EncryptionKey, first: Bytes,
                                          second: Bytes, keys: Keys)
    requires Lawful(codec) && |first| == |second| == NONCE_LEN && |key.id| < 65536 && keys(key.id) == Some(key)
    ensures var once := Seal(codec, cipher, Integer(n), IntegerField, key, first);
      && IsJson(codec, once) && Stray(codec, once, IntegerField)
      && Seal(codec, cipher, once, IntegerField, key, second) == once
      && Open(codec, cipher, once, IntegerField, keys) == Ok(Integer(n))
      && !Returns(codec, cipher, once, IntegerField, keys)
  {
    hide EncryptField, Inert;
    PlainBack(codec, Integer(n), IntegerField);
    OpenPlain(codec, cipher, BigEndian(n), Integer(n), IntegerField, key, first, keys);
    var once := Seal(codec, cipher, Integer(n), IntegerField, key, first);
    hide Open;
    OpenSealedIff(codec, cipher, once, IntegerField, key, second, keys);
  }

  /** And the base64 of nothing, in a numeric column, cannot be read back at all. */
  lemma {:induction false} EmptyText(codec: Codec, cipher: Cipher, t: FieldType, keys: Keys)
    requires Lawful(codec) && (t.IntegerField? || t.RealField?)
    ensures var v := Text(codec.encode([]));
      IsJson(codec, v) && Stray(codec, v, t) && Open(codec, cipher, v, t, keys) == Err(InvalidCiphertext)
  {
    assert codec.decode(codec.encode([])) == Some([]);
  }

  // ---------------------------------------------------------------------
  // Whole rows
  // ---------------------------------------------------------------------

  type Fields = map<string, Json>
  datatype Column = Column(name: string, fieldType: FieldType)

  ghost predicate NoncesFor(nonces: seq<Bytes>, cols: seq<Column>) {
    |nonces| == |cols| && forall k | 0 <= k < |nonces| :: |nonces[k]| == NONCE_LEN
  }

  function SealFirst(codec: Codec, cipher: Cipher, f: Fields, cols: seq<Column>, key: EncryptionKey,
                     nonces: seq<Bytes>, n: nat): Fields
    requires NoncesFor(nonces, cols) && n <= |cols|
  {
    if n == 0 then f
    else
      var g := SealFirst(codec, cipher, f, cols, key, nonces, n - 1);
      var name := cols[n - 1].name;
      if name in g then g[name := Seal(codec, cipher, g[name], cols[n - 1].fieldType, key, nonces[n - 1])] else g
  }

  // The fields after the first `n` columns, and the error that stopped it.
  function OpenFirst(codec: Codec, cipher: Cipher, f: Fields, cols: seq<Column>, keys: Keys, n: nat)
    : (Fields, Result<bool>)
    requires n <= |cols|
  {
    if n == 0 then (f, Ok(true))
    else
      var (g, r) := OpenFirst(codec, cipher, f, cols, keys, n - 1);
      var name := cols[n - 1].name;
      if !r.Ok? || name !in g then (g, r)
      else
        match Open(codec, cipher, g[name], cols[n - 1].fieldType, keys)
        case Ok(v) => (g[name := v], r)
        case Err(failure) => (g, Err(failure))
  }

  ghost predicate DistinctNames(cols: seq<Column>) { forall i, j | 0 <= i < j < |cols| :: cols[i].name != cols[j].name }

  ghost predicate Named(cols: seq<Column>, n: nat, name: string)
    requires n <= |cols|
  {
    exists k | 0 <= k < n :: cols[k].name == name
  }

  lemma NamedNext(cols: seq<Column>, n: nat)
    requires 0 < n <= |cols|
    ensures forall name :: Named(cols, n, name) <==> Named(cols, n - 1, name) || name == cols[n - 1].name
    ensures DistinctNames(cols) ==> !Named(cols, n - 1, cols[n - 1].name)
  {
  }

  lemma NoneNamed(cols: seq<Column>)
    ensures forall name :: !Named(cols, 0, name)
  {
  }

  ghost predicate JsonRow(codec: Codec, f: Fields) { forall name | name in f :: IsJson(codec, f[name]) }

  predicate ReturningRow(codec: Codec, cipher: Cipher, f: Fields, cols: seq<Column>, keys: Keys) {
    forall k | 0 <= k < |cols| && cols[k].name in f ::
      Returns(codec, cipher, f[cols[k].name], cols[k].fieldType, keys)
  }

  ghost predicate IsSealed(codec: Codec, cipher: Cipher, f: Fields, cols: seq<Column>, key: EncryptionKey,
                           nonces: seq<Bytes>, n: nat, g: Fields)
    requires NoncesFor(nonces, cols) && n <= |cols|
  {
    && g.Keys == f.Keys
    && (forall k | 0 <= k < n && cols[k].name in f ::
          g[cols[k].name] == Seal(codec, cipher, f[cols[k].name], cols[k].fieldType, key, nonces[k]))
    && (forall name | name in f && !Named(cols, n, name) :: g[name] == f[name])
  }

  /** Only the named columns change, each to its own sealed value. */
  lemma {:induction false} SealedColumns(codec: Codec, cipher: Cipher, f: Fields, cols: seq<Column>, key: EncryptionKey,
                                         nonces: seq<Bytes>, n: nat)
    requires NoncesFor(nonces, cols) && n <= |cols| && DistinctNames(cols)
    ensures IsSealed(codec, cipher, f, cols, key, nonces, n, SealFirst(codec, cipher, f, cols, key, nonces, n))
  {
    hide Seal, Named;
    if n == 0 {
      assert forall name :: !Named(cols, 0, name) by { NoneNamed(cols); }
    } else {
      SealedColumns(codec, cipher, f, cols, key, nonces, n - 1);
      var g := SealFirst(codec, cipher, f, cols, key, nonces, n - 1);
      NamedNext(cols, n);
    }
  }

  // Column `k` of `f`, opened.
  function Opened(codec: Codec, cipher: Cipher, f: Fields, cols: seq<Column>, keys: Keys, k: nat): Result<Json>
    requires k < |cols| && cols[k].name in f
  {
    Open(codec, cipher, f[cols[k].name], cols[k].fieldType, keys)
  }

  ghost predicate AllOpen(codec: Codec, cipher: Cipher, f: Fields, cols: seq<Column>, keys: Keys, n: nat)
    requires n <= |cols|
  {
    forall k | 0 <= k < n && cols[k].name in f :: Opened(codec, cipher, f, cols, keys, k).Ok?
  }

  ghost predicate IsOpened(codec: Codec, cipher: Cipher, f: Fields, cols: seq<Column>, keys: Keys, n: nat, g: Fields)
    requires n <= |cols|
  {
    forall k | 0 <= k < n && cols[k].name in f ::
      cols[k].name in g && Opened(codec, cipher, f, cols, keys, k) == Ok(g[cols[k].name])
  }

  /** Decrypting a row succeeds exactly when every column opens; then each named
      column is what it opens to.  Columns without a name in the list stay. */
  lemma {:induction false} OpenedColumns(codec: Codec, cipher: Cipher, f: Fields, cols: seq<Column>, keys: Keys, n: nat)
    requires n <= |cols| && DistinctNames(cols)
    ensures var (g, r) := OpenFirst(codec, cipher, f, cols, keys, n);
      && g.Keys == f.Keys && (forall name | name in f && !Named(cols, n, name) :: g[name] == f[name])
      && (r == Ok(true) <==> AllOpen(codec, cipher, f, cols, keys, n))
      && (r.Ok? ==> r == Ok(true) && IsOpened(codec, cipher, f, cols, keys, n, g))
  {
    hide Open, Named;
    if n == 0 {
      NoneNamed(cols);
    } else {
      OpenedColumns(codec, cipher, f, cols, keys, n - 1);
      NamedNext(cols, n);
      assert cols[n - 1].name in f ==>
        OpenFirst(codec, cipher, f, cols, keys, n - 1).0[cols[n - 1].name] == f[cols[n - 1].name];
    }
  }

  ghost predicate IsNormal(codec: Codec, f: Fields, cols: seq<Column>, g: Fields) {
    forall k | 0 <= k < |cols| && cols[k].name in f ::
      cols[k].name in g && g[cols[k].name] == Normal(codec, f[cols[k].name], cols[k].fieldType)
  }

  /** Encrypting a row of any JSON values and decrypting it gives the row back, with
      the encrypted columns normalised, exactly when every named column is no stray
      text or an inert one.  Other columns are untouched throughout. */
  lemma {:induction false} RowRoundTrip(codec: Codec, cipher: Cipher, f: Fields, cols: seq<Column>, key: EncryptionKey,
                                        nonces: seq<Bytes>, keys: Keys)
    requires NoncesFor(nonces, cols) && DistinctNames(cols)
    requires Lawful(codec) && JsonRow(codec, f) && |key.id| < 65536 && keys(key.id) == Some(key)
    ensures var sealed := SealFirst(codec, cipher, f, cols, key, nonces, |cols|);
      var (g, r) := OpenFirst(codec, cipher, sealed, cols, keys, |cols|);
      && (r == Ok(true) && IsNormal(codec, f, cols, g) <==> ReturningRow(codec, cipher, f, cols, keys))
      && sealed.Keys == g.Keys == f.Keys
      && (forall name | name in f && !Named(cols, |cols|, name) :: g[name] == sealed[name] == f[name])
  {
    hide SealFirst, OpenFirst, Seal, Open, Normal, Lawful, IsJson, Returns, DistinctNames;
    var sealed := SealFirst(codec, cipher, f, cols, key, nonces, |cols|);
    SealedColumns(codec, cipher, f, cols, key, nonces, |cols|);
    OpenedColumns(codec, cipher, sealed, cols, keys, |cols|);
    forall k | 0 <= k < |cols| && cols[k].name in f
      ensures Opened(codec, cipher, sealed, cols, keys, k) == Ok(Normal(codec, f[cols[k].name], cols[k].fieldType)) <==>
        Returns(codec, cipher, f[cols[k].name], cols[k].fieldType, keys)
    {
      OpenSealedIff(codec, cipher, f[cols[k].name], cols[k].fieldType, key, nonces[k], keys);
    }
  }

  class Record {
    var fields: Fields

    constructor (fields: Fields)
      ensures this.fields == fields
    {
      this.fields := fields;
    }

    method EncryptFields(codec: Codec, cipher: Cipher, cols: seq<Column>, key: EncryptionKey, nonces: seq<Bytes>)
      requires NoncesFor(nonces, cols)
      modifies this
      ensures fields == SealFirst(codec, cipher, old(fields), cols, key, nonces, |cols|)
    {
      for n := 0 to |cols|
        invariant fields == SealFirst(codec, cipher, old(fields), cols, key, nonces, n)
      {
        var name := cols[n].name;
        if name !in fields { continue; }
        var plain := Plain(codec, fields[name], cols[n].fieldType);
        if plain.Some? {
          fields := fields[name := Text(codec.encode(EncryptField(cipher, plain.value, key, nonces[n])))];
        }
      }
    }

    method DecryptFields(codec: Codec, cipher: Cipher, cols: seq<Column>, keys: Keys) returns (result: Result<bool>)
      modifies this
      ensures (fields, result) == OpenFirst(codec, cipher, old(fields), cols, keys, |cols|)
    {
      for n := 0 to |cols|
        invariant (fields, Ok(true)) == OpenFirst(codec, cipher, old(fields), cols, keys, n)
      {
        var name := cols[n].name;
        if name !in fields { continue; }
        var value := Open(codec, cipher, fields[name], cols[n].fieldType, keys);
        if value.Err? {
          Stops(codec, cipher, old(fields), cols, keys, n);
          return Err(value.failure);
        }
        fields := fields[name := value.value];
      }
      return Ok(true);
    }
  }

  // After an error nothing more is changed.
  lemma {:induction false} Stops(codec: Codec, cipher: Cipher, f: Fields, cols: seq<Column>, keys: Keys, n: nat)
    requires n < |cols| && !OpenFirst(codec, cipher, f, cols, keys, n + 1).1.Ok?
    ensures OpenFirst(codec, cipher, f, cols, keys, |cols|) == OpenFirst(codec, cipher, f, cols, keys, n + 1)
    decreases |cols| - n
  {
    hide Open;
    if n + 1 < |cols| { Stops(codec, cipher, f, cols, keys, n + 1); }
  }
}
