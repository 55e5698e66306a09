/** WebSocket frames as the tic-tac-toe server reads and writes them (TicTacToe/Server/frame.c), against
    the frame format of sections 5.2 and 5.3 of RFC 6455. Shifts and masks of bytes are written as
    divisions and remainders by powers of two. */
module Frames {
  import opened Bytes
  import opened Texts

  // ---------- the format ----------

  /** The bit fields of a frame's first byte. */
  datatype Bits = Bits(fin: nat, rsv1: nat, rsv2: nat, rsv3: nat, opcode: nat) {
    predicate Ok() {
      fin < 2 && rsv1 < 2 && rsv2 < 2 && rsv3 < 2 && opcode < 16
    }
  }

  datatype Form = Short | Medium | Long

  datatype Masking = Unmasked | Masked(key: seq<Byte>) {
    predicate Ok() {
      Masked? ==> |key| == 4
    }

    function Bit(): nat {
      if Masked? then 1 else 0
    }
  }

  /** A length that the form can carry. */
  predicate Fits(form: Form, len: nat) {
    match form
    case Short => len <= 125
    case Medium => len < Power256(2)
    case Long => len < Power256(8)
  }

  /** The least form that carries the length, which the RFC asks for. */
  function Minimal(len: nat): Form {
    if len <= 125 then Short else if len <= 65535 then Medium else Long
  }

  function FirstByte(h: Bits): Byte
    requires h.Ok()
  {
    h.fin * 128 + h.rsv1 * 64 + h.rsv2 * 32 + h.rsv3 * 16 + h.opcode
  }

  function LengthBytes(form: Form, m: Masking, len: nat): seq<Byte>
    requires Fits(form, len)
  {
    match form
    case Short => [m.Bit() * 128 + len]
    case Medium => [m.Bit() * 128 + 126] + BigEndian(len, 2)
    case Long => [m.Bit() * 128 + 127] + BigEndian(len, 8)
  }

  function Mask(payload: seq<Byte>, key: seq<Byte>): (r: seq<Byte>)
    requires |key| == 4
    ensures |r| == |payload|
  {
    seq(|payload|, i requires 0 <= i < |payload| => Xor(payload[i], key[i % 4]))
  }

  function KeyBytes(m: Masking): seq<Byte> {
    if m.Masked? then m.key else []
  }

  function Body(m: Masking, payload: seq<Byte>): (r: seq<Byte>)
    requires m.Ok()
    ensures |r| == |payload|
  {
    if m.Masked? then Mask(payload, m.key) else payload
  }

  /** Section 5.2: first byte, length, masking key, payload. */
  function Encode(h: Bits, m: Masking, form: Form, payload: seq<Byte>): seq<Byte>
    requires h.Ok() && m.Ok() && Fits(form, |payload|)
  {
    [FirstByte(h)] + LengthBytes(form, m, |payload|) + KeyBytes(m) + Body(m, payload)
  }

  // ---------- parse_frame ----------

  /** Two bytes of a 16-bit length. */
  function Pair(hi: int, lo: int): int {
    hi * 256 + lo
  }

  lemma PairBig(w: seq<Byte>)
    requires |w| == 2
    ensures FromBig(w) == Pair(w[0], w[1])
  {
    assert w[..1] == [w[0]] && [w[0]][..0] == [];
    assert FromBig([w[0]]) == w[0];
  }

  /** What `parse_frame` fills in; the key only of a masked frame. */
  datatype Frame = Frame(bits: Bits, mask: nat, payloadLen: nat, maskKey: seq<Byte>, payload: seq<Byte>)

  function HeaderEnd(b: seq<Byte>): nat
    requires |b| >= 2
  {
    if b[1] % 128 <= 125 then 2 else if b[1] % 128 == 126 then 4 else 10
  }

  function PayloadLength(b: seq<Byte>): nat
    requires |b| >= 2 && |b| >= HeaderEnd(b)
  {
    if b[1] % 128 <= 125 then b[1] % 128
    else if b[1] % 128 == 126 then Pair(b[2], b[3])
    else FromBig(b[2..10])
  }

  function KeyEnd(b: seq<Byte>): nat
    requires |b| >= 2
  {
    HeaderEnd(b) + if b[1] / 128 == 1 then 4 else 0
  }

  /** The buffer holds the whole frame, as `parse_frame` takes for granted. */
  predicate Complete(b: seq<Byte>) {
    |b| >= 2 && |b| >= HeaderEnd(b) && |b| >= KeyEnd(b) + PayloadLength(b)
  }

  function BitsIn(b: Byte): Bits {
    Bits(b / 128, b / 64 % 2, b / 32 % 2, b / 16 % 2, b % 16)
  }

  function MaskingOf(b: seq<Byte>): (m: Masking)
    requires |b| >= 2 && |b| >= KeyEnd(b)
    ensures m.Ok()
  {
    if b[1] / 128 == 1 then Masked(b[HeaderEnd(b)..KeyEnd(b)]) else Unmasked
  }

  function Parse(b: seq<Byte>): Frame
    requires Complete(b)
  {
    var m := MaskingOf(b);
    var raw := b[KeyEnd(b)..KeyEnd(b) + PayloadLength(b)];
    Frame(BitsIn(b[0]), b[1] / 128, PayloadLength(b), KeyBytes(m), Body(m, raw))
  }

  lemma FirstByteBits(h: Bits)
    requires h.Ok()
    ensures BitsIn(FirstByte(h)) == h
  {
    var b := FirstByte(h);
    assert b / 128 == h.fin by { assert b == (h.fin) * 128 + (h.rsv1 * 64 + h.rsv2 * 32 + h.rsv3 * 16 + h.opcode); }
    assert b / 64 == h.fin * 2 + h.rsv1
      by { assert b == (h.fin * 2 + h.rsv1) * 64 + (h.rsv2 * 32 + h.rsv3 * 16 + h.opcode); }
    assert b / 32 == h.fin * 4 + h.rsv1 * 2 + h.rsv2
      by { assert b == (h.fin * 4 + h.rsv1 * 2 + h.rsv2) * 32 + (h.rsv3 * 16 + h.opcode); }
    assert b / 16 == h.fin * 8 + h.rsv1 * 4 + h.rsv2 * 2 + h.rsv3
      by { assert b == (h.fin * 8 + h.rsv1 * 4 + h.rsv2 * 2 + h.rsv3) * 16 + (h.opcode); }
    LastBit(h.fin, h.rsv1);
    LastBit(h.fin * 2 + h.rsv1, h.rsv2);
    LastBit(h.fin * 4 + h.rsv1 * 2 + h.rsv2, h.rsv3);
    assert b == (h.fin * 8 + h.rsv1 * 4 + h.rsv2 * 2 + h.rsv3) * 16 + h.opcode;
    assert b % 16 == h.opcode;
  }

  lemma LastBit(high: nat, bit: nat)
    requires bit < 2
    ensures (high * 2 + bit) % 2 == bit
  {
  }

  lemma HalfDown(b: nat)
    ensures b / 16 / 2 == b / 32 && b / 32 / 2 == b / 64 && b / 64 / 2 == b / 128
  {
  }

  lemma BitsFirstByte(b: Byte)
    ensures BitsIn(b).Ok() && FirstByte(BitsIn(b)) == b
  {
    HalfDown(b);
    var q4, q5, q6, q7 := b / 16, b / 32, b / 64, b / 128;
    assert q4 == 2 * q5 + q4 % 2 && q5 == 2 * q6 + q5 % 2 && q6 == 2 * q7 + q6 % 2;
    assert b == 16 * q4 + b % 16;
  }

  /** Section 5.3: masking again with the same key unmasks. */
  lemma MaskTwice(payload: seq<Byte>, key: seq<Byte>)
    requires |key| == 4
    ensures Mask(Mask(payload, key), key) == payload
  {
    forall i | 0 <= i < |payload| ensures Mask(Mask(payload, key), key)[i] == payload[i] {
      XorTwice(payload[i], key[i % 4]);
    }
  }

  lemma BodyTwice(m: Masking, payload: seq<Byte>)
    requires m.Ok()
    ensures Body(m, Body(m, payload)) == payload
  {
    if m.Masked? { MaskTwice(payload, m.key); }
  }

  /** Where the parts of an encoded frame lie. */
  lemma LengthReads(form: Form, m: Masking, len: nat, first: Byte, rest: seq<Byte>)
    requires m.Ok() && Fits(form, len)
    ensures var b := [first] + LengthBytes(form, m, len) + rest;
      && |b| >= 2
      && b[1] / 128 == m.Bit()
      && HeaderEnd(b) == 1 + |LengthBytes(form, m, len)|
      && PayloadLength(b) == len
      && b[HeaderEnd(b)..] == rest
  {
    var b := [first] + LengthBytes(form, m, len) + rest;
    match form
    case Short =>
      assert b[1] == m.Bit() * 128 + len;
    case Medium =>
      FromBigEndian(len, 2);
      var w := BigEndian(len, 2);
      assert b[1] == m.Bit() * 128 + 126;
      assert b[2] == w[0] && b[3] == w[1];
      PairBig(w);
    case Long =>
      FromBigEndian(len, 8);
      assert b[1] == m.Bit() * 128 + 127;
      assert b[2..10] == BigEndian(len, 8);
  }

  /** `parse_frame` inverts the encoder: every length form, masked or not, whatever follows the frame. */
  lemma ParseEncode(h: Bits, m: Masking, form: Form, payload: seq<Byte>, rest: seq<Byte>)
    requires h.Ok() && m.Ok() && Fits(form, |payload|)
    ensures Complete(Encode(h, m, form, payload) + rest)
    ensures Parse(Encode(h, m, form, payload) + rest) == Frame(h, m.Bit(), |payload|, KeyBytes(m), payload)
  {
    hide BitsIn, FirstByte, Body, LengthBytes, HeaderEnd, PayloadLength, Fits;
    var tail := KeyBytes(m) + Body(m, payload) + rest;
    var b := [FirstByte(h)] + LengthBytes(form, m, |payload|) + tail;
    assert Encode(h, m, form, payload) + rest == b;
    LengthReads(form, m, |payload|, FirstByte(h), tail);
    FirstByteBits(h);
    BodyTwice(m, payload);
    assert |b| == HeaderEnd(b) + |tail|;
    assert b[0] == FirstByte(h);
    var k := |KeyBytes(m)|;
    assert KeyEnd(b) == HeaderEnd(b) + k;
    assert b[HeaderEnd(b)..KeyEnd(b)] == tail[..k] == KeyBytes(m);
    assert b[KeyEnd(b)..KeyEnd(b) + |payload|] == tail[k..k + |payload|] == Body(m, payload);
    assert MaskingOf(b) == m;
  }

  function FormOf(b: seq<Byte>): Form
    requires |b| >= 2
  {
    if b[1] % 128 <= 125 then Short else if b[1] % 128 == 126 then Medium else Long
  }

  lemma LengthWritten(b: seq<Byte>)
    requires |b| >= 2 && |b| >= KeyEnd(b)
    ensures Fits(FormOf(b), PayloadLength(b))
    ensures LengthBytes(FormOf(b), MaskingOf(b), PayloadLength(b)) == b[1..HeaderEnd(b)]
  {
    if b[1] % 128 == 126 {
      var w := b[2..4];
      BigEndianFromBig(w);
      PairBig(w);
    } else if b[1] % 128 == 127 {
      BigEndianFromBig(b[2..10]);
    }
  }

  /** Conversely, what `parse_frame` reads is always an encoding of what it returns. */
  lemma EncodeParse(b: seq<Byte>)
    requires Complete(b)
    ensures var f := Parse(b);
      && f.bits.Ok() && f.payloadLen == |f.payload| && Fits(FormOf(b), |f.payload|)
      && Encode(f.bits, MaskingOf(b), FormOf(b), f.payload) == b[..KeyEnd(b) + PayloadLength(b)]
  {
    hide BitsIn, FirstByte, Body, LengthBytes, HeaderEnd, PayloadLength, Fits, FormOf;
    var f := Parse(b);
    var m := MaskingOf(b);
    BitsFirstByte(b[0]);
    LengthWritten(b);
    BodyTwice(m, b[KeyEnd(b)..KeyEnd(b) + PayloadLength(b)]);
    assert HeaderEnd(b) >= 2 by { HeaderEndBound(b); }
    assert KeyBytes(m) == b[HeaderEnd(b)..KeyEnd(b)];
    var all := b[..KeyEnd(b) + PayloadLength(b)];
    assert all == b[..1] + b[1..HeaderEnd(b)] + b[HeaderEnd(b)..KeyEnd(b)] + b[KeyEnd(b)..KeyEnd(b) + PayloadLength(b)];
  }

  lemma HeaderEndBound(b: seq<Byte>)
    requires |b| >= 2
    ensures 2 <= HeaderEnd(b) <= 10
  {
  }

  // ---------- what is read, spelled out ----------

  lemma FlagBits(b: Byte)
    ensures b / 128 < 2
    ensures BitsIn(b) == Bits(Bit(b, 7), Bit(b, 6), Bit(b, 5), Bit(b, 4), b % 16)
  {
    BitListed(b);
    hide Bit;
    assert b / 128 < 2;
  }

  /** The flags and the opcode, by the bits of the first byte. */
  lemma FlagsRead(b: seq<Byte>)
    requires Complete(b)
    ensures var f := Parse(b);
      && f.bits.fin == Bit(b[0], 7) && f.bits.rsv1 == Bit(b[0], 6) && f.bits.rsv2 == Bit(b[0], 5)
      && f.bits.rsv3 == Bit(b[0], 4) && f.bits.opcode == b[0] % 16 && f.mask == Bit(b[1], 7)
  {
    FlagBits(b[0]);
    BitListed(b[1]);
    assert b[0] / 128 < 2 && b[1] / 128 < 2;
    hide Body, MaskingOf, PayloadLength, HeaderEnd, KeyEnd, Bit, BitsIn;
  }

  /** The length, in its three forms, most significant byte first. */
  lemma LengthRead(b: seq<Byte>)
    requires Complete(b)
    ensures var n, v: seq<int> := Parse(b).payloadLen, b;
      && (v[1] % 128 <= 125 ==> n == v[1] % 128)
      && (v[1] % 128 == 126 ==> n == 0x100 * v[2] + v[3])
      && (v[1] % 128 == 127 ==>
            n == 0x100_0000_0000_0000 * v[2] + 0x1_0000_0000_0000 * v[3] + 0x100_0000_0000 * v[4]
                 + 0x1_0000_0000 * v[5] + 0x100_0000 * v[6] + 0x1_0000 * v[7] + 0x100 * v[8] + v[9])
  {
    if b[1] % 128 == 127 {
      FromBigSpelled(b[2..10]);
    }
    hide Body, MaskingOf, BitsIn, FromBig;
  }

  /** Where the payload starts. */
  function Start(b: seq<Byte>): nat
    requires |b| >= 2
  {
    (if b[1] % 128 <= 125 then 2 else if b[1] % 128 == 126 then 4 else 10) + if b[1] >= 128 then 4 else 0
  }

  /** The payload: as it stands behind the length; or, of a masked frame, behind the key, each bit of it being 1
      exactly where the byte read and the key's byte differ. */
  lemma PayloadRead(b: seq<Byte>)
    requires Complete(b)
    ensures var f, at := Parse(b), Start(b);
      && |f.payload| == f.payloadLen && at + f.payloadLen <= |b|
      && (b[1] < 128 ==> f.maskKey == [] && f.payload == b[at..at + f.payloadLen])
      && (b[1] >= 128 ==>
            && at >= 4 && f.maskKey == b[at - 4..at]
            && forall i, k | 0 <= i < f.payloadLen && 0 <= k < 8 ::
              Bit(f.payload[i], k) == if Bit(b[at + i], k) == Bit(b[at - 4 + i % 4], k) then 0 else 1)
  {
    ParseParts(b);
    var f, at := Parse(b), Start(b);
    assert b[1] >= 128 <==> b[1] / 128 == 1;
    assert KeyEnd(b) == at;
    hide Parse, Complete, BitsIn, PayloadLength, HeaderEnd, Start, Bit;
    if b[1] >= 128 {
      forall i, k | 0 <= i < f.payloadLen && 0 <= k < 8
        ensures Bit(f.payload[i], k) == if Bit(b[at + i], k) == Bit(b[at - 4 + i % 4], k) then 0 else 1
      {
        assert f.payload[i] == Xor(b[at + i], b[at - 4 + i % 4]);
        XorBit(b[at + i], b[at - 4 + i % 4], k);
      }
    }
  }

  /** A frame as a browser sends it: final, text, masked with the key 1, 2, 3, 4, and in it the letter A. */
  lemma MaskedLetter(b: seq<Byte>)
    requires b == [129, 129, 1, 2, 3, 4, 64]
    ensures Complete(b) && Parse(b) == Frame(Bits(1, 0, 0, 0, 1), 1, 1, [1, 2, 3, 4], [65])
  {
    MaskedByOne();
    hide Xor, Mask;
    assert b[2..6] == [1, 2, 3, 4] && b[6..7] == [64];
    ParseParts(b);
  }

  lemma MaskedByOne()
    ensures Mask([64], [1, 2, 3, 4]) == [65]
  {
    XorOne(32);
    hide Xor;
  }

  // ---------- createFrame ----------

  /** The bit fields that the int arguments contribute. */
  function BitsOf(fin: int, r1: int, r2: int, r3: int, opcode: int): (h: Bits)
    ensures h.Ok()
  {
    Bits(fin % 2, r1 % 2, r2 % 2, r3 % 2, opcode % 16)
  }

  /** Each field holds the low bits of its int, one or four of them. */
  lemma BitsOfIs(fin: int, r1: int, r2: int, r3: int, opcode: int)
    ensures var h := BitsOf(fin, r1, r2, r3, opcode);
      && h.fin <= 1 && h.rsv1 <= 1 && h.rsv2 <= 1 && h.rsv3 <= 1 && h.opcode <= 15
      && (h.fin - fin) % 2 == 0 && (h.rsv1 - r1) % 2 == 0 && (h.rsv2 - r2) % 2 == 0 && (h.rsv3 - r3) % 2 == 0
      && (h.opcode - opcode) % 16 == 0
  {
    LowBits(fin);
    LowBits(r1);
    LowBits(r2);
    LowBits(r3);
    LowBits(opcode);
  }

  lemma LowBits(n: int)
    ensures (n % 2 - n) % 2 == 0 && (n % 16 - n) % 16 == 0
  {
  }

  /** The eight bytes that the third branch writes after the first byte: truth values, because `&&` is
      written for `&`, and from index 1 on, because `pos` has not moved. `high` is what the four shifts by
      32 bits and more yield. */
  function TruthBytes(len: nat, high: seq<bool>): (r: seq<Byte>)
    requires |high| == 4
    ensures |r| == 8
    ensures r[0] <= 1
  {
    seq(8, i requires 0 <= i < 8 => TruthByte(len, high, 7 - i))
  }

  function TruthByte(len: nat, high: seq<bool>, i: nat): (r: Byte)
    requires |high| == 4 && i < 8
    ensures r <= 1
  {
    if (if i >= 4 then high[i - 4] else len / Power256(i) != 0) then 1 else 0
  }

  function Head(h: Bits, len: nat, high: seq<bool>): seq<Byte>
    requires h.Ok() && |high| == 4
  {
    if len <= 125 then [FirstByte(h), len]
    else if len <= 65535 then [FirstByte(h), 126, len / 256 % 256, len % 256]
    else [FirstByte(h)] + TruthBytes(len, high)
  }

  function Created(h: Bits, payload: seq<Byte>, high: seq<bool>): seq<Byte>
    requires h.Ok() && |high| == 4
  {
    Head(h, |payload|, high) + payload
  }

  /** What `createFrame` writes, spelled out; the third branch writes truth values for the length's bytes. */
  lemma CreatedSpelled(h: Bits, payload: seq<Byte>, high: seq<bool>)
    requires h.Ok() && |high| == 4
    ensures var b, n := Created(h, payload, high), |payload|;
      var first := 128 * h.fin + 64 * h.rsv1 + 32 * h.rsv2 + 16 * h.rsv3 + h.opcode;
      && (n <= 125 ==> b == [first, n] + payload)
      && (125 < n <= 65535 ==> b == [first, 126, n / 256, n % 256] + payload)
      && (n > 65535 ==>
            && |b| == 9 + n && b[0] == first && b[9..] == payload
            && b[1] == (if high[3] then 1 else 0) && b[2] == (if high[2] then 1 else 0)
            && b[3] == (if high[1] then 1 else 0) && b[4] == (if high[0] then 1 else 0)
            && b[5] == (if n / 0x100_0000 != 0 then 1 else 0) && b[6] == (if n / 0x1_0000 != 0 then 1 else 0)
            && b[7] == (if n / 0x100 != 0 then 1 else 0) && b[8] == (if n != 0 then 1 else 0))
  {
    if |payload| <= 65535 {
      assert |payload| / 256 % 256 == |payload| / 256;
      hide TruthBytes, Power256;
    } else {
      TruthSpelled(|payload|, high);
      hide TruthBytes, Power256;
    }
  }

  lemma TruthSpelled(n: nat, high: seq<bool>)
    requires |high| == 4
    ensures TruthBytes(n, high) == [if high[3] then 1 else 0, if high[2] then 1 else 0, if high[1] then 1 else 0,
                                    if high[0] then 1 else 0, if n / 0x100_0000 != 0 then 1 else 0,
                                    if n / 0x1_0000 != 0 then 1 else 0, if n / 0x100 != 0 then 1 else 0,
                                    if n != 0 then 1 else 0]
  {
    PowerValues();
    hide Power256;
    assert n / 1 == n;
  }

  /** Up to 65535 bytes `createFrame` is the unmasked encoder of least length. */
  lemma CreatedIsMinimal(h: Bits, payload: seq<Byte>, high: seq<bool>)
    requires h.Ok() && |high| == 4 && |payload| <= 65535
    ensures Fits(Minimal(|payload|), |payload|)
    ensures Created(h, payload, high) == Encode(h, Unmasked, Minimal(|payload|), payload)
  {
    var len := |payload|;
    TwoBytes(len);
    hide BigEndian, Power256, FirstByte;
    assert KeyBytes(Unmasked) == [] && Body(Unmasked, payload) == payload;
    assert Head(h, len, high) == [FirstByte(h)] + LengthBytes(Minimal(len), Unmasked, len);
  }

  lemma TwoBytes(len: nat)
    requires len <= 65535
    ensures Power256(2) == 65536 && BigEndian(len, 2) == [len / 256, len % 256] && len / 256 % 256 == len / 256
  {
    assert Power256(2) == 65536 by { assert Power256(1) == 256; }
    assert len / 256 < 256;
    assert BigEndian(len / 256, 1) == [len / 256] by { assert BigEndian(len / 256 / 256, 0) == []; }
  }

  /** A created frame is read back exactly when the payload has at most 65535 bytes, whatever the undefined
      shifts yield and whatever follows the frame. */
  lemma CreatedParsesExactly(h: Bits, payload: seq<Byte>, high: seq<bool>, rest: seq<Byte>)
    requires h.Ok() && |high| == 4
    ensures var b := Created(h, payload, high) + rest;
      (Complete(b) && Parse(b) == Frame(h, 0, |payload|, [], payload)) <==> |payload| <= 65535
  {
    hide Parse, Complete, Encode, Created;
    if |payload| <= 65535 {
      CreatedIsMinimal(h, payload, high);
      ParseEncode(h, Unmasked, Minimal(|payload|), payload, rest);
    } else {
      LongMisread(h, payload, high, rest);
    }
  }

  /** The least payload that goes wrong. */
  lemma LongFrame(h: Bits, high: seq<bool>) returns (payload: seq<Byte>)
    requires h.Ok() && |high| == 4
    ensures |payload| == 65536
    ensures var b := Created(h, payload, high); !(Complete(b) && Parse(b) == Frame(h, 0, |payload|, [], payload))
  {
    payload := seq(65536, _ => 0);
    CreatedParsesExactly(h, payload, high, []);
    assert Created(h, payload, high) + [] == Created(h, payload, high);
  }

  lemma LongMisread(h: Bits, payload: seq<Byte>, high: seq<bool>, rest: seq<Byte>)
    requires h.Ok() && |high| == 4 && |payload| > 65535
    ensures var b := Created(h, payload, high) + rest;
      Complete(b) ==> Parse(b).payloadLen <= 1
  {
    hide FirstByte, BitsIn, Mask, TruthBytes, FromBig;
    var b := Created(h, payload, high) + rest;
    var t := TruthBytes(|payload|, high);
    assert b[1] == t[0] <= 1;
    assert |b| >= 2 && HeaderEnd(b) == 2;
  }

  // ---------- the buffers ----------

  /** `createFrame`, with the outcomes of the undefined shifts as the argument `high`. */
  method CreateFrame(fin: int, r1: int, r2: int, r3: int, opcode: int, payloadLen: nat, payloadData: array<Byte>,
                     buffer: array<Byte>, high: seq<bool>)
    returns (bufLen: nat)
    requires payloadLen <= payloadData.Length && buffer != payloadData && |high| == 4
    requires |Head(BitsOf(fin, r1, r2, r3, opcode), payloadLen, high)| + payloadLen <= buffer.Length
    modifies buffer
    ensures bufLen <= buffer.Length
    ensures buffer[..bufLen] == Created(BitsOf(fin, r1, r2, r3, opcode), payloadData[..payloadLen], high)
  {
    hide FirstByte, Head;
    var pos := WriteHead(fin, r1, r2, r3, opcode, payloadLen, buffer, high);
    ghost var head := buffer[..pos];
    Copy(payloadData, 0, buffer, pos, payloadLen);
    bufLen := pos + payloadLen;
    assert buffer[..pos] == head;
    assert buffer[..bufLen] == buffer[..pos] + buffer[pos..bufLen];
  }

  /** What the shifts of a 64-bit length yield for `i` from 4 on: these are defined. */
  function HighBits(len: nat): (high: seq<bool>)
    ensures |high| == 4
  {
    seq(4, i requires 0 <= i < 4 => len / Power256(i + 4) != 0)
  }

  lemma HighBitsAre(len: nat)
    ensures HighBits(len) == [len / 0x1_0000_0000 != 0, len / 0x100_0000_0000 != 0, len / 0x1_0000_0000_0000 != 0,
                              len / 0x100_0000_0000_0000 != 0]
  {
    PowerValues();
    assert Power256(5) == 0x100_0000_0000 && Power256(6) == 0x1_0000_0000_0000 && Power256(7) == 0x100_0000_0000_0000;
  }

  /** `createClientFrameBuffer` writes a record's frame in the same way. */
  method CreateClientFrameBuffer(f: FrameRecord, buffer: array<Byte>) returns (bufLen: nat)
    requires f.payloadLen <= f.payloadData.Length && buffer != f.payloadData
    requires
      |Head(BitsOf(f.fin, f.rsv1, f.rsv2, f.rsv3, f.opcode), f.payloadLen, HighBits(f.payloadLen))| + f.payloadLen
          <= buffer.Length
    modifies buffer
    ensures bufLen <= buffer.Length
    ensures buffer[..bufLen]
         == Created(BitsOf(f.fin, f.rsv1, f.rsv2, f.rsv3, f.opcode), f.payloadData[..f.payloadLen],
           HighBits(f.payloadLen))
  {
    hide FirstByte, Head, HighBits;
    var pos := WriteHead(f.fin, f.rsv1, f.rsv2, f.rsv3, f.opcode, f.payloadLen, buffer, HighBits(f.payloadLen));
    ghost var head := buffer[..pos];
    Copy(f.payloadData, 0, buffer, pos, f.payloadLen);
    bufLen := pos + f.payloadLen;
    assert buffer[..pos] == head;
    assert buffer[..bufLen] == buffer[..pos] + buffer[pos..bufLen];
  }

  /** The first byte and the length. */
  method WriteHead(fin: int, r1: int, r2: int, r3: int, opcode: int, payloadLen: nat, buffer: array<Byte>,
    high: seq<bool>)
    returns (pos: nat)
    requires |high| == 4 && |Head(BitsOf(fin, r1, r2, r3, opcode), payloadLen, high)| <= buffer.Length
    modifies buffer
    ensures pos <= buffer.Length && buffer[..pos] == Head(BitsOf(fin, r1, r2, r3, opcode), payloadLen, high)
  {
    hide FirstByte;
    WriteFirst(fin, r1, r2, r3, opcode, buffer);
    pos := 1;
    if payloadLen <= 125 {
      buffer[pos] := payloadLen;
      pos := pos + 1;
    } else if payloadLen >= 126 && payloadLen <= 65535 {
      buffer[pos] := 126;
      buffer[pos + 1] := payloadLen / 256 % 256;
      buffer[pos + 2] := payloadLen % 256;
      pos := pos + 3;
    } else {
      buffer[1] := 127;
      pos := WriteTruths(payloadLen, high, buffer);
    }
  }

  method WriteFirst(fin: int, r1: int, r2: int, r3: int, opcode: int, buffer: array<Byte>)
    requires buffer.Length > 0
    modifies buffer
    ensures buffer[0] == FirstByte(BitsOf(fin, r1, r2, r3, opcode))
    ensures forall k | 1 <= k < buffer.Length :: buffer[k] == old(buffer[k])
  {
    buffer[0] := fin % 2 * 128 + r1 % 2 * 64 + r2 % 2 * 32 + r3 % 2 * 16 + opcode % 16;
  }

  /** The loop of the third branch. */
  method WriteTruths(len: nat, high: seq<bool>, buffer: array<Byte>) returns (pos: nat)
    requires |high| == 4 && buffer.Length >= 9
    modifies buffer
    ensures pos == 9
    ensures forall k | 1 <= k < 9 :: buffer[k] == TruthBytes(len, high)[k - 1]
    ensures forall k | 0 <= k < buffer.Length && !(1 <= k < 9) :: buffer[k] == old(buffer[k])
  {
    pos := 1;
    var i := 7;
    while i >= 0
      invariant -1 <= i <= 7 && pos == 8 - i
      invariant forall k | 1 <= k < pos :: buffer[k] == TruthByte(len, high, 8 - k)
      invariant forall k | 0 <= k < buffer.Length && !(1 <= k < pos) :: buffer[k] == old(buffer[k])
    {
      var truth := if i >= 4 then high[i - 4] else len / Power256(i) != 0;
      buffer[pos] := if truth then 1 else 0;
      pos := pos + 1;
      i := i - 1;
    }
  }

  method CopyAll(source: array<Byte>, start: nat, target: array<Byte>)
    requires start + target.Length <= source.Length && source != target
    modifies target
    ensures target[..] == source[..][start..start + target.Length]
  {
    Copy(source, start, target, 0, target.Length);
    assert target[0..target.Length] == target[..];
    assert source[start..start + target.Length] == source[..][start..start + target.Length];
  }

  /** The struct that `parse_frame` allocates. */
  class FrameRecord {
    var fin: nat
    var rsv1: nat
    var rsv2: nat
    var rsv3: nat
    var opcode: nat
    var mask: nat
    var payloadLen: nat
    var maskKey: array<Byte>
    var payloadData: array<Byte>

    constructor ()
      ensures fresh(maskKey) && maskKey.Length == 4 && fresh(payloadData)
    {
      fin, rsv1, rsv2, rsv3, opcode, mask, payloadLen := 0, 0, 0, 0, 0, 0, 0;
      maskKey := new Byte[4];
      payloadData := new Byte[0];
    }

    ghost function View(): (f: Frame)
      reads this, maskKey, payloadData
    {
      Frame(Bits(fin, rsv1, rsv2, rsv3, opcode), mask, payloadLen,
            if mask == 1 then maskKey[..] else [], payloadData[..])
    }
  }

  lemma ViewIs(f: FrameRecord)
    ensures var v := f.View();
      && v.bits == Bits(f.fin, f.rsv1, f.rsv2, f.rsv3, f.opcode) && v.mask == f.mask && v.payloadLen == f.payloadLen
      && v.payload == f.payloadData[..] && v.maskKey == if f.mask == 1 then f.maskKey[..] else []
  {
  }

  /** `parse_frame` fills a new record with what the buffer encodes. */
  method ParseFrame(buf: array<Byte>) returns (res: FrameRecord, opcode: nat)
    requires Complete(buf[..])
    ensures fresh(res) && fresh(res.payloadData) && fresh(res.maskKey)
    ensures res.View() == Parse(buf[..])
    ensures opcode == Parse(buf[..]).bits.opcode
  {
    ghost var b := buf[..];
    ParseParts(b);
    assert |b| >= HeaderEnd(b) && |b| >= KeyEnd(b) + PayloadLength(b);
    hide Parse, Complete, KeyEnd, Mask, BitsIn, PayloadLength, HeaderEnd;
    res := new FrameRecord();
    ReadBits(buf, res);
    opcode := res.opcode;
    var len, next := ReadLength(buf);
    res.payloadLen := len;
    if res.mask != 0 {
      CopyAll(buf, next, res.maskKey);
      next := next + 4;
    }
    res.payloadData := new Byte[len];
    CopyAll(buf, next, res.payloadData);
    assert res.payloadData[..] == b[next..next + len];
    assert res.mask != 0 ==> res.maskKey[..] == b[next - 4..next];
    if res.mask != 0 {
      Unmask(res.payloadData, res.maskKey);
    }
  }

  /** The parsed frame, by whether it is masked. */
  lemma ParseParts(b: seq<Byte>)
    requires Complete(b)
    ensures var from, len := KeyEnd(b), PayloadLength(b);
      && (b[1] / 128 == 1 ==>
          && from == HeaderEnd(b) + 4
          && Parse(b) == Frame(BitsIn(b[0]), 1, len, b[from - 4..from], Mask(b[from..from + len], b[from - 4..from])))
      && (b[1] / 128 != 1 ==>
          && from == HeaderEnd(b)
          && Parse(b) == Frame(BitsIn(b[0]), 0, len, [], b[from..from + len]))
  {
    hide HeaderEnd, PayloadLength, BitsIn, Mask;
    assert b[1] / 128 == 0 || b[1] / 128 == 1;
  }

  /** The bit fields of the first two bytes. */
  method ReadBits(buf: array<Byte>, res: FrameRecord)
    requires buf.Length >= 2
    modifies res`fin, res`rsv1, res`rsv2, res`rsv3, res`opcode, res`mask
    ensures Bits(res.fin, res.rsv1, res.rsv2, res.rsv3, res.opcode) == BitsIn(buf[0])
    ensures res.mask == buf[1] / 128
  {
    res.fin, res.rsv1, res.rsv2, res.rsv3 := buf[0] / 128, buf[0] / 64 % 2, buf[0] / 32 % 2, buf[0] / 16 % 2;
    res.opcode := buf[0] % 16;
    res.mask := buf[1] / 128;
  }

  method ReadLength(buf: array<Byte>) returns (len: nat, next: nat)
    requires buf.Length >= 2 && buf.Length >= HeaderEnd(buf[..])
    ensures len == PayloadLength(buf[..]) && next == HeaderEnd(buf[..])
  {
    ghost var b := buf[..];
    len := buf[1] % 128;
    if len <= 125 {
      next := 2;
    } else if len == 126 {
      len := Pair(buf[2], buf[3]);
      next := 4;
    } else {
      len := 0;
      var i := 2;
      while i <= 9
        invariant 2 <= i <= 10
        invariant len == FromBig(b[2..i])
      {
        assert b[2..i + 1][..i - 2] == b[2..i];
        len := len * 256 + buf[i];
        i := i + 1;
      }
      next := 10;
    }
  }

  /** The loop that unmasks the payload in place. */
  method Unmask(data: array<Byte>, key: array<Byte>)
    requires key.Length == 4 && key != data
    modifies data
    ensures data[..] == Mask(old(data[..]), key[..])
  {
    hide Xor;
    var i := 0;
    while i < data.Length
      invariant 0 <= i <= data.Length
      invariant forall k | 0 <= k < i :: data[k] == Xor(old(data[k]), key[k % 4])
      invariant forall k | i <= k < data.Length :: data[k] == old(data[k])
    {
      data[i] := Xor(data[i], key[i % 4]);
      i := i + 1;
    }
  }
}
