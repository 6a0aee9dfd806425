/** The BGAPI wire format: a four-byte little-endian header carrying device type, class, message id and
    an eleven-bit payload length, followed by the payload. */
module Bgapi {
  type Byte = x: int | 0 <= x < 256

  const MAX_PAYLOAD_SIZE := 256
  const HEADER_LEN := 4
  /** 0x000100a0 */
  const SYSTEM_BOOT_ID := MsgId(0xa0, 0x01, 0x00)

  /** A message id: the bytes of a 32-bit word that the mask 0xffff00f8 leaves. */
  datatype MsgId = MsgId(first: Byte, classId: Byte, commandId: Byte) {
    ghost predicate Valid() {
      TopFive(first) == first
    }

    function Word(): nat {
      first + 0x10000 * classId + 0x1000000 * commandId
    }
  }

  // The masks of the header macros, as arithmetic on one byte or on the 32-bit word.

  /** b & 0xf8: the largest multiple of eight up to b. */
  function TopFive(b: Byte): (t: Byte)
    ensures t <= b < t + 8
  {
    if b < 8 then 0 else 8 + TopFive(b - 8)
  }

  /** b & 0x78 */
  function DeviceBits(b: Byte): Byte {
    if TopFive(b) < 128 then TopFive(b) else TopFive(b) - 128
  }

  lemma {:induction false} TopFiveIs(b: Byte)
    ensures TopFive(b) == b - b % 8
  {
    if b >= 8 {
      TopFiveIs(b - 8);
    }
  }

  lemma {:induction false} LowThree(b: bv8)
    ensures (b & 0x07) as int == b as int % 8
    ensures (b & 0xf8) as int == b as int - b as int % 8
  {
    var top, low := b >> 3, b & 7;
    assert b as int == 8 * top as int + low as int;
  }

  lemma {:induction false} LowSeven(b: bv8)
    ensures (b & 0x7f) as int == b as int % 128
  {
    var top, low := b >> 7, b & 0x7f;
    assert b as int == 128 * top as int + low as int;
  }

  lemma {:induction false} MiddleFour(b: bv8, low: bv8)
    requires low == b & 0x7f
    ensures (b & 0x78) as int == low as int - low as int % 8
  {
    LowThree(low);
    assert low & 0xf8 == b & 0x78;
  }

  lemma {:induction false} SevenBits(b: Byte)
    ensures DeviceBits(b) == b % 128 - b % 128 % 8
  {
    TopFiveIs(b);
    if b < 128 {
      assert b % 128 == b;
    } else {
      assert b % 128 == b - 128 && (b - 128) % 8 == b % 8;
    }
  }

  /** The readings of the masks as arithmetic are what the bit operations compute. */
  lemma {:induction false} MasksAreArithmetic(b: bv8)
    ensures (b & 0xf8) as int == TopFive(b as int)
    ensures (b & 0x78) as int == DeviceBits(b as int)
    ensures (b & 0x07) as int == b as int % 8
  {
    LowThree(b);
    TopFiveIs(b as int);
    LowSeven(b);
    MiddleFour(b, b & 0x7f);
    SevenBits(b as int);
  }

  /** The four bytes of a header word in memory, on a little-endian host and on the wire. */
  datatype Header = Header(b0: Byte, b1: Byte, b2: Byte, b3: Byte) {
    /** SL_BGAPI_MSG_ID: the word under the mask 0xffff00f8. */
    function Id(): MsgId {
      MsgId(TopFive(b0), b2, b3)
    }

    /** SL_BGAPI_MSG_LEN: three bits of the first byte above the second byte. */
    function Len(): nat {
      (b0 - TopFive(b0)) * 256 + b1
    }

    function Bytes(): (bytes: seq<Byte>)
      ensures |bytes| == HEADER_LEN
    {
      [b0, b1, b2, b3]
    }
  }

  function HeaderFrom(bytes: seq<Byte>): Header
    requires |bytes| == HEADER_LEN
  {
    Header(bytes[0], bytes[1], bytes[2], bytes[3])
  }

  /** n & 0xff */
  function Low(n: nat): Byte {
    if n < 256 then n else Low(n - 256)
  }

  /** n >> 8 */
  function High(n: nat): nat {
    if n < 256 then 0 else 1 + High(n - 256)
  }

  lemma {:induction false} LowHigh(n: nat)
    ensures Low(n) == n % 256 && High(n) == n / 256 && n == 256 * High(n) + Low(n)
  {
    if n >= 256 {
      LowHigh(n - 256);
    }
  }

  lemma {:induction false} LowHighOf(n: nat, high: nat, low: Byte)
    requires n == 256 * high + low
    ensures High(n) == high && Low(n) == low
  {
    LowHigh(n);
  }

  function HeaderOfWord(word: nat): Header {
    Header(Low(word), Low(High(word)), Low(High(High(word))), Low(High(High(High(word)))))
  }

  /** The header word every command stub builds: id + ((len & 0xff) << 8) + ((len & 0x700) >> 8). */
  function CommandWord(id: nat, len: nat): nat {
    id + Low(len) * 256 + (Low(High(len)) - TopFive(Low(High(len))))
  }

  lemma {:induction false} CommandWordIs(id: nat, len: nat)
    ensures CommandWord(id, len) == id + len % 256 * 256 + len / 256 % 8
  {
    LowHigh(len);
    LowHigh(High(len));
    TopFiveIs(Low(High(len)));
    LowBits(High(len));
  }

  lemma {:induction false} LowBits(n: nat)
    ensures n % 256 % 8 == n % 8
  {
  }

  /** What the receiver makes of a header: a frame it gives up on, or an event or a response of some length. */
  datatype Kind = Refused | Event(len: nat) | Response(len: nat)

  function Classify(header: Header): (kind: Kind)
    ensures !kind.Refused? ==> kind.len <= MAX_PAYLOAD_SIZE
  {
    if DeviceBits(header.b0) != 0x20 || header.Len() > MAX_PAYLOAD_SIZE then Refused
    else if TopFive(header.b0) == 0xa0 then Event(header.Len())
    else if TopFive(header.b0) == 0x20 then Response(header.Len())
    else Refused
  }

  /** The receiver's tests on the first byte of a header, as the code masks it: an event or a response, by the type
      bits, if the eleven bits of the length are at most 256; anything else is refused. */
  lemma {:induction false} ClassifyIff(header: Header, b: bv8)
    requires header.b0 == b as int
    ensures var len := 256 * (b & 0x07) as int + header.b1;
            && (Classify(header) == Event(len) <==> (b & 0xf8) as int == 0xa0 && len <= 256)
            && (Classify(header) == Response(len) <==> (b & 0xf8) as int == 0x20 && len <= 256)
            && (Classify(header).Refused? || Classify(header) == Event(len) || Classify(header) == Response(len))
  {
    MasksAreArithmetic(b);
    TopFiveIs(header.b0);
  }

  /** A message a Bluetooth NCP sends: an unencrypted event or response of at most 256 payload bytes. */
  datatype Message = Message(id: MsgId, payload: seq<Byte>) {
    ghost predicate Valid() {
      && id.Valid()
      && DeviceBits(id.first) == 0x20
      && |payload| <= MAX_PAYLOAD_SIZE
    }

    function Head(): Header {
      HeaderOfWord(CommandWord(id.Word(), |payload|))
    }

    function Frame(): seq<Byte> {
      Head().Bytes() + payload
    }
  }

  /** The byte stream that carries a list of messages back to back. */
  function Encode(messages: seq<Message>): seq<Byte> {
    if messages == [] then [] else messages[0].Frame() + Encode(messages[1..])
  }

  /** Every 32-bit word under the mask is the word of a valid id. */
  lemma {:induction false} MaskedWordIsId(word: nat) returns (id: MsgId)
    requires word < 0x100000000 && word % 256 % 8 == 0 && word / 256 % 256 == 0
    ensures id.Valid() && id.Word() == word
  {
    var q1, q2 := word / 256, word / 256 / 256;
    id := MsgId(word % 256, q2 % 256, q2 / 256);
    assert word == 256 * q1 + id.first && q1 == 256 * q2;
    TopFiveIs(id.first);
  }

  lemma {:induction false} WordBytes(word: nat, b0: Byte, b1: Byte, b2: Byte, b3: Byte)
    requires word == b0 + 256 * b1 + 0x10000 * b2 + 0x1000000 * b3
    ensures HeaderOfWord(word) == Header(b0, b1, b2, b3)
  {
    LowHighOf(word, b1 + 256 * b2 + 0x10000 * b3, b0);
    LowHighOf(b1 + 256 * b2 + 0x10000 * b3, b2 + 256 * b3, b1);
    LowHighOf(b2 + 256 * b3, b3, b2);
  }

  /** Three length bits in a byte whose low bits are clear leave the bits under both masks as they were. */
  lemma {:induction false} LengthBits(b0: Byte, hi: nat)
    requires TopFive(b0) == b0 && hi < 8
    ensures b0 + hi < 256 && TopFive(b0 + hi) == b0 && DeviceBits(b0 + hi) == DeviceBits(b0)
  {
    TopFiveIs(b0);
    if b0 >= 8 {
      LengthBits(b0 - 8, hi);
    }
  }

  /** Printing a header and reading it back gives the id and the length, for every id under the mask and every
      eleven-bit length. */
  lemma {:induction false} HeaderRoundTrip(id: MsgId, len: nat)
    requires id.Valid() && len < 2048
    ensures var h := HeaderOfWord(CommandWord(id.Word(), len));
            && HeaderFrom(h.Bytes()) == h
            && h.Id() == id
            && h.Len() == len
            && DeviceBits(h.b0) == DeviceBits(id.first)
  {
    LowHigh(len);
    TopFiveIs(High(len));
    LengthBits(id.first, High(len));
    WordBytes(CommandWord(id.Word(), len), id.first + High(len), Low(len), id.classId, id.commandId);
  }

  /** The receiver recognises every valid message for what it is. */
  lemma {:induction false} MessageRoundTrip(m: Message)
    requires m.Valid()
    ensures HeaderFrom(m.Head().Bytes()) == m.Head()
    ensures m.Head().Id() == m.id
    ensures Classify(m.Head()) == Event(|m.payload|) || Classify(m.Head()) == Response(|m.payload|)
  {
    HeaderRoundTrip(m.id, |m.payload|);
    TwoKinds(m.id.first);
  }

  lemma {:induction false} TwoKinds(b0: Byte)
    requires TopFive(b0) == b0 && DeviceBits(b0) == 0x20
    ensures b0 == 0xa0 || b0 == 0x20
  {
  }

  lemma {:induction false} BootMessageIsValid(payload: seq<Byte>)
    requires |payload| <= MAX_PAYLOAD_SIZE
    ensures Message(SYSTEM_BOOT_ID, payload).Valid()
  {
    TopFiveIs(0xa0);
  }

  /** The frame of a system boot event opens with the byte the unbooted receiver waits for. */
  lemma {:induction false} BootFrameStart(m: Message)
    requires m.Valid()
    requires m.id == SYSTEM_BOOT_ID
    requires |m.payload| < 256
    ensures m.Frame()[0] == 0xa0
  {
    WordBytes(CommandWord(m.id.Word(), |m.payload|), 0xa0, |m.payload|, 0x01, 0x00);
  }
}
