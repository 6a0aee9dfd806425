/** iBeacon packets: the hexadecimal text the sender advertises and the decoder of the receiving side. */
module IBeaconPacket {
  import opened Bgapi
  import opened HexCodec

  const HEADER_SIZE := 9
  const PACKET_SIZE := 30
  const SEND_HEADER := "0201061aff004c1502"

  function Word16(n: nat): seq<Byte>
    requires n < 0x10000
  {
    [n % 256, n / 256]
  }

  /** The packed header structure as a little-endian host lays it out: flags, length, type, company, beacon type. */
  function Header(): (h: seq<Byte>)
    ensures |h| == HEADER_SIZE
  {
    [0x02, 0x01, 0x06] + [0x1A] + [0xFF] + Word16(0x4C00) + Word16(0x0215)
  }

  predicate IsIBeacon(adv: seq<Byte>) {
    |adv| == PACKET_SIZE && adv[..HEADER_SIZE] == Header()
  }

  datatype Field = ProximityUuid | Major | Minor | MeasuredPower

  /** The characters of one field in the hexadecimal text of a packet. */
  function FieldText(data: string, field: Field): string
    requires |data| == 2 * PACKET_SIZE
  {
    match field
    case ProximityUuid => data[18..50]
    case Major => data[50..54]
    case Minor => data[54..58]
    case MeasuredPower => data[58..60]
  }

  /** A legacy scan report as the event callback hands it over. */
  datatype Report = Report(address: Mac, addressType: Byte, rssi: int, eventFlags: int, bonding: Byte, adv: seq<Byte>)

  datatype Beacon = Beacon(mac: string, addressType: Byte, rssi: int, eventFlags: int, bonding: Byte,
                           uuid: string, major: string, minor: string, power: int)

  function SignedByte(b: Byte): int {
    if b < 128 then b else b - 256
  }

  function Decode(report: Report): Beacon
    requires |report.adv| == PACKET_SIZE
  {
    var text := ToHex(report.adv);
    PowerField(report.adv);
    Beacon(AddrToStr(report.address), report.addressType, report.rssi, report.eventFlags, report.bonding,
           FieldText(text, ProximityUuid), FieldText(text, Major), FieldText(text, Minor),
           SignedByte(FromHex(FieldText(text, MeasuredPower))[0]))
  }

  lemma {:induction false} TextFields(adv: seq<Byte>)
    requires |adv| == PACKET_SIZE
    ensures FieldText(ToHex(adv), ProximityUuid) == ToHex(adv[9..25])
    ensures FieldText(ToHex(adv), Major) == ToHex(adv[25..27])
    ensures FieldText(ToHex(adv), Minor) == ToHex(adv[27..29])
  {
    ToHexSlice(adv, 9, 25);
    ToHexSlice(adv, 25, 27);
    ToHexSlice(adv, 27, 29);
  }

  lemma {:induction false} PowerField(adv: seq<Byte>)
    requires |adv| == PACKET_SIZE
    ensures FieldText(ToHex(adv), MeasuredPower) == ToHex([adv[29]])
    ensures FromHex(ToHex([adv[29]])) == [adv[29]]
  {
    ToHexSlice(adv, 29, 30);
    assert adv[29..30] == [adv[29]];
    HexRoundTrip([adv[29]]);
  }

  lemma {:induction false} DecodedTexts(report: Report)
    requires |report.adv| == PACKET_SIZE
    ensures var b := Decode(report);
      && b.uuid == ToHex(report.adv[9..25]) && b.major == ToHex(report.adv[25..27])
      && b.minor == ToHex(report.adv[27..29]) && b.power == SignedByte(report.adv[29])
  {
    TextFields(report.adv);
    PowerField(report.adv);
  }

  /** What a beacon handed to the reader says about the report it was made from, field by field. */
  ghost predicate Tells(b: Beacon, report: Report)
    requires |report.adv| == PACKET_SIZE
  {
    && IsAddress(b.mac) && StrToAddr(b.mac) == report.address
    && b.addressType == report.addressType && b.rssi == report.rssi
    && b.eventFlags == report.eventFlags && b.bonding == report.bonding
    && b.uuid == ToHex(report.adv[9..25]) && b.major == ToHex(report.adv[25..27])
    && b.minor == ToHex(report.adv[27..29])
    && -128 <= b.power < 128 && (b.power - report.adv[29]) % 256 == 0
  }

  lemma {:induction false} DecodeTells(report: Report)
    requires |report.adv| == PACKET_SIZE
    ensures Tells(Decode(report), report)
  {
    DecodedTexts(report);
    AddressRoundTrip(report.address);
    SignedIs(report.adv[29]);
  }

  lemma {:induction false} SignedIs(b: Byte)
    ensures -128 <= SignedByte(b) < 128 && (SignedByte(b) - b) % 256 == 0
  {
  }

  /** Two recognised reports of which the same beacon tells are the same report. */
  lemma {:induction false} SameBeaconSameReport(b: Beacon, r: Report, s: Report)
    requires IsIBeacon(r.adv) && IsIBeacon(s.adv)
    requires Tells(b, r) && Tells(b, s)
    ensures r == s
  {
    HexIsInjective(r.adv[9..25], s.adv[9..25]);
    HexIsInjective(r.adv[25..27], s.adv[25..27]);
    HexIsInjective(r.adv[27..29], s.adv[27..29]);
    SameByte(b.power, r.adv[29], s.adv[29]);
    SameParts(r.adv, s.adv);
  }

  lemma {:induction false} SameByte(power: int, a: Byte, b: Byte)
    requires (power - a) % 256 == 0 && (power - b) % 256 == 0
    ensures a == b
  {
  }

  lemma {:induction false} SameParts(a: seq<Byte>, b: seq<Byte>)
    requires |a| == |b| == PACKET_SIZE && a[..9] == b[..9] && a[9..25] == b[9..25] && a[25..27] == b[25..27]
    requires a[27..29] == b[27..29] && a[29] == b[29]
    ensures a == b
  {
    assert a == a[..9] + a[9..25] + a[25..27] + a[27..29] + [a[29]];
    assert b == b[..9] + b[9..25] + b[25..27] + b[27..29] + [b[29]];
  }

  /** The lengths the command line check demands of the four payload arguments. */
  predicate PayloadArgsOk(uuid: string, major: string, minor: string, power: string) {
    |uuid| == 32 && |major| == 4 && |minor| == 4 && |power| == 2
  }

  predicate HexPayload(uuid: string, major: string, minor: string, power: string) {
    PayloadArgsOk(uuid, major, minor, power) && IsHexText(uuid + major + minor + power)
  }

  function Packet(uuid: string, major: string, minor: string, power: string): string {
    SEND_HEADER + uuid + major + minor + power
  }

  lemma {:induction false} ToHexSlice(bytes: seq<Byte>, lo: nat, hi: nat)
    requires lo <= hi <= |bytes|
    ensures ToHex(bytes)[2 * lo..2 * hi] == ToHex(bytes[lo..hi])
  {
    var a, b, c := bytes[..lo], bytes[lo..hi], bytes[hi..];
    assert bytes == a + b + c;
    ToHexConcat(a + b, c);
    ToHexConcat(a, b);
  }

  lemma {:induction false} ToHexOfThree(a: Byte, b: Byte, c: Byte)
    ensures ToHex([a, b, c]) == Print2(a) + Print2(b) + Print2(c)
  {
    ToHexSnoc([], a);
    ToHexSnoc([a], b);
    ToHexSnoc([a, b], c);
    assert [] + [a] == [a] && [a] + [b] == [a, b] && [a, b] + [c] == [a, b, c];
  }

  lemma {:induction false} PrintedHeaderBytes()
    ensures Print2(0x02) + Print2(0x01) + Print2(0x06) == "020106"
    ensures Print2(0x1a) + Print2(0xff) + Print2(0x00) == "1aff00"
    ensures Print2(0x4c) + Print2(0x15) + Print2(0x02) == "4c1502"
  {
  }

  lemma {:induction false} ThreeParts(a: seq<Byte>, b: seq<Byte>, c: seq<Byte>, s: string, t: string, u: string)
    requires ToHex(a) == s && ToHex(b) == t && ToHex(c) == u
    ensures IsHexText(s + t + u) && FromHex(s + t + u) == a + b + c
  {
    ToHexConcat(a, b);
    ToHexConcat(a + b, c);
    HexRoundTrip(a + b + c);
  }

  lemma {:induction false} HeaderInThree()
    ensures SEND_HEADER == "020106" + "1aff00" + "4c1502"
    ensures Header() == [0x02, 0x01, 0x06] + [0x1a, 0xff, 0x00] + [0x4c, 0x15, 0x02]
  {
  }

  lemma {:induction false} HeaderText()
    ensures IsHexText(SEND_HEADER) && FromHex(SEND_HEADER) == Header()
  {
    HeaderInThree();
    ToHexOfThree(0x02, 0x01, 0x06);
    ToHexOfThree(0x1a, 0xff, 0x00);
    ToHexOfThree(0x4c, 0x15, 0x02);
    PrintedHeaderBytes();
    ThreeParts([0x02, 0x01, 0x06], [0x1a, 0xff, 0x00], [0x4c, 0x15, 0x02], "020106", "1aff00", "4c1502");
  }

  lemma {:induction false} ArgsAreHex(uuid: string, major: string, minor: string, power: string)
    requires HexPayload(uuid, major, minor, power)
    ensures IsHexText(uuid) && IsHexText(major) && IsHexText(minor) && IsHexText(power)
  {
    var all := uuid + major + minor + power;
    assert uuid == all[..32] && major == all[32..36] && minor == all[36..40] && power == all[40..42];
  }

  /** The bytes of a printed packet are the header followed by the bytes of the four arguments. */
  lemma {:induction false} PacketBytes(uuid: string, major: string, minor: string, power: string)
    requires HexPayload(uuid, major, minor, power)
    ensures IsHexText(Packet(uuid, major, minor, power))
    ensures IsHexText(uuid) && IsHexText(major) && IsHexText(minor) && IsHexText(power)
    ensures FromHex(Packet(uuid, major, minor, power))
         == Header() + FromHex(uuid) + FromHex(major) + FromHex(minor) + FromHex(power)
  {
    HeaderText();
    ArgsAreHex(uuid, major, minor, power);
    FromHexConcat(SEND_HEADER, uuid);
    FromHexConcat(SEND_HEADER + uuid, major);
    FromHexConcat(SEND_HEADER + uuid + major, minor);
    FromHexConcat(SEND_HEADER + uuid + major + minor, power);
  }

  /** The advertising data that the driver makes of the printed text. */
  function Advertised(uuid: string, major: string, minor: string, power: string): seq<Byte>
    requires HexPayload(uuid, major, minor, power)
  {
    PacketBytes(uuid, major, minor, power);
    FromHex(Packet(uuid, major, minor, power))
  }

  lemma {:induction false} PartsOf(
    head: seq<Byte>, uuid: seq<Byte>, major: seq<Byte>, minor: seq<Byte>, power: seq<Byte>, adv: seq<Byte>)
    requires |head| == HEADER_SIZE && |uuid| == 16 && |major| == 2 && |minor| == 2 && |power| == 1
    requires adv == head + uuid + major + minor + power
    ensures adv[..HEADER_SIZE] == head && adv[9..25] == uuid && adv[25..27] == major && adv[27..29] == minor
    ensures |adv| == PACKET_SIZE && adv[29] == power[0]
  {
  }

  lemma {:induction false} SentParts(uuid: string, major: string, minor: string, power: string, adv: seq<Byte>)
    requires HexPayload(uuid, major, minor, power)
    requires adv == Advertised(uuid, major, minor, power)
    ensures IsIBeacon(adv) && IsHexText(power) && adv[29] == FromHex(power)[0]
    ensures ToHex(adv[9..25]) == LowerAll(uuid) && ToHex(adv[25..27]) == LowerAll(major)
    ensures ToHex(adv[27..29]) == LowerAll(minor)
  {
    PacketBytes(uuid, major, minor, power);
    PartsOf(Header(), FromHex(uuid), FromHex(major), FromHex(minor), FromHex(power), adv);
    TextRoundTrip(uuid);
    TextRoundTrip(major);
    TextRoundTrip(minor);
  }

  /** What the sender prints, the receiver recognises and decodes to the sender's arguments in lower case. */
  lemma {:induction false} SenderToReceiver(uuid: string, major: string, minor: string, power: string, report: Report)
    requires HexPayload(uuid, major, minor, power)
    requires report.adv == Advertised(uuid, major, minor, power)
    ensures IsIBeacon(report.adv) && IsHexText(power)
    ensures Decode(report).uuid == LowerAll(uuid)
    ensures Decode(report).major == LowerAll(major)
    ensures Decode(report).minor == LowerAll(minor)
    ensures Decode(report).power == SignedByte(FromHex(power)[0])
  {
    SentParts(uuid, major, minor, power, report.adv);
    DecodedTexts(report);
  }

  lemma {:induction false} SignedPower(power: int, b: Byte)
    requires -128 <= power < 128 && (power - b) % 256 == 0
    ensures power == SignedByte(b)
  {
  }

  /** So whatever beacon tells of the sender's packet has the sender's fields. */
  lemma {:induction false} SentIsTold(
    uuid: string, major: string, minor: string, power: string, report: Report, b: Beacon)
    requires HexPayload(uuid, major, minor, power)
    requires report.adv == Advertised(uuid, major, minor, power)
    requires |report.adv| == PACKET_SIZE && Tells(b, report)
    ensures b.uuid == LowerAll(uuid) && b.major == LowerAll(major) && b.minor == LowerAll(minor)
    ensures IsHexText(power) && b.power == SignedByte(FromHex(power)[0])
  {
    SentParts(uuid, major, minor, power, report.adv);
    SignedPower(b.power, report.adv[29]);
  }

  lemma {:induction false} PrintedParts(uuid: seq<Byte>, major: seq<Byte>, minor: seq<Byte>, power: Byte)
    requires |uuid| == 16 && |major| == 2 && |minor| == 2
    ensures HexPayload(ToHex(uuid), ToHex(major), ToHex(minor), ToHex([power]))
    ensures Advertised(ToHex(uuid), ToHex(major), ToHex(minor), ToHex([power]))
         == Header() + uuid + major + minor + [power]
  {
    ToHexConcat(uuid, major);
    ToHexConcat(uuid + major, minor);
    ToHexConcat(uuid + major + minor, [power]);
    assert ToHex(uuid) + ToHex(major) + ToHex(minor) + ToHex([power]) == ToHex(uuid + major + minor + [power]);
    PacketBytes(ToHex(uuid), ToHex(major), ToHex(minor), ToHex([power]));
    HexRoundTrip(uuid);
    HexRoundTrip(major);
    HexRoundTrip(minor);
    HexRoundTrip([power]);
  }

  lemma {:induction false} PrintedAgain(adv: seq<Byte>, uuid: string, major: string, minor: string, power: string)
    requires IsIBeacon(adv)
    requires uuid == ToHex(adv[9..25]) && major == ToHex(adv[25..27])
    requires minor == ToHex(adv[27..29]) && power == ToHex([adv[29]])
    ensures HexPayload(uuid, major, minor, power) && Advertised(uuid, major, minor, power) == adv
  {
    PrintedParts(adv[9..25], adv[25..27], adv[27..29], adv[29]);
    assert adv == adv[..9] + adv[9..25] + adv[25..27] + adv[27..29] + [adv[29]];
  }

  /** The converse: every packet the receiver recognises is what the sender prints for the decoded fields. */
  lemma {:induction false} ReceiverToSender(report: Report, b: Beacon, power: string)
    requires IsIBeacon(report.adv) && b == Decode(report) && power == ToHex([report.adv[29]])
    ensures b.power == SignedByte(report.adv[29])
    ensures HexPayload(b.uuid, b.major, b.minor, power)
    ensures Advertised(b.uuid, b.major, b.minor, power) == report.adv
  {
    DecodedTexts(report);
    PrintedAgain(report.adv, b.uuid, b.major, b.minor, power);
  }

  /** Two recognised packets that decode to the same UUID, major, minor and power are the same packet. */
  lemma {:induction false} DecodingIsInjective(r: Report, s: Report)
    requires IsIBeacon(r.adv) && IsIBeacon(s.adv)
    requires Decode(r).uuid == Decode(s).uuid && Decode(r).major == Decode(s).major
    requires Decode(r).minor == Decode(s).minor && Decode(r).power == Decode(s).power
    ensures r.adv == s.adv
  {
    ReceiverToSender(r, Decode(r), ToHex([r.adv[29]]));
    ReceiverToSender(s, Decode(s), ToHex([s.adv[29]]));
  }
}
