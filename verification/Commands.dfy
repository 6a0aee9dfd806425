/** Representative command stubs: one shared command packet is filled in place, the header is written last, and as
    many bytes go out as the header says; the NCP reads the fields back off the stream. */
module Commands {
  import opened Bgapi
  import opened Common

  type Word = n: nat | n < 0x10000

  type Uuid16 = s: seq<Byte> | |s| == 2 witness [0, 0]

  datatype Command =
    | BufferWrite(data: seq<Byte>)
    | BufferClear
    | SetData(advertisingSet: Byte, data: seq<Byte>)
    | SetLongData(advertisingSet: Byte)
    | NewSession
    | AddCharacteristic(session: Word, service: Word, property: Word, security: Word, flag: Byte, uuid: Uuid16,
                        valueType: Byte, maxLen: Word, value: seq<Byte>)
    | Commit(session: Word)
    | Abort(session: Word)

  const BUFFER_WRITE_ID := MsgId(0x20, 0x01, 0x12)
  const BUFFER_CLEAR_ID := MsgId(0x20, 0x01, 0x14)
  const SET_DATA_ID := MsgId(0x20, 0x57, 0x01)
  const SET_LONG_DATA_ID := MsgId(0x20, 0x57, 0x02)
  const NEW_SESSION_ID := MsgId(0x20, 0x46, 0x00)
  const ADD_CHARACTERISTIC_ID := MsgId(0x20, 0x46, 0x05)
  const COMMIT_ID := MsgId(0x20, 0x46, 0x0f)
  const ABORT_ID := MsgId(0x20, 0x46, 0x10)

  function IdOf(c: Command): (id: MsgId)
    ensures id.Valid()
  {
    match c
    case BufferWrite(_) => BUFFER_WRITE_ID
    case BufferClear => BUFFER_CLEAR_ID
    case SetData(_, _) => SET_DATA_ID
    case SetLongData(_) => SET_LONG_DATA_ID
    case NewSession => NEW_SESSION_ID
    case AddCharacteristic(_, _, _, _, _, _, _, _, _) => ADD_CHARACTERISTIC_ID
    case Commit(_) => COMMIT_ID
    case Abort(_) => ABORT_ID
  }

  function Le16(w: Word): (bytes: seq<Byte>)
    ensures |bytes| == 2
  {
    [w % 256, w / 256]
  }

  /** The size check of the variable-length stubs. */
  predicate Fits(c: Command) {
    match c
    case BufferWrite(data) => 1 + |data| <= MAX_PAYLOAD_SIZE
    case SetData(_, data) => 2 + |data| <= MAX_PAYLOAD_SIZE
    case AddCharacteristic(_, _, _, _, _, _, _, _, value) => 16 + |value| <= MAX_PAYLOAD_SIZE
    case _ => true
  }

  /** The packed fields of a command that fits. */
  function Payload(c: Command): (p: seq<Byte>)
    requires Fits(c)
    ensures |p| <= MAX_PAYLOAD_SIZE
  {
    match c
    case BufferWrite(data) => [|data|] + data
    case SetData(advertisingSet, data) => [advertisingSet, |data|] + data
    case SetLongData(advertisingSet) => [advertisingSet]
    case AddCharacteristic(session, service, property, security, flag, uuid, valueType, maxLen, value) =>
      Le16(session) + Le16(service) + Le16(property) + Le16(security) + [flag] + uuid + [valueType]
      + Le16(maxLen) + Le16(|value|) + value
    case Commit(session) => Le16(session)
    case Abort(session) => Le16(session)
    case _ => []
  }

  function Frame(c: Command): (frame: seq<Byte>)
    requires Fits(c)
    ensures |frame| >= HEADER_LEN
  {
    Message(IdOf(c), Payload(c)).Frame()
  }

  // The other end.

  function WordAt(p: seq<Byte>, at: nat): Word
    requires at + 2 <= |p|
  {
    (p[at] as int) + 256 * (p[at + 1] as int)
  }

  /** What the NCP makes of a command's payload: its length fields must agree with the header's. */
  function Parse(id: MsgId, p: seq<Byte>): Option<Command> {
    if id == BUFFER_CLEAR_ID && p == [] then Some(BufferClear)
    else if id == NEW_SESSION_ID && p == [] then Some(NewSession)
    else if id == BUFFER_WRITE_ID && |p| >= 1 && |p| - 1 == p[0] then Some(BufferWrite(p[1..]))
    else if id == SET_DATA_ID && |p| >= 2 && |p| - 2 == p[1] then Some(SetData(p[0], p[2..]))
    else if id == SET_LONG_DATA_ID && |p| == 1 then Some(SetLongData(p[0]))
    else if id == COMMIT_ID && |p| == 2 then Some(Commit(WordAt(p, 0)))
    else if id == ABORT_ID && |p| == 2 then Some(Abort(WordAt(p, 0)))
    else if id == ADD_CHARACTERISTIC_ID && |p| >= 16 && |p| - 16 == WordAt(p, 14) then
      Some(AddCharacteristic(WordAt(p, 0), WordAt(p, 2), WordAt(p, 4), WordAt(p, 6), p[8], p[9..11], p[11],
                             WordAt(p, 12), p[16..]))
    else None
  }

  /** The commands the NCP reads off a stream, or nothing if the stream does not end with a frame. */
  function ParseStream(stream: seq<Byte>): Option<seq<Command>> {
    if stream == [] then Some([])
    else if |stream| < HEADER_LEN then None
    else
      var header := HeaderFrom(stream[..HEADER_LEN]);
      var end := HEADER_LEN + header.Len();
      if end > |stream| then None
      else
        var first, rest := Parse(header.Id(), stream[HEADER_LEN..end]), ParseStream(stream[end..]);
        if first.Some? && rest.Some? then Some([first.value] + rest.value) else None
  }

  lemma {:induction false} Le16RoundTrip(w: Word, p: seq<Byte>, at: nat)
    requires at + 2 <= |p| && p[at..at + 2] == Le16(w)
    ensures WordAt(p, at) == w
  {
    assert p[at..at + 2][0] == p[at] && p[at..at + 2][1] == p[at + 1];
  }

  lemma {:induction false} CharacteristicRoundTrip(c: Command)
    requires c.AddCharacteristic? && Fits(c)
    ensures Parse(ADD_CHARACTERISTIC_ID, Payload(c)) == Some(c)
  {
    var p := Payload(c);
    assert p[0..2] == Le16(c.session) && p[2..4] == Le16(c.service);
    assert p[4..6] == Le16(c.property) && p[6..8] == Le16(c.security);
    assert p[8] == c.flag && p[9..11] == c.uuid && p[11] == c.valueType;
    assert p[12..14] == Le16(c.maxLen) && p[14..16] == Le16(|c.value|) && p[16..] == c.value;
    Le16RoundTrip(c.session, p, 0);
    Le16RoundTrip(c.service, p, 2);
    Le16RoundTrip(c.property, p, 4);
    Le16RoundTrip(c.security, p, 6);
    Le16RoundTrip(c.maxLen, p, 12);
    Le16RoundTrip(|c.value|, p, 14);
  }

  /** The header words of the stubs, as the header file spells them. */
  lemma {:induction false} CommandIds(c: Command)
    ensures IdOf(c).Word() == match c
                              case BufferWrite(_) => 0x12010020
                              case BufferClear => 0x14010020
                              case SetData(_, _) => 0x01570020
                              case SetLongData(_) => 0x02570020
                              case NewSession => 0x00460020
                              case AddCharacteristic(_, _, _, _, _, _, _, _, _) => 0x05460020
                              case Commit(_) => 0x0f460020
                              case Abort(_) => 0x10460020
  {
  }

  /** Where the fields of the longest command lie in its packet, low byte first. */
  lemma {:induction false} CharacteristicLayout(c: Command)
    requires c.AddCharacteristic? && Fits(c)
    ensures var p := Payload(c);
            && |p| == 16 + |c.value|
            && c.session == p[0] as int + 256 * p[1] as int && c.service == p[2] as int + 256 * p[3] as int
            && c.property == p[4] as int + 256 * p[5] as int && c.security == p[6] as int + 256 * p[7] as int
            && p[8] == c.flag && p[9] == c.uuid[0] && p[10] == c.uuid[1] && p[11] == c.valueType
            && c.maxLen == p[12] as int + 256 * p[13] as int && |c.value| == p[14] as int + 256 * p[15] as int
            && p[16..] == c.value
  {
    var p := Payload(c);
    assert p[0..2] == Le16(c.session) && p[2..4] == Le16(c.service);
    assert p[4..6] == Le16(c.property) && p[6..8] == Le16(c.security);
    assert p[12..14] == Le16(c.maxLen) && p[14..16] == Le16(|c.value|);
    assert p[0..2][0] == p[0] && p[0..2][1] == p[1] && p[2..4][0] == p[2] && p[2..4][1] == p[3];
    assert p[4..6][0] == p[4] && p[4..6][1] == p[5] && p[6..8][0] == p[6] && p[6..8][1] == p[7];
    assert p[12..14][0] == p[12] && p[12..14][1] == p[13] && p[14..16][0] == p[14] && p[14..16][1] == p[15];
  }

  /** No accepted command loses anything: the payload parses back to the command, length fields included. */
  lemma {:induction false} PayloadRoundTrip(c: Command)
    requires Fits(c)
    ensures Parse(IdOf(c), Payload(c)) == Some(c)
  {
    match c {
      case BufferWrite(data) => assert Payload(c)[1..] == data;
      case SetData(_, data) => assert Payload(c)[2..] == data;
      case AddCharacteristic(_, _, _, _, _, _, _, _, _) => CharacteristicRoundTrip(c);
      case Commit(session) => Le16RoundTrip(session, Payload(c), 0);
      case Abort(session) => Le16RoundTrip(session, Payload(c), 0);
      case _ =>
    }
  }

  function Wire(cs: seq<Command>): seq<Byte>
    requires forall i :: 0 <= i < |cs| ==> Fits(cs[i])
  {
    if cs == [] then [] else Frame(cs[0]) + Wire(cs[1..])
  }

  /** Any sequence of accepted commands, sent back to back, is read by the NCP as exactly that sequence. */
  lemma {:induction false} StreamRoundTrip(cs: seq<Command>)
    requires forall i :: 0 <= i < |cs| ==> Fits(cs[i])
    ensures ParseStream(Wire(cs)) == Some(cs)
    decreases |cs|
  {
    if cs != [] {
      StreamRoundTrip(cs[1..]);
      Prepended(cs, Frame(cs[0]), Wire(cs[1..]));
    }
  }

  lemma {:induction false} Prepended(cs: seq<Command>, frame: seq<Byte>, rest: seq<Byte>)
    requires cs != [] && Fits(cs[0]) && frame == Frame(cs[0])
    requires ParseStream(rest) == Some(cs[1..])
    ensures ParseStream(frame + rest) == Some(cs)
  {
    var id, p := IdOf(cs[0]), Payload(cs[0]);
    var header := HeaderOfWord(CommandWord(id.Word(), |p|));
    HeaderRoundTrip(id, |p|);
    PayloadRoundTrip(cs[0]);
    assert frame == header.Bytes() + p;
    OneFrame(header, p, frame, rest, cs);
  }

  lemma {:induction false} OneFrame(header: Header, p: seq<Byte>, frame: seq<Byte>, rest: seq<Byte>, cs: seq<Command>)
    requires cs != [] && header.Len() == |p| && Parse(header.Id(), p) == Some(cs[0])
    requires frame == header.Bytes() + p && ParseStream(rest) == Some(cs[1..])
    ensures ParseStream(frame + rest) == Some(cs)
  {
    var stream := frame + rest;
    assert stream[..HEADER_LEN] == header.Bytes();
    assert stream[HEADER_LEN..HEADER_LEN + |p|] == p;
    assert stream[HEADER_LEN + |p|..] == rest;
    assert cs == [cs[0]] + cs[1..];
  }

  lemma {:induction false} SentHeader(id: MsgId, len: nat)
    requires id.Valid() && len <= MAX_PAYLOAD_SIZE
    ensures HeaderOfWord(CommandWord(id.Word(), len)).Len() == len
  {
    HeaderRoundTrip(id, len);
  }

  /** The host's shared command packet. */
  class CommandPacket {
    var header: Header
    const memory: array<Byte>
    var wire: seq<Byte>

    ghost predicate Valid() {
      memory.Length == MAX_PAYLOAD_SIZE
    }

    constructor ()
      ensures Valid() && fresh(memory) && wire == []
    {
      header, wire := Header(0, 0, 0, 0), [];
      memory := new Byte[MAX_PAYLOAD_SIZE](_ => 0);
    }

    /** memcpy into the packet, which keeps what lies before and after. */
    method Put(at: nat, bytes: seq<Byte>)
      requires Valid() && at + |bytes| <= MAX_PAYLOAD_SIZE
      modifies memory
      ensures memory[..at] == old(memory[..at]) && memory[at..at + |bytes|] == bytes
      ensures memory[at + |bytes|..] == old(memory[at + |bytes|..])
      ensures memory[..at + |bytes|] == old(memory[..at]) + bytes
    {
      for i := 0 to |bytes|
        invariant forall k :: 0 <= k < MAX_PAYLOAD_SIZE ==>
                    memory[k] == if at <= k < at + i then bytes[k - at] else old(memory[k])
      {
        memory[at + i] := bytes[i];
      }
    }

    /** The header is set and the header with len payload bytes of the packet is sent. */
    method Send(id: MsgId, len: nat)
      requires Valid() && id.Valid() && len <= MAX_PAYLOAD_SIZE
      modifies this
      ensures wire == old(wire) + Message(id, memory[..len]).Frame()
    {
      SentHeader(id, len);
      header := HeaderOfWord(CommandWord(id.Word(), len));
      var payload := memory[..header.Len()];
      assert Message(id, payload).Frame() == header.Bytes() + payload;
      wire := wire + (header.Bytes() + payload);
    }

    /** Each stub sends the frame of its command if it fits, and otherwise nothing; what an earlier command left in
        the packet is never sent. */
    method SystemDataBufferWrite(data: seq<Byte>) returns (ok: bool)
      requires Valid()
      modifies this, memory
      ensures ok <==> Fits(BufferWrite(data))
      ensures wire == old(wire) + if ok then Frame(BufferWrite(data)) else []
    {
      if 1 + |data| > MAX_PAYLOAD_SIZE {
        return false;
      }
      Put(0, [|data|]);
      Put(1, data);
      Send(BUFFER_WRITE_ID, 1 + |data|);
      ok := true;
    }

    method ExtendedAdvertiserSetData(advertisingSet: Byte, data: seq<Byte>) returns (ok: bool)
      requires Valid()
      modifies this, memory
      ensures ok <==> Fits(SetData(advertisingSet, data))
      ensures wire == old(wire) + if ok then Frame(SetData(advertisingSet, data)) else []
    {
      Put(0, [advertisingSet]);
      if 2 + |data| > MAX_PAYLOAD_SIZE {
        return false;
      }
      Put(1, [|data|]);
      Put(2, data);
      assert memory[..2 + |data|] == [advertisingSet] + [|data|] + data;
      Send(SET_DATA_ID, 2 + |data|);
      assert [advertisingSet] + [|data|] + data == [advertisingSet, |data|] + data;
      ok := true;
    }

    method GattdbAddUuid16Characteristic(
      session: Word, service: Word, property: Word, security: Word, flag: Byte, uuid: Uuid16, valueType: Byte,
      maxLen: Word, value: seq<Byte>) returns (ok: bool)
      requires Valid()
      modifies this, memory
      ensures var c := AddCharacteristic(session, service, property, security, flag, uuid, valueType, maxLen, value);
              && (ok <==> Fits(c))
              && wire == old(wire) + if ok then Frame(c) else []
    {
      Put(0, Le16(session));
      Put(2, Le16(service));
      Put(4, Le16(property));
      Put(6, Le16(security));
      Put(8, [flag]);
      Put(9, uuid);
      Put(11, [valueType]);
      Put(12, Le16(maxLen));
      if 16 + |value| > MAX_PAYLOAD_SIZE {
        return false;
      }
      Put(14, Le16(|value|));
      Put(16, value);
      Send(ADD_CHARACTERISTIC_ID, 16 + |value|);
      ok := true;
    }

    method GattdbCommit(session: Word)
      requires Valid()
      modifies this, memory
      ensures wire == old(wire) + Frame(Commit(session))
    {
      Put(0, Le16(session));
      Send(COMMIT_ID, 2);
    }

    method GattdbAbort(session: Word)
      requires Valid()
      modifies this, memory
      ensures wire == old(wire) + Frame(Abort(session))
    {
      Put(0, Le16(session));
      Send(ABORT_ID, 2);
    }
  }
}
