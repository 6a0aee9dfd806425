/** The parsed description of a GATT database, any field of which may be missing, and what the code stages for it. */
module GattConfig {
  import opened Bgapi
  import opened CoProcessor
  import opened HexCodec
  import opened Common

  datatype DescriptorJson = DescriptorJson(
    property: Option<int>, uuidLen: Option<nat>, uuid: Option<string>, valueType: Option<int>, maxLen: Option<int>,
    valueLen: Option<nat>, value: Option<string>)

  datatype CharacteristicJson = CharacteristicJson(
    property: Option<int>, flag: Option<int>, uuidLen: Option<nat>, uuid: Option<string>, valueType: Option<int>,
    maxLen: Option<int>, valueLen: Option<nat>, value: Option<string>, descriptors: Option<seq<DescriptorJson>>)

  datatype ServiceJson = ServiceJson(
    property: Option<int>, uuidLen: Option<nat>, uuid: Option<string>,
    characteristics: Option<seq<CharacteristicJson>>)

  datatype ConfigFile = Unreadable | Root(services: Option<seq<ServiceJson>>)

  const MAX_ENTRIES := 255

  /** A hexadecimal text is long enough for the length that goes with it. */
  predicate Covers(text: Option<string>, len: Option<nat>) {
    text.Some? && len.Some? ==> 2 * len.value <= |text.value| && IsHexText(text.value[..2 * len.value])
  }

  predicate WrittenDescriptor(d: DescriptorJson) {
    Covers(d.uuid, d.uuidLen) && Covers(d.value, d.valueLen)
  }

  predicate WrittenDescriptors(ds: seq<DescriptorJson>) {
    forall i :: 0 <= i < |ds| ==> WrittenDescriptor(ds[i])
  }

  predicate WrittenCharacteristic(c: CharacteristicJson) {
    && Covers(c.uuid, c.uuidLen) && Covers(c.value, c.valueLen)
    && (c.descriptors.Some? ==> |c.descriptors.value| <= MAX_ENTRIES && WrittenDescriptors(c.descriptors.value))
  }

  predicate WrittenCharacteristics(cs: seq<CharacteristicJson>) {
    forall i :: 0 <= i < |cs| ==> WrittenCharacteristic(cs[i])
  }

  predicate WrittenService(s: ServiceJson) {
    && Covers(s.uuid, s.uuidLen)
    && (s.characteristics.Some? ==>
          |s.characteristics.value| <= MAX_ENTRIES && WrittenCharacteristics(s.characteristics.value))
  }

  predicate WrittenServices(ss: seq<ServiceJson>) {
    forall i :: 0 <= i < |ss| ==> WrittenService(ss[i])
  }

  function U8(n: int): Byte {
    n % 256
  }

  function U16(n: int): nat {
    n % 0x10000
  }

  function Bytes(text: Option<string>, len: Option<nat>): (bytes: seq<Byte>)
    requires text.Some? && len.Some? && Covers(text, len)
    ensures |bytes| == len.value
  {
    FromHex(text.value[..2 * len.value])
  }

  predicate KnownUuid(len: Option<nat>) {
    len == Some(2) || len == Some(16)
  }

  predicate FullDescriptor(d: DescriptorJson) {
    d.property.Some? && d.uuidLen.Some? && d.uuid.Some? && d.valueType.Some? && d.maxLen.Some? && d.valueLen.Some?
    && d.value.Some?
  }

  predicate FullCharacteristic(c: CharacteristicJson) {
    c.property.Some? && c.flag.Some? && c.uuidLen.Some? && c.uuid.Some? && c.valueType.Some? && c.maxLen.Some?
    && c.valueLen.Some? && c.value.Some?
  }

  predicate FullService(s: ServiceJson) {
    s.property.Some? && s.uuidLen.Some? && s.uuid.Some?
  }

  function DescriptorOf(d: DescriptorJson): Descriptor
    requires FullDescriptor(d) && WrittenDescriptor(d)
  {
    Descriptor(U16(d.property.value), Bytes(d.uuid, d.uuidLen), U8(d.valueType.value), U16(d.maxLen.value),
               Bytes(d.value, d.valueLen))
  }

  /** The characteristic itself; its descriptors come one by one. */
  function CharacteristicOfJson(c: CharacteristicJson): Characteristic
    requires FullCharacteristic(c) && WrittenCharacteristic(c)
  {
    Characteristic(U16(c.property.value), U8(c.flag.value), Bytes(c.uuid, c.uuidLen), U8(c.valueType.value),
                   U16(c.maxLen.value), Bytes(c.value, c.valueLen), [])
  }

  // What the nested loops stage, or nothing when they leave for the abort.  A characteristic or descriptor whose
  // UUID length is neither 2 nor 16 is passed over without a command.

  function StageDescriptor(st: seq<Service>, ch: CharHandle, d: DescriptorJson): Option<seq<Service>>
    requires WrittenDescriptor(d)
  {
    if !FullDescriptor(d) then None
    else if !KnownUuid(d.uuidLen) then Some(st)
    else if TooLong(if d.uuidLen.value == 2 then 15 else 29, Bytes(d.value, d.valueLen)) then None
    else WithDescriptor(st, ch, DescriptorOf(d))
  }

  function StageDescriptors(st: seq<Service>, ch: CharHandle, ds: seq<DescriptorJson>): Option<seq<Service>>
    requires WrittenDescriptors(ds)
  {
    if ds == [] then Some(st)
    else
      match StageDescriptors(st, ch, ds[..|ds| - 1])
      case None => None
      case Some(st') => StageDescriptor(st', ch, ds[|ds| - 1])
  }

  /** The first half of the loop body: the characteristic without its descriptors. */
  function StageHead(st: seq<Service>, sh: nat, ch: CharHandle, c: CharacteristicJson)
    : Option<(seq<Service>, CharHandle)>
    requires WrittenCharacteristic(c)
  {
    if !FullCharacteristic(c) then None
    else if !KnownUuid(c.uuidLen) then Some((st, ch))
    else if TooLong(if c.uuidLen.value == 2 then 16 else 30, Bytes(c.value, c.valueLen)) then None
    else
      match WithCharacteristic(st, sh, CharacteristicOfJson(c))
      case None => None
      case Some(st') => Some((st', LastOf(st', sh)))
  }

  function StageCharacteristic(st: seq<Service>, sh: nat, ch: CharHandle, c: CharacteristicJson)
    : Option<(seq<Service>, CharHandle)>
    requires WrittenCharacteristic(c)
  {
    match StageHead(st, sh, ch, c)
    case None => None
    case Some(head) =>
      if c.descriptors.None? then None
      else
        match StageDescriptors(head.0, head.1, c.descriptors.value)
        case None => None
        case Some(st') => Some((st', head.1))
  }

  function StageCharacteristics(st: seq<Service>, sh: nat, ch: CharHandle, cs: seq<CharacteristicJson>)
    : Option<(seq<Service>, CharHandle)>
    requires WrittenCharacteristics(cs)
  {
    if cs == [] then Some((st, ch))
    else
      match StageCharacteristics(st, sh, ch, cs[..|cs| - 1])
      case None => None
      case Some(so) => StageCharacteristic(so.0, sh, so.1, cs[|cs| - 1])
  }

  function StageService(st: seq<Service>, ch: CharHandle, s: ServiceJson): Option<(seq<Service>, CharHandle)>
    requires WrittenService(s)
  {
    if !FullService(s) || TooLong(5, Bytes(s.uuid, s.uuidLen)) || s.characteristics.None? then None
    else
      var sh := FreshHandle(st);
      match StageCharacteristics(WithService(st, U8(s.property.value), Bytes(s.uuid, s.uuidLen)), sh, ch,
                                 s.characteristics.value)
      case None => None
      case Some(so) =>
        match WithStarted(so.0, sh)
        case None => None
        case Some(st') => Some((st', so.1))
  }

  function StageServices(st: seq<Service>, ch: CharHandle, ss: seq<ServiceJson>)
    : Option<(seq<Service>, CharHandle)>
    requires WrittenServices(ss)
  {
    if ss == [] then Some((st, ch))
    else
      match StageServices(st, ch, ss[..|ss| - 1])
      case None => None
      case Some(so) => StageService(so.0, so.1, ss[|ss| - 1])
  }
}
