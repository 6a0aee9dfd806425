/** Reassembly of long advertising data: one step function, generic in the key that identifies a chain, and the two
    static-variable machines of the event watcher that compute it. */
module Reassembly {
  import opened Bgapi
  import opened Common

  const COMPLETE: Byte := 0
  const INCOMPLETE: Byte := 1
  const TRUNCATED: Byte := 2

  /** A uint8array of the wire format. */
  type Fragment = s: seq<Byte> | |s| <= 255

  type Store = s: seq<Byte> | |s| == MAX_ADV_DATA_LEN witness Blank()

  function Blank(): (s: seq<Byte>)
    ensures |s| == MAX_ADV_DATA_LEN
  {
    seq(MAX_ADV_DATA_LEN, _ => 0)
  }

  datatype Report<K> = Report(status: Byte, key: K, data: Fragment)

  /** partial is the 16-bit running length; delivered is the length handed to the callback. */
  datatype Machine<K> = Machine(recording: bool, key: K, partial: nat, store: Store, delivered: nat)

  /** memcpy to an offset, as far as it stays inside the buffer. */
  function Place(store: Store, off: nat, data: seq<Byte>): Store {
    seq(MAX_ADV_DATA_LEN, i requires 0 <= i < MAX_ADV_DATA_LEN =>
      if off <= i < off + |data| then data[i - off] else store[i])
  }

  /** Truncation to sixteen bits. */
  function Wrap16(n: nat): (w: nat)
    ensures w < 0x10000
  {
    if n < 0x10000 then n else Wrap16(n - 0x10000)
  }

  lemma {:induction false} WrapIsRemainder(n: nat)
    ensures Wrap16(n) == n % 0x10000
  {
    if n >= 0x10000 {
      WrapIsRemainder(n - 0x10000);
    }
  }

  /** One report; the flag is the value returned to the watcher. */
  function Next<K(==)>(s: Machine<K>, r: Report<K>): (Machine<K>, bool) {
    if r.status == TRUNCATED then
      (s.(recording := false, store := Blank(), partial := 0), false)
    else if r.status == INCOMPLETE && s.recording && s.key != r.key then
      (s, false)
    else if r.status == INCOMPLETE && s.recording && s.partial + |r.data| >= MAX_ADV_DATA_LEN then
      (s.(partial := Wrap16(s.partial + |r.data|)), false)
    else
      var begun := if r.status == INCOMPLETE && !s.recording then
        s.(recording := true, store := Blank(), partial := 0, key := r.key) else s;
      var copied := begun.(store := Place(begun.store, begun.partial, r.data),
                            partial := Wrap16(begun.partial + |r.data|));
      if r.status != COMPLETE then (copied, false)
      else if copied.partial > MAX_ADV_DATA_LEN then
        (copied.(recording := false, store := Blank(), partial := 0), false)
      else
        (copied.(recording := false, delivered := copied.partial, partial := 0), true)
  }

  /** Where the step copies its data to, if it copies. */
  function CopyAt<K(==)>(s: Machine<K>, r: Report<K>): Option<nat> {
    if r.status == TRUNCATED then None
    else if r.status == INCOMPLETE && !s.recording then Some(0)
    else if r.status == INCOMPLETE && (s.key != r.key || s.partial + |r.data| >= MAX_ADV_DATA_LEN) then None
    else Some(s.partial)
  }

  /** The step writes no byte past the end of the buffer. */
  predicate Inside<K(==)>(s: Machine<K>, r: Report<K>) {
    var at := CopyAt(s, r);
    at.None? || r.data == [] || at.value + |r.data| <= MAX_ADV_DATA_LEN
  }

  /** What the callback is given after a step that returned true. */
  function Payload<K>(s: Machine<K>): seq<Byte>
    requires s.delivered <= MAX_ADV_DATA_LEN
  {
    s.store[..s.delivered]
  }

  method ClearAll(buffer: array<Byte>)
    requires buffer.Length == MAX_ADV_DATA_LEN
    modifies buffer
    ensures buffer[..] == Blank()
  {
    for i := 0 to MAX_ADV_DATA_LEN
      invariant forall j :: 0 <= j < i ==> buffer[j] == 0
    {
      buffer[i] := 0;
    }
  }

  /** memcpy; all tells whether every byte had room. */
  method CopyIn(buffer: array<Byte>, off: nat, data: Fragment) returns (all: bool)
    requires buffer.Length == MAX_ADV_DATA_LEN
    modifies buffer
    ensures buffer[..] == Place(old(buffer[..]), off, data)
    ensures all <==> data == [] || off + |data| <= MAX_ADV_DATA_LEN
  {
    var i := 0;
    while i < |data| && off + i < MAX_ADV_DATA_LEN
      invariant 0 <= i <= |data|
      invariant i > 0 ==> off + i <= MAX_ADV_DATA_LEN
      invariant forall j :: 0 <= j < MAX_ADV_DATA_LEN ==>
                  buffer[j] == if off <= j < off + i then data[j - off] else old(buffer[j])
    {
      buffer[off + i] := data[i];
      i := i + 1;
    }
    all := i == |data|;
  }

  /** What identifies the advertiser of an extended report. */
  datatype Advertiser = Advertiser(addressType: Byte, address: seq<Byte>, sid: Byte)

  class ExtendedAssembler {
    const longData: array<Byte>
    var dataLen: nat
    var partialLen: nat
    var addrTypeRecord: Byte
    var addrRecord: seq<Byte>
    var sidRecord: Byte
    var isRecord: bool

    constructor ()
      ensures Valid() && fresh(longData)
      ensures State() == Machine(false, Advertiser(0, [0, 0, 0, 0, 0, 0], 0), 0, Blank(), 0)
    {
      longData := new Byte[MAX_ADV_DATA_LEN](_ => 0);
      dataLen, partialLen, isRecord := 0, 0, false;
      addrTypeRecord, addrRecord, sidRecord := 0, [0, 0, 0, 0, 0, 0], 0;
      new;
      assert longData[..] == Blank();
    }

    ghost predicate Valid() {
      longData.Length == MAX_ADV_DATA_LEN
    }

    ghost function State(): Machine<Advertiser>
      reads this, longData
      requires Valid()
    {
      Machine(isRecord, Advertiser(addrTypeRecord, addrRecord, sidRecord), partialLen, longData[..], dataLen)
    }

    /** extended_adv_data_constuct */
    method Construct(completeness: Byte, addressType: Byte, address: seq<Byte>, sid: Byte, data: Fragment)
      returns (whole: bool, ghost inside: bool)
      requires Valid()
      modifies this, longData
      ensures (State(), whole) ==
              Next(old(State()), Report(completeness, Advertiser(addressType, address, sid), data))
      ensures inside ==
              Inside(old(State()), Report(completeness, Advertiser(addressType, address, sid), data))
    {
      inside := true;
      if completeness == TRUNCATED {
        isRecord := false;
        ClearAll(longData);
        partialLen := 0;
        return false, inside;
      }
      if completeness == INCOMPLETE {
        if !isRecord {
          isRecord := true;
          ClearAll(longData);
          partialLen := 0;
          addrTypeRecord := addressType;
          addrRecord := address;
          sidRecord := sid;
        } else if addrTypeRecord != addressType || addrRecord != address || sidRecord != sid {
          return false, inside;
        } else if partialLen + |data| >= MAX_ADV_DATA_LEN {
          partialLen := Wrap16(partialLen + |data|);
          return false, inside;
        }
      }
      var all := CopyIn(longData, partialLen, data);
      inside := all;
      partialLen := Wrap16(partialLen + |data|);
      if completeness == COMPLETE {
        isRecord := false;
        if partialLen > MAX_ADV_DATA_LEN {
          ClearAll(longData);
          partialLen := 0;
          return false, inside;
        }
        dataLen := partialLen;
        partialLen := 0;
        return true, inside;
      }
      whole := false;
    }
  }

  class PeriodicAssembler {
    const longData: array<Byte>
    var dataLen: nat
    var partialLen: nat
    var syncHandleRecord: nat
    var isRecord: bool

    constructor ()
      ensures Valid() && fresh(longData)
      ensures State() == Machine(false, 0, 0, Blank(), 0)
    {
      longData := new Byte[MAX_ADV_DATA_LEN](_ => 0);
      dataLen, partialLen, syncHandleRecord, isRecord := 0, 0, 0, false;
      new;
      assert longData[..] == Blank();
    }

    ghost predicate Valid() {
      longData.Length == MAX_ADV_DATA_LEN
    }

    ghost function State(): Machine<nat>
      reads this, longData
      requires Valid()
    {
      Machine(isRecord, syncHandleRecord, partialLen, longData[..], dataLen)
    }

    /** periodic_adv_data_constuct */
    method Construct(dataStatus: Byte, sync: nat, data: Fragment) returns (whole: bool, ghost inside: bool)
      requires Valid()
      modifies this, longData
      ensures (State(), whole) == Next(old(State()), Report(dataStatus, sync, data))
      ensures inside == Inside(old(State()), Report(dataStatus, sync, data))
    {
      inside := true;
      if dataStatus == TRUNCATED {
        isRecord := false;
        ClearAll(longData);
        partialLen := 0;
        return false, inside;
      }
      if dataStatus == INCOMPLETE {
        if !isRecord {
          isRecord := true;
          ClearAll(longData);
          partialLen := 0;
          syncHandleRecord := sync;
        } else if syncHandleRecord != sync {
          return false, inside;
        } else if partialLen + |data| >= MAX_ADV_DATA_LEN {
          partialLen := Wrap16(partialLen + |data|);
          return false, inside;
        }
      }
      var all := CopyIn(longData, partialLen, data);
      inside := all;
      partialLen := Wrap16(partialLen + |data|);
      if dataStatus == COMPLETE {
        isRecord := false;
        if partialLen > MAX_ADV_DATA_LEN {
          ClearAll(longData);
          partialLen := 0;
          return false, inside;
        }
        dataLen := partialLen;
        partialLen := 0;
        return true, inside;
      }
      whole := false;
    }
  }
}
