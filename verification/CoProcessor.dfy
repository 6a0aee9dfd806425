/** What the NCP promises of the commands used here, any of which may fail: advertising data is installed from a command
    or from the data buffer; a GATT session stages changes, commit installs them, abort drops them. */
module CoProcessor {
  import opened Bgapi
  import opened Common

  datatype Status = Ok | NotFound | CommandTooLong | Failed

  /** A schedule says of each coming command whether it goes wrong; past its end none does. */
  predicate GoesWrong(schedule: seq<bool>) {
    schedule != [] && schedule[0]
  }

  function Later(schedule: seq<bool>): (rest: seq<bool>)
    ensures schedule == [] ==> rest == []
  {
    if schedule == [] then [] else schedule[1..]
  }

  /** How many entries of a schedule go wrong. */
  function Count(schedule: seq<bool>): nat {
    if schedule == [] then 0 else (if schedule[0] then 1 else 0) + Count(schedule[1..])
  }

  // Advertising data.

  datatype DataState = DataState(
    buffer: seq<Byte>, extended: map<nat, seq<Byte>>, periodic: map<nat, seq<Byte>>, failures: seq<bool>)
  {
    function Installed(periodicSet: bool): map<nat, seq<Byte>> {
      if periodicSet then periodic else extended
    }

    function Install(periodicSet: bool, handle: nat, data: seq<Byte>): DataState {
      if periodicSet then this.(periodic := periodic[handle := data]) else this.(extended := extended[handle := data])
    }

    function Next(): DataState {
      this.(failures := Later(failures))
    }
  }

  function Cleared(s: DataState): (DataState, Status) {
    if GoesWrong(s.failures) then (s.Next(), Failed) else (s.Next().(buffer := []), Ok)
  }

  function Written(s: DataState, data: seq<Byte>): (DataState, Status) {
    if TooLong(1, data) then (s, CommandTooLong)
    else if GoesWrong(s.failures) then (s.Next(), Failed)
    else (s.Next().(buffer := s.buffer + data), Ok)
  }

  function DataSet(s: DataState, periodicSet: bool, handle: nat, data: seq<Byte>): (DataState, Status) {
    if TooLong(2, data) then (s, CommandTooLong)
    else if GoesWrong(s.failures) then (s.Next(), Failed)
    else (s.Next().Install(periodicSet, handle, data), Ok)
  }

  /** The buffer is emptied whether or not the command succeeds. */
  function LongDataSet(s: DataState, periodicSet: bool, handle: nat): (DataState, Status) {
    var s' := s.Next().(buffer := []);
    if GoesWrong(s.failures) then (s', Failed) else (s'.Install(periodicSet, handle, s.buffer), Ok)
  }

  // The GATT database.

  datatype Descriptor = Descriptor(property: nat, uuid: seq<Byte>, valueType: Byte, maxLen: nat, value: seq<Byte>)

  datatype Characteristic = Characteristic(
    property: nat, flag: Byte, uuid: seq<Byte>, valueType: Byte, maxLen: nat, value: seq<Byte>,
    descriptors: seq<Descriptor>)

  datatype Service = Service(
    handle: nat, property: Byte, uuid: seq<Byte>, started: bool, characteristics: seq<Characteristic>)

  /** A characteristic is known by the handle of its service and its place in it. */
  datatype CharHandle = NoCharacteristic | CharacteristicOf(service: nat, index: nat)

  /** The session commands that were issued, and whether they succeeded. */
  datatype Command = NewSession(ok: bool) | Commit(ok: bool) | Abort(ok: bool)

  ghost predicate Increasing(services: seq<Service>) {
    forall i, j :: 0 <= i < j < |services| ==> services[i].handle < services[j].handle
  }

  /** Index of the first service whose handle is at least start, or the length. */
  function Least(services: seq<Service>, start: nat): (i: nat)
    ensures i <= |services|
    ensures i < |services| ==> services[i].handle >= start
    ensures forall j :: 0 <= j < i ==> services[j].handle < start
  {
    if services == [] || services[0].handle >= start then 0 else 1 + Least(services[1..], start)
  }

  function IndexOf(services: seq<Service>, handle: nat): (i: nat)
    ensures i <= |services|
    ensures i < |services| ==> services[i].handle == handle
    ensures forall j :: 0 <= j < i ==> services[j].handle != handle
  {
    if services == [] || services[0].handle == handle then 0 else 1 + IndexOf(services[1..], handle)
  }

  function FreshHandle(services: seq<Service>): nat {
    if services == [] then 1 else services[|services| - 1].handle + 1
  }

  function WithService(services: seq<Service>, property: Byte, uuid: seq<Byte>): seq<Service> {
    services + [Service(FreshHandle(services), property, uuid, false, [])]
  }

  function WithCharacteristic(services: seq<Service>, service: nat, c: Characteristic): Option<seq<Service>> {
    var i := IndexOf(services, service);
    if i == |services| then None
    else Some(services[i := services[i].(characteristics := services[i].characteristics + [c])])
  }

  /** The handle of the characteristic that was added to a service last. */
  function LastOf(services: seq<Service>, service: nat): CharHandle {
    var i := IndexOf(services, service);
    if i == |services| || services[i].characteristics == [] then NoCharacteristic
    else CharacteristicOf(service, |services[i].characteristics| - 1)
  }

  function WithDescriptor(services: seq<Service>, characteristic: CharHandle, d: Descriptor): Option<seq<Service>> {
    if characteristic.NoCharacteristic? then None
    else
      var i := IndexOf(services, characteristic.service);
      if i == |services| || characteristic.index >= |services[i].characteristics| then None
      else
        var cs := services[i].characteristics;
        var c := cs[characteristic.index];
        var cs' := cs[characteristic.index := c.(descriptors := c.descriptors + [d])];
        Some(services[i := services[i].(characteristics := cs')])
  }

  function WithStarted(services: seq<Service>, service: nat): Option<seq<Service>> {
    var i := IndexOf(services, service);
    if i == |services| then None else Some(services[i := services[i].(started := true)])
  }

  function Without(services: seq<Service>, service: nat): Option<seq<Service>> {
    var i := IndexOf(services, service);
    if i == |services| then None else Some(services[..i] + services[i + 1..])
  }

  /** A limit on a variable-length command: its fixed part and the data together. */
  predicate TooLong(fixedPart: nat, data: seq<Byte>) {
    fixedPart + |data| > MAX_PAYLOAD_SIZE
  }

  class Ncp {
    /** Which of the coming commands fail. */
    var failures: seq<bool>
    var buffer: seq<Byte>
    var extended: map<nat, seq<Byte>>
    var periodic: map<nat, seq<Byte>>
    var db: seq<Service>
    var staged: seq<Service>
    var sessionOpen: bool
    /** Which of the coming searches wrongly report that nothing is there. */
    var misses: seq<bool>
    var log: seq<Command>

    constructor (db: seq<Service>, failures: seq<bool>, misses: seq<bool>)
      ensures this.db == db && this.failures == failures && this.misses == misses && !sessionOpen && log == []
      ensures Data() == DataState([], map[], map[], failures)
    {
      this.db, this.failures, this.misses := db, failures, misses;
      staged, sessionOpen, log := [], false, [];
      buffer, extended, periodic := [], map[], map[];
    }

    method Fails() returns (fails: bool)
      modifies this`failures
      ensures fails == GoesWrong(old(failures)) && failures == Later(old(failures))
    {
      fails := failures != [] && failures[0];
      failures := if failures == [] then [] else failures[1..];
    }

    function Data(): DataState
      reads this
    {
      DataState(buffer, extended, periodic, failures)
    }

    method BufferClear() returns (status: Status)
      modifies this`failures, this`buffer
      ensures (Data(), status) == Cleared(old(Data()))
    {
      var fails := Fails();
      if fails {
        return Failed;
      }
      buffer := [];
      status := Ok;
    }

    method BufferWrite(data: seq<Byte>) returns (status: Status)
      modifies this`failures, this`buffer
      ensures (Data(), status) == Written(old(Data()), data)
    {
      if TooLong(1, data) {
        return CommandTooLong;
      }
      var fails := Fails();
      if fails {
        return Failed;
      }
      buffer := buffer + data;
      status := Ok;
    }

    method SetData(periodicSet: bool, handle: nat, data: seq<Byte>) returns (status: Status)
      modifies this`failures, this`extended, this`periodic
      ensures (Data(), status) == DataSet(old(Data()), periodicSet, handle, data)
    {
      if TooLong(2, data) {
        return CommandTooLong;
      }
      var fails := Fails();
      if fails {
        return Failed;
      }
      if periodicSet { periodic := periodic[handle := data]; } else { extended := extended[handle := data]; }
      status := Ok;
    }

    method SetLongData(periodicSet: bool, handle: nat) returns (status: Status)
      modifies this`failures, this`buffer, this`extended, this`periodic
      ensures (Data(), status) == LongDataSet(old(Data()), periodicSet, handle)
    {
      var fails := Fails();
      var data := buffer;
      buffer := [];
      if fails {
        return Failed;
      }
      if periodicSet { periodic := periodic[handle := data]; } else { extended := extended[handle := data]; }
      status := Ok;
    }

    method OpenSession() returns (ok: bool)
      modifies this`failures, this`staged, this`sessionOpen, this`log
      ensures log == old(log) + [NewSession(ok)]
      ensures ok <==> !GoesWrong(old(failures)) && !old(sessionOpen)
      ensures ok ==> sessionOpen && staged == db
      ensures !ok ==> sessionOpen == old(sessionOpen) && staged == old(staged)
      ensures failures == Later(old(failures))
    {
      var fails := Fails();
      ok := !fails && !sessionOpen;
      log := log + [NewSession(ok)];
      if ok {
        sessionOpen, staged := true, db;
      }
    }

    method CommitSession() returns (ok: bool)
      requires sessionOpen
      modifies this`failures, this`db, this`sessionOpen, this`log
      ensures log == old(log) + [Commit(ok)]
      ensures ok <==> !GoesWrong(old(failures))
      ensures db == (if ok then staged else old(db)) && sessionOpen == !ok
      ensures failures == Later(old(failures))
    {
      var fails := Fails();
      ok := !fails;
      log := log + [Commit(ok)];
      if ok {
        db, sessionOpen := staged, false;
      }
    }

    method AbortSession() returns (ok: bool)
      requires sessionOpen
      modifies this`failures, this`sessionOpen, this`log
      ensures log == old(log) + [Abort(ok)] && sessionOpen == !ok
      ensures ok <==> !GoesWrong(old(failures))
      ensures failures == Later(old(failures))
    {
      var fails := Fails();
      ok := !fails;
      log := log + [Abort(ok)];
      sessionOpen := fails;
    }

    /** Stage a change, if the NCP takes it. */
    method Stage(change: Option<seq<Service>>) returns (status: Status)
      requires sessionOpen
      modifies this`failures, this`staged
      ensures status == if GoesWrong(old(failures)) || change.None? then Failed else Ok
      ensures staged == if status == Ok then change.value else old(staged)
      ensures failures == Later(old(failures))
    {
      var fails := Fails();
      if fails || change.None? {
        return Failed;
      }
      staged := change.value;
      status := Ok;
    }

    /** The least primary service handle at or above start, except for an error or a miss. */
    method FindAttribute(start: nat) returns (status: Status, handle: nat)
      modifies this`failures, this`misses
      ensures status == if GoesWrong(old(failures)) then Failed
                        else if GoesWrong(old(misses)) || Least(db, start) == |db| then NotFound
                        else Ok
      ensures status == Ok ==> handle == db[Least(db, start)].handle
      ensures failures == Later(old(failures))
      ensures misses == if GoesWrong(old(failures)) then old(misses) else Later(old(misses))
    {
      handle := 0xffff;
      var fails := Fails();
      if fails {
        return Failed, handle;
      }
      var miss := misses != [] && misses[0];
      misses := if misses == [] then [] else misses[1..];
      var i := Least(db, start);
      if miss || i == |db| {
        return NotFound, handle;
      }
      return Ok, db[i].handle;
    }
  }
}
