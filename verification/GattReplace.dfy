/** Replacing the GATT database: the nested loops that stage the description and the transaction around them. */
module GattReplace {
  import opened Bgapi
  import opened Common
  import opened CoProcessor
  import opened GattConfig
  import opened GattTree
  import opened GattSizes
  import opened GattExample
  import opened GattDelete
  import opened HexCodec

  method DecodeText(text: Option<string>, len: Option<nat>) returns (bytes: seq<Byte>)
    requires text.Some? && len.Some? && Covers(text, len)
    ensures bytes == Bytes(text, len)
  {
    var memory := new Byte[len.value];
    Str2Array(memory, text.value[..2 * len.value]);
    bytes := memory[..];
  }

  method AddDescriptor(ncp: Ncp, ch: CharHandle, d: DescriptorJson) returns (ok: bool)
    requires ncp.sessionOpen && WrittenDescriptor(d)
    modifies ncp`failures, ncp`staged
    ensures ok ==> StageDescriptor(old(ncp.staged), ch, d) == Some(ncp.staged)
    ensures old(ncp.failures) == [] ==>
              ncp.failures == [] && (ok <==> StageDescriptor(old(ncp.staged), ch, d).Some?)
  {
    if !FullDescriptor(d) {
      return false;
    }
    var uuid := DecodeText(d.uuid, d.uuidLen);
    var value := DecodeText(d.value, d.valueLen);
    var status := Ok;
    if d.uuidLen.value == 2 || d.uuidLen.value == 16 {
      if TooLong(if d.uuidLen.value == 2 then 15 else 29, value) {
        status := CommandTooLong;
      } else {
        var descriptor := Descriptor(U16(d.property.value), uuid, U8(d.valueType.value), U16(d.maxLen.value), value);
        status := ncp.Stage(WithDescriptor(ncp.staged, ch, descriptor));
      }
    }
    ok := status == Ok;
  }

  method AddDescriptors(ncp: Ncp, ch: CharHandle, ds: seq<DescriptorJson>) returns (ok: bool)
    requires ncp.sessionOpen && WrittenDescriptors(ds)
    modifies ncp`failures, ncp`staged
    ensures ok ==> StageDescriptors(old(ncp.staged), ch, ds) == Some(ncp.staged)
    ensures old(ncp.failures) == [] ==>
              ncp.failures == [] && (ok <==> StageDescriptors(old(ncp.staged), ch, ds).Some?)
  {
    var k := 0;
    while k < |ds|
      invariant k <= |ds|
      invariant StageDescriptors(old(ncp.staged), ch, ds[..k]) == Some(ncp.staged)
      invariant old(ncp.failures) == [] ==> ncp.failures == []
    {
      assert ds[..k + 1][..k] == ds[..k];
      var added := AddDescriptor(ncp, ch, ds[k]);
      if !added {
        NoMoreDescriptors(old(ncp.staged), ch, ds, k + 1);
        return false;
      }
      k := k + 1;
    }
    assert ds[..|ds|] == ds;
    ok := true;
  }

  lemma {:induction false} NoMoreDescriptors(st: seq<Service>, ch: CharHandle, ds: seq<DescriptorJson>, k: nat)
    requires WrittenDescriptors(ds) && k <= |ds|
    ensures StageDescriptors(st, ch, ds[..k]).None? ==> StageDescriptors(st, ch, ds).None?
    decreases |ds|
  {
    if k < |ds| {
      assert ds[..|ds| - 1][..k] == ds[..k];
      NoMoreDescriptors(st, ch, ds[..|ds| - 1], k);
    } else {
      assert ds[..k] == ds;
    }
  }

  method AddHead(ncp: Ncp, sh: nat, ch: CharHandle, c: CharacteristicJson) returns (ok: bool, ch': CharHandle)
    requires ncp.sessionOpen && WrittenCharacteristic(c)
    modifies ncp`failures, ncp`staged
    ensures ok ==> StageHead(old(ncp.staged), sh, ch, c) == Some((ncp.staged, ch'))
    ensures old(ncp.failures) == [] ==>
              ncp.failures == [] && (ok <==> StageHead(old(ncp.staged), sh, ch, c).Some?)
  {
    ch' := ch;
    if !FullCharacteristic(c) {
      return false, ch;
    }
    var uuid := DecodeText(c.uuid, c.uuidLen);
    var value := DecodeText(c.value, c.valueLen);
    var status := Ok;
    if c.uuidLen.value == 2 || c.uuidLen.value == 16 {
      if TooLong(if c.uuidLen.value == 2 then 16 else 30, value) {
        status := CommandTooLong;
      } else {
        var characteristic := Characteristic(
          U16(c.property.value), U8(c.flag.value), uuid, U8(c.valueType.value), U16(c.maxLen.value), value, []);
        status := ncp.Stage(WithCharacteristic(ncp.staged, sh, characteristic));
        ch' := LastOf(ncp.staged, sh);
      }
    }
    ok := status == Ok;
  }

  method AddCharacteristic(ncp: Ncp, sh: nat, ch: CharHandle, c: CharacteristicJson)
    returns (ok: bool, ch': CharHandle)
    requires ncp.sessionOpen && WrittenCharacteristic(c)
    modifies ncp`failures, ncp`staged
    ensures ok ==> StageCharacteristic(old(ncp.staged), sh, ch, c) == Some((ncp.staged, ch'))
    ensures old(ncp.failures) == [] ==>
              ncp.failures == [] && (ok <==> StageCharacteristic(old(ncp.staged), sh, ch, c).Some?)
  {
    ok, ch' := AddHead(ncp, sh, ch, c);
    if !ok {
      return;
    }
    if c.descriptors.None? {
      return false, ch';
    }
    ok := AddDescriptors(ncp, ch', c.descriptors.value);
  }

  method AddCharacteristics(ncp: Ncp, sh: nat, ch: CharHandle, cs: seq<CharacteristicJson>)
    returns (ok: bool, ch': CharHandle)
    requires ncp.sessionOpen && WrittenCharacteristics(cs)
    modifies ncp`failures, ncp`staged
    ensures ok ==> StageCharacteristics(old(ncp.staged), sh, ch, cs) == Some((ncp.staged, ch'))
    ensures old(ncp.failures) == [] ==>
              ncp.failures == [] && (ok <==> StageCharacteristics(old(ncp.staged), sh, ch, cs).Some?)
  {
    ch' := ch;
    var j := 0;
    while j < |cs|
      invariant j <= |cs|
      invariant StageCharacteristics(old(ncp.staged), sh, ch, cs[..j]) == Some((ncp.staged, ch'))
      invariant old(ncp.failures) == [] ==> ncp.failures == []
    {
      assert cs[..j + 1][..j] == cs[..j];
      ok, ch' := AddCharacteristic(ncp, sh, ch', cs[j]);
      if !ok {
        NoMoreCharacteristics(old(ncp.staged), sh, ch, cs, j + 1);
        return;
      }
      j := j + 1;
    }
    assert cs[..|cs|] == cs;
    ok := true;
  }

  lemma {:induction false} NoMoreCharacteristics(
    st: seq<Service>, sh: nat, ch: CharHandle, cs: seq<CharacteristicJson>, j: nat)
    requires WrittenCharacteristics(cs) && j <= |cs|
    ensures StageCharacteristics(st, sh, ch, cs[..j]).None? ==> StageCharacteristics(st, sh, ch, cs).None?
    decreases |cs|
  {
    if j < |cs| {
      assert cs[..|cs| - 1][..j] == cs[..j];
      NoMoreCharacteristics(st, sh, ch, cs[..|cs| - 1], j);
    } else {
      assert cs[..j] == cs;
    }
  }

  method AddService(ncp: Ncp, ch: CharHandle, s: ServiceJson) returns (ok: bool, ch': CharHandle)
    requires ncp.sessionOpen && WrittenService(s)
    modifies ncp`failures, ncp`staged
    ensures ok ==> StageService(old(ncp.staged), ch, s) == Some((ncp.staged, ch'))
    ensures old(ncp.failures) == [] ==>
              ncp.failures == [] && (ok <==> StageService(old(ncp.staged), ch, s).Some?)
  {
    ch' := ch;
    if !FullService(s) {
      return false, ch;
    }
    var uuid := DecodeText(s.uuid, s.uuidLen);
    if TooLong(5, uuid) {
      return false, ch;
    }
    var sh := FreshHandle(ncp.staged);
    var status := ncp.Stage(Some(WithService(ncp.staged, U8(s.property.value), uuid)));
    if status != Ok || s.characteristics.None? {
      return false, ch;
    }
    ok, ch' := AddCharacteristics(ncp, sh, ch, s.characteristics.value);
    if !ok {
      return;
    }
    status := ncp.Stage(WithStarted(ncp.staged, sh));
    ok := status == Ok;
  }

  method AddServices(ncp: Ncp, ss: seq<ServiceJson>) returns (ok: bool, ghost ch: CharHandle)
    requires ncp.sessionOpen && WrittenServices(ss)
    modifies ncp`failures, ncp`staged
    ensures ok ==> StageServices(old(ncp.staged), NoCharacteristic, ss) == Some((ncp.staged, ch))
    ensures old(ncp.failures) == [] ==>
              ncp.failures == [] && (ok <==> StageServices(old(ncp.staged), NoCharacteristic, ss).Some?)
  {
    var last := NoCharacteristic;
    var i := 0;
    while i < |ss|
      invariant i <= |ss|
      invariant StageServices(old(ncp.staged), NoCharacteristic, ss[..i]) == Some((ncp.staged, last))
      invariant old(ncp.failures) == [] ==> ncp.failures == []
    {
      assert ss[..i + 1][..i] == ss[..i];
      ok, last := AddService(ncp, last, ss[i]);
      if !ok {
        NoMoreServices(old(ncp.staged), NoCharacteristic, ss, i + 1);
        return false, last;
      }
      i := i + 1;
    }
    assert ss[..|ss|] == ss;
    return true, last;
  }

  lemma {:induction false} NoMoreServices(st: seq<Service>, ch: CharHandle, ss: seq<ServiceJson>, i: nat)
    requires WrittenServices(ss) && i <= |ss|
    ensures StageServices(st, ch, ss[..i]).None? ==> StageServices(st, ch, ss).None?
    decreases |ss|
  {
    if i < |ss| {
      assert ss[..|ss| - 1][..i] == ss[..i];
      NoMoreServices(st, ch, ss[..|ss| - 1], i);
    } else {
      assert ss[..i] == ss;
    }
  }

  /** The services of a file, if it can be read and names any. */
  function Listed(file: ConfigFile): Option<seq<ServiceJson>> {
    if file.Unreadable? then None else file.services
  }

  /** A file that the code can walk: its texts cover their lengths and no list has more than 255 entries, beyond
      which the eight-bit loop counters never reach the end. */
  predicate Walkable(file: ConfigFile) {
    Listed(file).Some? ==> |Listed(file).value| <= MAX_ENTRIES && WrittenServices(Listed(file).value)
  }

  /** The second half of silabs_ble_set_gattdb: stage the description in a session of its own. */
  method Install(ncp: Ncp, file: ConfigFile) returns (code: Code, ghost commands: seq<Command>)
    requires Walkable(file)
    modifies ncp`failures, ncp`db, ncp`staged, ncp`sessionOpen, ncp`log
    ensures code == Success || code == UnknownError
    ensures ncp.log == old(ncp.log) + commands && OneSession(commands)
    ensures code == Success <==> commands == [NewSession(true), Commit(true)]
    ensures code != Success ==> ncp.db == old(ncp.db)
    ensures code == Success ==> Listed(file).Some?
    ensures code == Success ==>
              exists ch :: StageServices(old(ncp.db), NoCharacteristic, Listed(file).value) == Some((ncp.db, ch))
    ensures old(ncp.failures) == [] && !old(ncp.sessionOpen) && Listed(file).Some? ==>
              (code == Success <==> StageServices(old(ncp.db), NoCharacteristic, Listed(file).value).Some?)
  {
    var begun := ncp.OpenSession();
    if !begun {
      return UnknownError, [NewSession(false)];
    }
    if file.Unreadable? || file.services.None? {
      var aborted := ncp.AbortSession();
      return UnknownError, [NewSession(true), Abort(aborted)];
    }
    var ok, ch := AddServices(ncp, file.services.value);
    if !ok {
      var aborted := ncp.AbortSession();
      return UnknownError, [NewSession(true), Abort(aborted)];
    }
    var committed := ncp.CommitSession();
    if !committed {
      var aborted := ncp.AbortSession();
      return UnknownError, [NewSession(true), Commit(false), Abort(aborted)];
    }
    return Success, [NewSession(true), Commit(true)];
  }

  /** silabs_ble_set_gattdb.  For every pattern of failing commands and missing fields there are at most two
      sessions, each closed exactly once; the database ends as it was, or without the services that the deletion
      removed, or as the description staged on top of that. */
  method SetGattDb(ncp: Ncp, file: ConfigFile)
    returns (code: Code, ghost left: seq<Service>, ghost first: seq<Command>, ghost second: seq<Command>)
    requires Enumerable(ncp.db) && Walkable(file)
    modifies ncp`failures, ncp`misses, ncp`db, ncp`staged, ncp`sessionOpen, ncp`log
    ensures code == Success || code == UnknownError
    ensures ncp.log == old(ncp.log) + first + second
    ensures OneSession(first) && (second == [] || OneSession(second))
    ensures left == if second == [] then old(ncp.db) else old(ncp.db)[Found(|old(ncp.db)|, old(ncp.misses), 0)..]
    ensures second != [] ==> (left == [] <==> Count(Front(old(ncp.misses), |old(ncp.db)| + 1)) <= 1)
    ensures old(ncp.failures) == [] && !old(ncp.sessionOpen) ==> second != []
    ensures code != Success ==> ncp.db == left
    ensures code == Success ==>
              && Listed(file).Some?
              && first == second == [NewSession(true), Commit(true)]
              && exists ch :: StageServices(left, NoCharacteristic, Listed(file).value) == Some((ncp.db, ch))
    ensures old(ncp.failures) == [] && !old(ncp.sessionOpen) && Listed(file).Some? ==>
              (code == Success <==> StageServices(left, NoCharacteristic, Listed(file).value).Some?)
  {
    code, first := DeleteAll(ncp);
    second := [];
    if code != Success {
      left := ncp.db;
      return UnknownError, left, first, [];
    }
    left := ncp.db;
    code, second := Install(ncp, file);
  }

  /** Success means that the committed database is the described tree if and only if all characteristics and descriptors
      have UUIDs of 2 or 16 bytes and at most one of the first searches, one more than there were services, went wrong;
      with such UUIDs it is that tree behind the services that the searches missed.  Failure leaves the original
      database or those services.  Without failing commands such a description is installed if and only if its service
      UUIDs and its values fit their commands. */
  method SetDescribedGattDb(ncp: Ncp, file: ConfigFile) returns (code: Code)
    requires Enumerable(ncp.db) && Walkable(file)
    modifies ncp`failures, ncp`misses, ncp`db, ncp`staged, ncp`sessionOpen, ncp`log
    ensures code == Success ==>
              && Listed(file).Some? && CompleteServices(Listed(file).value)
              && (IsTree(ncp.db, Listed(file).value) <==>
                    && KnownServices(Listed(file).value)
                    && Count(Front(old(ncp.misses), |old(ncp.db)| + 1)) <= 1)
              && (KnownServices(Listed(file).value) ==>
                    Grown(old(ncp.db)[Found(|old(ncp.db)|, old(ncp.misses), 0)..], ncp.db, Listed(file).value))
    ensures code != Success ==>
              ncp.db == old(ncp.db) || ncp.db == old(ncp.db)[Found(|old(ncp.db)|, old(ncp.misses), 0)..]
    ensures code != Success && Count(Front(old(ncp.misses), |old(ncp.db)| + 1)) <= 1 ==>
              ncp.db == old(ncp.db) || ncp.db == []
    ensures old(ncp.failures) == [] && !old(ncp.sessionOpen) && Listed(file).Some?
            && CompleteServices(Listed(file).value) && KnownServices(Listed(file).value) ==>
              (code == Success <==> ServicesFit(Listed(file).value))
  {
    ghost var left, first, second;
    code, left, first, second := SetGattDb(ncp, file);
    if second != [] && Listed(file).Some? {
      OnTopOf(left, Listed(file).value);
    }
  }

  /** What staging on top of a database comes to. */
  lemma {:induction false} OnTopOf(left: seq<Service>, ss: seq<ServiceJson>)
    requires Increasing(left) && WrittenServices(ss)
    ensures var so := StageServices(left, NoCharacteristic, ss);
            && (so.Some? ==>
                  && CompleteServices(ss) && (IsTree(so.value.0, ss) <==> KnownServices(ss) && left == [])
                  && (KnownServices(ss) ==> Grown(left, so.value.0, ss)))
            && (CompleteServices(ss) && KnownServices(ss) ==> (so.Some? <==> ServicesFit(ss)))
  {
    if StageServices(left, NoCharacteristic, ss).Some? {
      StagedAloneIff(left, NoCharacteristic, ss);
      StagedIsTheTreeIff(left, NoCharacteristic, ss);
    }
    if CompleteServices(ss) && KnownServices(ss) {
      StagedIsTheTree(left, NoCharacteristic, ss);
    }
  }

  /** The example is installed without an error, and the database is not the described tree. */
  method SetExampleGattDb(ncp: Ncp) returns (code: Code)
    requires Enumerable(ncp.db) && !ncp.sessionOpen && ncp.failures == [] && ncp.misses == []
    modifies ncp`failures, ncp`misses, ncp`db, ncp`staged, ncp`sessionOpen, ncp`log
    ensures code == Success && CompleteServices([ExampleService()]) && !IsTree(ncp.db, [ExampleService()])
  {
    OddUuidIsPassedOver();
    assert Front([], |ncp.db| + 1) == [];
    ghost var left, first, second;
    code, left, first, second := SetGattDb(ncp, Root(Some([ExampleService()])));
    assert left == [];
  }
}
