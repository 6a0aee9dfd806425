/** The described tree, and the proof of when what the code stages is that tree. */
module GattTree {
  import opened Bgapi
  import opened GattConfig
  import opened CoProcessor
  import opened HexCodec
  import opened Common

  // The described tree, as a plain map over the description.

  predicate CompleteDescriptor(d: DescriptorJson) {
    WrittenDescriptor(d) && FullDescriptor(d)
  }

  predicate CompleteDescriptors(ds: seq<DescriptorJson>) {
    forall i :: 0 <= i < |ds| ==> CompleteDescriptor(ds[i])
  }

  predicate CompleteCharacteristic(c: CharacteristicJson) {
    WrittenCharacteristic(c) && FullCharacteristic(c) && c.descriptors.Some? && CompleteDescriptors(c.descriptors.value)
  }

  predicate CompleteCharacteristics(cs: seq<CharacteristicJson>) {
    forall i :: 0 <= i < |cs| ==> CompleteCharacteristic(cs[i])
  }

  predicate CompleteService(s: ServiceJson) {
    WrittenService(s) && FullService(s) && s.characteristics.Some? && CompleteCharacteristics(s.characteristics.value)
  }

  /** No field is missing and every text covers its length. */
  predicate CompleteServices(ss: seq<ServiceJson>) {
    forall i :: 0 <= i < |ss| ==> CompleteService(ss[i])
  }

  predicate KnownDescriptors(ds: seq<DescriptorJson>) {
    forall i :: 0 <= i < |ds| ==> KnownUuid(ds[i].uuidLen)
  }

  predicate KnownCharacteristic(c: CharacteristicJson)
    requires c.descriptors.Some?
  {
    KnownUuid(c.uuidLen) && KnownDescriptors(c.descriptors.value)
  }

  predicate KnownCharacteristics(cs: seq<CharacteristicJson>)
    requires CompleteCharacteristics(cs)
  {
    forall i :: 0 <= i < |cs| ==> CompleteCharacteristic(cs[i]) && KnownCharacteristic(cs[i])
  }

  predicate KnownService(s: ServiceJson)
    requires CompleteService(s)
  {
    KnownCharacteristics(s.characteristics.value)
  }

  /** Every characteristic and every descriptor has a UUID of 2 or 16 bytes. */
  predicate KnownServices(ss: seq<ServiceJson>)
    requires CompleteServices(ss)
  {
    forall i :: 0 <= i < |ss| ==> CompleteService(ss[i]) && KnownService(ss[i])
  }

  // What the size checks of the commands let through.

  predicate DescriptorFits(d: DescriptorJson)
    requires CompleteDescriptor(d)
  {
    !TooLong(if d.uuidLen.value == 2 then 15 else 29, Bytes(d.value, d.valueLen))
  }

  predicate DescriptorsFit(ds: seq<DescriptorJson>)
    requires CompleteDescriptors(ds)
  {
    forall i :: 0 <= i < |ds| ==> CompleteDescriptor(ds[i]) && DescriptorFits(ds[i])
  }

  predicate HeadFits(c: CharacteristicJson)
    requires CompleteCharacteristic(c)
  {
    !TooLong(if c.uuidLen.value == 2 then 16 else 30, Bytes(c.value, c.valueLen))
  }

  predicate CharacteristicFits(c: CharacteristicJson)
    requires CompleteCharacteristic(c)
  {
    HeadFits(c) && DescriptorsFit(c.descriptors.value)
  }

  predicate CharacteristicsFit(cs: seq<CharacteristicJson>)
    requires CompleteCharacteristics(cs)
  {
    forall i :: 0 <= i < |cs| ==> CompleteCharacteristic(cs[i]) && CharacteristicFits(cs[i])
  }

  predicate ServiceFits(s: ServiceJson)
    requires CompleteService(s)
  {
    !TooLong(5, Bytes(s.uuid, s.uuidLen)) && CharacteristicsFit(s.characteristics.value)
  }

  /** Every service UUID and every value is short enough for its command. */
  predicate ServicesFit(ss: seq<ServiceJson>)
    requires CompleteServices(ss)
  {
    forall i :: 0 <= i < |ss| ==> CompleteService(ss[i]) && ServiceFits(ss[i])
  }

  function TreeOfDescriptors(ds: seq<DescriptorJson>): (tree: seq<Descriptor>)
    requires CompleteDescriptors(ds)
    ensures |tree| == |ds| && forall i :: 0 <= i < |ds| ==> CompleteDescriptor(ds[i]) && tree[i] == DescriptorOf(ds[i])
  {
    if ds == [] then [] else TreeOfDescriptors(ds[..|ds| - 1]) + [DescriptorOf(ds[|ds| - 1])]
  }

  function TreeOfCharacteristic(c: CharacteristicJson): Characteristic
    requires CompleteCharacteristic(c)
  {
    CharacteristicOfJson(c).(descriptors := TreeOfDescriptors(c.descriptors.value))
  }

  function TreeOfCharacteristics(cs: seq<CharacteristicJson>): (tree: seq<Characteristic>)
    requires CompleteCharacteristics(cs)
    ensures |tree| == |cs|
    ensures forall i :: 0 <= i < |cs| ==> CompleteCharacteristic(cs[i]) && tree[i] == TreeOfCharacteristic(cs[i])
  {
    if cs == [] then [] else TreeOfCharacteristics(cs[..|cs| - 1]) + [TreeOfCharacteristic(cs[|cs| - 1])]
  }

  // When a service of the database is the described one, field by field.

  /** As many bytes as the description says, and printed they are the front of its text in lower case. */
  ghost predicate Spells(text: Option<string>, len: Option<nat>, bytes: seq<Byte>) {
    && text.Some? && len.Some?
    && |bytes| == len.value && 2 * len.value <= |text.value|
    && ToHex(bytes) == LowerAll(text.value[..2 * len.value])
  }

  ghost predicate DescriptorMatches(got: Descriptor, d: DescriptorJson)
    requires CompleteDescriptor(d)
  {
    && got.property == d.property.value % 0x10000
    && Spells(d.uuid, d.uuidLen, got.uuid)
    && got.valueType == d.valueType.value % 0x100
    && got.maxLen == d.maxLen.value % 0x10000
    && Spells(d.value, d.valueLen, got.value)
  }

  ghost predicate DescriptorsMatch(got: seq<Descriptor>, ds: seq<DescriptorJson>)
    requires CompleteDescriptors(ds)
  {
    |got| == |ds| && forall k :: 0 <= k < |ds| ==> CompleteDescriptor(ds[k]) && DescriptorMatches(got[k], ds[k])
  }

  ghost predicate CharacteristicMatches(got: Characteristic, c: CharacteristicJson)
    requires CompleteCharacteristic(c)
  {
    && got.property == c.property.value % 0x10000
    && got.flag == c.flag.value % 0x100
    && Spells(c.uuid, c.uuidLen, got.uuid)
    && got.valueType == c.valueType.value % 0x100
    && got.maxLen == c.maxLen.value % 0x10000
    && Spells(c.value, c.valueLen, got.value)
    && DescriptorsMatch(got.descriptors, c.descriptors.value)
  }

  ghost predicate CharacteristicsMatch(got: seq<Characteristic>, cs: seq<CharacteristicJson>)
    requires CompleteCharacteristics(cs)
  {
    |got| == |cs|
    && forall j :: 0 <= j < |cs| ==> CompleteCharacteristic(cs[j]) && CharacteristicMatches(got[j], cs[j])
  }

  /** A service of the database is the described one; only its handle is the NCP's choice. */
  ghost predicate Matches(service: Service, s: ServiceJson)
    requires CompleteService(s)
  {
    && service.property == s.property.value % 0x100
    && Spells(s.uuid, s.uuidLen, service.uuid)
    && service.started
    && CharacteristicsMatch(service.characteristics, s.characteristics.value)
  }

  /** The bytes are determined by the text. */
  lemma {:induction false} SpellsIff(text: Option<string>, len: Option<nat>, bytes: seq<Byte>)
    requires text.Some? && len.Some? && Covers(text, len)
    ensures Spells(text, len, bytes) <==> bytes == Bytes(text, len)
  {
    TextRoundTrip(text.value[..2 * len.value]);
    if Spells(text, len, bytes) {
      HexIsInjective(bytes, Bytes(text, len));
    }
  }

  lemma {:induction false} DescriptorMatchesIff(got: Descriptor, d: DescriptorJson)
    requires CompleteDescriptor(d)
    ensures DescriptorMatches(got, d) <==> got == DescriptorOf(d)
  {
    SpellsIff(d.uuid, d.uuidLen, got.uuid);
    SpellsIff(d.value, d.valueLen, got.value);
  }

  lemma {:induction false} DescriptorsMatchIff(got: seq<Descriptor>, ds: seq<DescriptorJson>)
    requires CompleteDescriptors(ds)
    ensures DescriptorsMatch(got, ds) <==> got == TreeOfDescriptors(ds)
  {
    forall k | 0 <= k < |got| && k < |ds| ensures DescriptorMatches(got[k], ds[k]) <==> got[k] == DescriptorOf(ds[k]) {
      DescriptorMatchesIff(got[k], ds[k]);
    }
    SameDescriptors(got, TreeOfDescriptors(ds), ds);
  }

  lemma {:induction false} SameDescriptors(got: seq<Descriptor>, tree: seq<Descriptor>, ds: seq<DescriptorJson>)
    requires CompleteDescriptors(ds) && |tree| == |ds|
    requires forall k :: 0 <= k < |ds| ==> tree[k] == DescriptorOf(ds[k])
    requires forall k :: 0 <= k < |got| && k < |ds| ==>
               (DescriptorMatches(got[k], ds[k]) <==> got[k] == DescriptorOf(ds[k]))
    ensures DescriptorsMatch(got, ds) <==> got == tree
  {
  }

  lemma {:induction false} CharacteristicMatchesIff(got: Characteristic, c: CharacteristicJson)
    requires CompleteCharacteristic(c)
    ensures CharacteristicMatches(got, c) <==> got == TreeOfCharacteristic(c)
  {
    SpellsIff(c.uuid, c.uuidLen, got.uuid);
    SpellsIff(c.value, c.valueLen, got.value);
    DescriptorsMatchIff(got.descriptors, c.descriptors.value);
  }

  /** The field-by-field reading determines the characteristics of a service. */
  lemma {:induction false} CharacteristicsMatchIff(got: seq<Characteristic>, cs: seq<CharacteristicJson>)
    requires CompleteCharacteristics(cs)
    ensures CharacteristicsMatch(got, cs) <==> got == TreeOfCharacteristics(cs)
  {
    forall j | 0 <= j < |got| && j < |cs|
      ensures CharacteristicMatches(got[j], cs[j]) <==> got[j] == TreeOfCharacteristic(cs[j])
    {
      CharacteristicMatchesIff(got[j], cs[j]);
    }
  }

  ghost predicate IsTree(services: seq<Service>, ss: seq<ServiceJson>)
    requires CompleteServices(ss)
  {
    |services| == |ss| && forall i :: 0 <= i < |ss| ==> Matches(services[i], ss[i])
  }

  lemma {:induction false} LastIndex(front: seq<Service>, last: Service)
    requires Increasing(front + [last])
    ensures IndexOf(front + [last], last.handle) == |front|
  {
    var all := front + [last];
    assert all[|front|] == last;
    assert forall j :: 0 <= j < |front| ==> all[j] == front[j] && all[j].handle < all[|front|].handle;
  }

  lemma {:induction false} ReplaceLast(front: seq<Service>, last: Service, last': Service)
    requires Increasing(front + [last]) && last'.handle == last.handle
    ensures Increasing(front + [last'])
    ensures (front + [last])[|front| := last'] == front + [last']
  {
    var all, all' := front + [last], front + [last'];
    assert forall i :: 0 <= i < |all'| ==> all'[i].handle == all[i].handle;
  }

  /** A service whose last characteristic has gained descriptors. */
  function Described(service: Service, ds: seq<Descriptor>): Service
    requires service.characteristics != []
  {
    var n := |service.characteristics| - 1;
    var c := service.characteristics[n];
    service.(characteristics := service.characteristics[n := c.(descriptors := c.descriptors + ds)])
  }

  lemma {:induction false} DescribedTwice(service: Service, ds: seq<Descriptor>, more: seq<Descriptor>)
    requires service.characteristics != []
    ensures Described(Described(service, ds), more) == Described(service, ds + more)
  {
    var n := |service.characteristics| - 1;
    var c := service.characteristics[n];
    assert c.descriptors + ds + more == c.descriptors + (ds + more);
  }

  lemma {:induction false} DescriptorGoesToLast(front: seq<Service>, last: Service, d: DescriptorJson)
    requires Increasing(front + [last]) && last.characteristics != []
    requires CompleteDescriptor(d) && KnownUuid(d.uuidLen)
    ensures var st := StageDescriptor(front + [last], CharacteristicOf(last.handle, |last.characteristics| - 1), d);
            && (st.Some? <==> DescriptorFits(d))
            && (st.Some? ==> st.value == front + [Described(last, [DescriptorOf(d)])])
  {
    LastIndex(front, last);
    assert (front + [last])[|front|] == last;
    ReplaceLast(front, last, Described(last, [DescriptorOf(d)]));
  }

  /** Descriptors staged on the last characteristic of the last service go there, in order. */
  lemma {:induction false} DescriptorsGoToLast(front: seq<Service>, last: Service, ds: seq<DescriptorJson>)
    requires Increasing(front + [last]) && last.characteristics != []
    requires CompleteDescriptors(ds) && KnownDescriptors(ds)
    ensures var st := StageDescriptors(front + [last], CharacteristicOf(last.handle, |last.characteristics| - 1), ds);
            && (st.Some? <==> DescriptorsFit(ds))
            && (st.Some? ==> st.value == front + [Described(last, TreeOfDescriptors(ds))])
    decreases |ds|
  {
    if ds == [] {
      var c := last.characteristics[|last.characteristics| - 1];
      assert c.descriptors + [] == c.descriptors;
      assert Described(last, []) == last;
    } else {
      var ds', d := ds[..|ds| - 1], ds[|ds| - 1];
      DescriptorsGoToLast(front, last, ds');
      var last' := Described(last, TreeOfDescriptors(ds'));
      ReplaceLast(front, last, last');
      DescriptorGoesToLast(front, last', d);
      DescribedTwice(last, TreeOfDescriptors(ds'), [DescriptorOf(d)]);
      AllButLastDescriptorFit(ds);
    }
  }

  lemma {:induction false} AllButLastDescriptorFit(ds: seq<DescriptorJson>)
    requires CompleteDescriptors(ds) && ds != []
    ensures DescriptorsFit(ds) <==> DescriptorsFit(ds[..|ds| - 1]) && DescriptorFits(ds[|ds| - 1])
  {
    if DescriptorsFit(ds[..|ds| - 1]) && DescriptorFits(ds[|ds| - 1]) {
      forall i | 0 <= i < |ds| ensures DescriptorFits(ds[i]) {
        assert i < |ds| - 1 ==> ds[i] == ds[..|ds| - 1][i];
      }
    }
    if DescriptorsFit(ds) {
      assert DescriptorFits(ds[|ds| - 1]);
    }
  }

  /** The characteristic without its descriptors, and the handle they will be staged on. */
  lemma {:induction false} HeadGoesToLast(
    front: seq<Service>, last: Service, ch: CharHandle, c: CharacteristicJson)
    requires Increasing(front + [last])
    requires CompleteCharacteristic(c) && KnownCharacteristic(c)
    ensures var head := StageHead(front + [last], last.handle, ch, c);
            && (head.Some? <==> HeadFits(c))
            && (head.Some? ==>
                  var last' := last.(characteristics := last.characteristics + [CharacteristicOfJson(c)]);
                  && Increasing(front + [last'])
                  && head.value == (front + [last'], CharacteristicOf(last.handle, |last.characteristics|)))
  {
    LastIndex(front, last);
    assert (front + [last])[|front|] == last;
    var last' := last.(characteristics := last.characteristics + [CharacteristicOfJson(c)]);
    ReplaceLast(front, last, last');
    LastIndex(front, last');
    assert (front + [last'])[|front|] == last';
  }

  lemma {:induction false} DescribedBare(last: Service, bare: Characteristic, ds: seq<Descriptor>)
    requires bare.descriptors == []
    ensures Described(last.(characteristics := last.characteristics + [bare]), ds)
         == last.(characteristics := last.characteristics + [bare.(descriptors := ds)])
  {
    assert [] + ds == ds;
  }

  lemma {:induction false} CharacteristicGoesToLast(
    front: seq<Service>, last: Service, ch: CharHandle, c: CharacteristicJson)
    requires Increasing(front + [last])
    requires CompleteCharacteristic(c) && KnownCharacteristic(c)
    ensures var so := StageCharacteristic(front + [last], last.handle, ch, c);
            && (so.Some? <==> CharacteristicFits(c))
            && (so.Some? ==>
                  so.value.0 == front + [last.(characteristics := last.characteristics + [TreeOfCharacteristic(c)])])
  {
    HeadGoesToLast(front, last, ch, c);
    if StageHead(front + [last], last.handle, ch, c).Some? {
      var bare := CharacteristicOfJson(c);
      var with := last.(characteristics := last.characteristics + [bare]);
      assert |with.characteristics| - 1 == |last.characteristics|;
      DescriptorsGoToLast(front, with, c.descriptors.value);
      DescribedBare(last, bare, TreeOfDescriptors(c.descriptors.value));
      StagedBehindHead(front + [last], last.handle, ch, c, front + [with],
                       CharacteristicOf(last.handle, |last.characteristics|));
    }
  }

  lemma {:induction false} StagedBehindHead(
    st: seq<Service>, sh: nat, ch: CharHandle, c: CharacteristicJson, head: seq<Service>, ch': CharHandle)
    requires CompleteCharacteristic(c) && StageHead(st, sh, ch, c) == Some((head, ch'))
    ensures var so := StageDescriptors(head, ch', c.descriptors.value);
            StageCharacteristic(st, sh, ch, c) == if so.None? then None else Some((so.value, ch'))
  {
  }

  lemma {:induction false} CharacteristicsGoToLast(
    front: seq<Service>, last: Service, ch: CharHandle, cs: seq<CharacteristicJson>)
    requires Increasing(front + [last])
    requires CompleteCharacteristics(cs) && KnownCharacteristics(cs)
    ensures var so := StageCharacteristics(front + [last], last.handle, ch, cs);
            && (so.Some? <==> CharacteristicsFit(cs))
            && (so.Some? ==>
                  so.value.0 == front + [last.(characteristics := last.characteristics + TreeOfCharacteristics(cs))])
    decreases |cs|
  {
    if cs == [] {
      assert last.characteristics + TreeOfCharacteristics(cs) == last.characteristics;
    } else {
      var cs', c := cs[..|cs| - 1], cs[|cs| - 1];
      CharacteristicsGoToLast(front, last, ch, cs');
      AllButLastFit(cs);
      var so' := StageCharacteristics(front + [last], last.handle, ch, cs');
      if so'.Some? {
        var last' := last.(characteristics := last.characteristics + TreeOfCharacteristics(cs'));
        ReplaceLast(front, last, last');
        CharacteristicGoesToLast(front, last', so'.value.1, c);
        OneMoreInTree(last.characteristics, cs);
      }
    }
  }

  lemma {:induction false} OneMoreInTree(before: seq<Characteristic>, cs: seq<CharacteristicJson>)
    requires CompleteCharacteristics(cs) && cs != []
    ensures before + TreeOfCharacteristics(cs[..|cs| - 1]) + [TreeOfCharacteristic(cs[|cs| - 1])]
         == before + TreeOfCharacteristics(cs)
  {
  }

  lemma {:induction false} AllButLastFit(cs: seq<CharacteristicJson>)
    requires CompleteCharacteristics(cs) && cs != []
    ensures CharacteristicsFit(cs) <==> CharacteristicsFit(cs[..|cs| - 1]) && CharacteristicFits(cs[|cs| - 1])
  {
    if CharacteristicsFit(cs[..|cs| - 1]) && CharacteristicFits(cs[|cs| - 1]) {
      forall i | 0 <= i < |cs| ensures CharacteristicFits(cs[i]) {
        assert i < |cs| - 1 ==> cs[i] == cs[..|cs| - 1][i];
      }
    }
    if CharacteristicsFit(cs) {
      assert CharacteristicFits(cs[|cs| - 1]);
    }
  }

  lemma {:induction false} FreshIsLast(st: seq<Service>, property: Byte, uuid: seq<Byte>)
    requires Increasing(st)
    ensures Increasing(WithService(st, property, uuid))
  {
  }

  /** The service that was added last is the described one, and the others are as they were. */
  ghost predicate OneMore(before: seq<Service>, after: seq<Service>, s: ServiceJson)
    requires CompleteService(s)
  {
    Increasing(after) && |after| == |before| + 1 && after[..|before|] == before && Matches(after[|before|], s)
  }

  lemma {:induction false} StartedLast(st: seq<Service>, last: Service)
    requires Increasing(st + [last.(started := false)])
    ensures WithStarted(st + [last.(started := false)], last.handle) == Some(st + [last.(started := true)])
    ensures Increasing(st + [last.(started := true)])
  {
    var last' := last.(started := false);
    LastIndex(st, last');
    assert (st + [last'])[|st|] == last';
    ReplaceLast(st, last', last.(started := true));
  }

  lemma {:induction false} FreshService(st: seq<Service>, ch: CharHandle, cs: seq<CharacteristicJson>, bare: Service)
    requires Increasing(st + [bare]) && bare.characteristics == []
    requires CompleteCharacteristics(cs) && KnownCharacteristics(cs)
    ensures var so := StageCharacteristics(st + [bare], bare.handle, ch, cs);
            && (so.Some? <==> CharacteristicsFit(cs))
            && (so.Some? ==> so.value.0 == st + [bare.(characteristics := TreeOfCharacteristics(cs))])
    ensures Increasing(st + [bare.(characteristics := TreeOfCharacteristics(cs))])
  {
    CharacteristicsGoToLast(st, bare, ch, cs);
    var tree := TreeOfCharacteristics(cs);
    assert bare.characteristics + tree == tree;
    ReplaceLast(st, bare, bare.(characteristics := tree));
  }

  /** What a complete service stages: the service with the tree of its characteristics, started, if it fits. */
  lemma {:induction false} ServiceStaged(st: seq<Service>, ch: CharHandle, s: ServiceJson, last: Service)
    requires Increasing(st) && CompleteService(s) && KnownService(s)
    requires last == Service(FreshHandle(st), U8(s.property.value), Bytes(s.uuid, s.uuidLen), true,
                             TreeOfCharacteristics(s.characteristics.value))
    ensures StageService(st, ch, s).Some? <==> ServiceFits(s)
    ensures StageService(st, ch, s).Some? ==> StageService(st, ch, s).value.0 == st + [last] && Increasing(st + [last])
  {
    FreshIsLast(st, last.property, last.uuid);
    FreshService(st, ch, s.characteristics.value, last.(started := false, characteristics := []));
    StartedLast(st, last);
  }

  lemma {:induction false} ServiceGoesLast(st: seq<Service>, ch: CharHandle, s: ServiceJson)
    requires Increasing(st) && CompleteService(s) && KnownService(s)
    ensures StageService(st, ch, s).Some? <==> ServiceFits(s)
    ensures StageService(st, ch, s).Some? ==> OneMore(st, StageService(st, ch, s).value.0, s)
  {
    var last := Service(FreshHandle(st), U8(s.property.value), Bytes(s.uuid, s.uuidLen), true,
                        TreeOfCharacteristics(s.characteristics.value));
    ServiceStaged(st, ch, s, last);
    SpellsIff(s.uuid, s.uuidLen, last.uuid);
    CharacteristicsMatchIff(last.characteristics, s.characteristics.value);
    if StageService(st, ch, s).Some? {
      assert (st + [last])[..|st|] == st;
    }
  }

  /** The old services are as they were, and those after them are the described tree. */
  ghost predicate Grown(st: seq<Service>, after: seq<Service>, ss: seq<ServiceJson>)
    requires CompleteServices(ss)
  {
    Increasing(after) && |st| <= |after| && after[..|st|] == st && IsTree(after[|st|..], ss)
  }

  /** For a description in which every characteristic and descriptor has a UUID of 2 or 16 bytes, what is staged on
      top of a database is exactly the described tree, services, characteristics and descriptors in order. */
  lemma {:induction false} StagedIsTheTree(st: seq<Service>, ch: CharHandle, ss: seq<ServiceJson>)
    requires Increasing(st) && CompleteServices(ss) && KnownServices(ss)
    ensures StageServices(st, ch, ss).Some? <==> ServicesFit(ss)
    ensures StageServices(st, ch, ss).Some? ==> Grown(st, StageServices(st, ch, ss).value.0, ss)
    decreases |ss|
  {
    if ss == [] {
      assert st[|st|..] == [];
    } else {
      var front, s := ss[..|ss| - 1], ss[|ss| - 1];
      assert ss == front + [s];
      StagedIsTheTree(st, ch, front);
      AllButLastServiceFit(ss);
      var so := StageServices(st, ch, front);
      if so.Some? {
        GrowsByOne(st, so.value.0, so.value.1, front, s);
      }
    }
  }

  lemma {:induction false} AllButLastServiceFit(ss: seq<ServiceJson>)
    requires CompleteServices(ss) && ss != []
    ensures ServicesFit(ss) <==> ServicesFit(ss[..|ss| - 1]) && ServiceFits(ss[|ss| - 1])
  {
    if ServicesFit(ss[..|ss| - 1]) && ServiceFits(ss[|ss| - 1]) {
      forall i | 0 <= i < |ss| ensures ServiceFits(ss[i]) {
        assert i < |ss| - 1 ==> ss[i] == ss[..|ss| - 1][i];
      }
    }
    if ServicesFit(ss) {
      assert ServiceFits(ss[|ss| - 1]);
    }
  }

  lemma {:induction false} GrowsByOne(
    st: seq<Service>, before: seq<Service>, ch: CharHandle, front: seq<ServiceJson>, s: ServiceJson)
    requires CompleteServices(front) && CompleteService(s) && KnownService(s) && Grown(st, before, front)
    ensures CompleteServices(front + [s])
    ensures StageService(before, ch, s).Some? <==> ServiceFits(s)
    ensures StageService(before, ch, s).Some? ==> Grown(st, StageService(before, ch, s).value.0, front + [s])
  {
    ServiceGoesLast(before, ch, s);
    if StageService(before, ch, s).Some? {
      OneMoreService(st, before, StageService(before, ch, s).value.0, front, s);
    }
  }

  lemma {:induction false} OneMoreService(
    st: seq<Service>, before: seq<Service>, after: seq<Service>, front: seq<ServiceJson>, s: ServiceJson)
    requires CompleteServices(front) && CompleteService(s)
    requires Grown(st, before, front) && OneMore(before, after, s)
    ensures CompleteServices(front + [s]) && Grown(st, after, front + [s])
  {
    assert after[..|st|] == after[..|before|][..|st|];
    var tree, ss := after[|st|..], front + [s];
    forall i | 0 <= i < |ss| ensures Matches(tree[i], ss[i]) {
      if i < |front| {
        assert ss[i] == front[i];
        assert tree[i] == after[..|before|][|st| + i] == before[|st|..][i];
      }
    }
  }
}
