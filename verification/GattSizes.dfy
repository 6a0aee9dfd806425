/** How many characteristics and descriptors the code stages: one for each whose UUID has 2 or 16 bytes.  So the staged
    database is the described tree exactly when every UUID has one of these lengths. */
module GattSizes {
  import opened Bgapi
  import opened GattConfig
  import opened CoProcessor
  import opened GattTree
  import opened HexCodec
  import opened Common

  datatype Size = Size(characteristics: nat, descriptors: nat) {
    function Plus(other: Size): Size {
      Size(characteristics + other.characteristics, descriptors + other.descriptors)
    }
  }

  function Sum(sizes: seq<Size>): Size {
    if sizes == [] then Size(0, 0) else Sum(sizes[..|sizes| - 1]).Plus(sizes[|sizes| - 1])
  }

  function EachCharacteristic(cs: seq<Characteristic>): (sizes: seq<Size>)
    ensures |sizes| == |cs|
  {
    seq(|cs|, i requires 0 <= i < |cs| => Size(1, |cs[i].descriptors|))
  }

  function SizeOfCharacteristics(cs: seq<Characteristic>): Size {
    Sum(EachCharacteristic(cs))
  }

  function EachService(services: seq<Service>): (sizes: seq<Size>)
    ensures |sizes| == |services|
  {
    seq(|services|, i requires 0 <= i < |services| => SizeOfCharacteristics(services[i].characteristics))
  }

  /** How many characteristics and descriptors a database holds. */
  function SizeOf(services: seq<Service>): Size {
    Sum(EachService(services))
  }

  function KnownInDescriptors(ds: seq<DescriptorJson>): nat {
    if ds == [] then 0
    else KnownInDescriptors(ds[..|ds| - 1]) + if KnownUuid(ds[|ds| - 1].uuidLen) then 1 else 0
  }

  function DescriptorsOf(c: CharacteristicJson): seq<DescriptorJson> {
    if c.descriptors.None? then [] else c.descriptors.value
  }

  function CharacteristicsOf(s: ServiceJson): seq<CharacteristicJson> {
    if s.characteristics.None? then [] else s.characteristics.value
  }

  function KnownInCharacteristic(c: CharacteristicJson): Size {
    Size(if KnownUuid(c.uuidLen) then 1 else 0, KnownInDescriptors(DescriptorsOf(c)))
  }

  /** How many characteristics and descriptors of a list have a UUID that the code has a command for. */
  function KnownInCharacteristics(cs: seq<CharacteristicJson>): Size {
    if cs == [] then Size(0, 0)
    else KnownInCharacteristics(cs[..|cs| - 1]).Plus(KnownInCharacteristic(cs[|cs| - 1]))
  }

  function KnownIn(ss: seq<ServiceJson>): Size {
    if ss == [] then Size(0, 0)
    else KnownIn(ss[..|ss| - 1]).Plus(KnownInCharacteristics(CharacteristicsOf(ss[|ss| - 1])))
  }

  // What one staged change adds.

  lemma {:induction false} PlusNothing(size: Size)
    ensures size.Plus(Size(0, 0)) == size
  {
  }

  lemma {:induction false} SumSnoc(sizes: seq<Size>, size: Size)
    ensures Sum(sizes + [size]) == Sum(sizes).Plus(size)
  {
    assert (sizes + [size])[..|sizes|] == sizes;
  }

  lemma {:induction false} SumOfBoth(a: seq<Size>, b: seq<Size>)
    ensures Sum(a + b) == Sum(a).Plus(Sum(b))
    decreases |b|
  {
    if b == [] {
      assert a + b == a;
      PlusNothing(Sum(a));
    } else {
      SumOfBoth(a, b[..|b| - 1]);
      SumSnoc(a + b[..|b| - 1], b[|b| - 1]);
      assert a + b == a + b[..|b| - 1] + [b[|b| - 1]];
    }
  }

  lemma {:induction false} SumOfChanged(sizes: seq<Size>, i: nat, extra: Size)
    requires i < |sizes|
    ensures Sum(sizes[i := sizes[i].Plus(extra)]) == Sum(sizes).Plus(extra)
  {
    var a, x, b := sizes[..i], sizes[i], sizes[i + 1..];
    SumOfBoth(a + [x], b);
    SumOfBoth(a + [x.Plus(extra)], b);
    SumSnoc(a, x);
    SumSnoc(a, x.Plus(extra));
    assert sizes == a + [x] + b;
    assert sizes[i := x.Plus(extra)] == a + [x.Plus(extra)] + b;
  }

  lemma {:induction false} SnocCharacteristic(cs: seq<Characteristic>, c: Characteristic)
    ensures SizeOfCharacteristics(cs + [c]) == SizeOfCharacteristics(cs).Plus(Size(1, |c.descriptors|))
  {
    SumSnoc(EachCharacteristic(cs), Size(1, |c.descriptors|));
    assert EachCharacteristic(cs + [c]) == EachCharacteristic(cs) + [Size(1, |c.descriptors|)];
  }

  lemma {:induction false} SnocService(services: seq<Service>, s: Service)
    ensures SizeOf(services + [s]) == SizeOf(services).Plus(SizeOfCharacteristics(s.characteristics))
  {
    EachOfSnoc(services, s);
    SumSnoc(EachService(services), SizeOfCharacteristics(s.characteristics));
  }

  lemma {:induction false} EachOfSnoc(services: seq<Service>, s: Service)
    ensures EachService(services + [s]) == EachService(services) + [SizeOfCharacteristics(s.characteristics)]
  {
    forall i | 0 <= i < |services| ensures EachService(services + [s])[i] == EachService(services)[i] {
      assert (services + [s])[i] == services[i];
    }
  }

  lemma {:induction false} SizeOfBoth(a: seq<Service>, b: seq<Service>)
    ensures SizeOf(a + b) == SizeOf(a).Plus(SizeOf(b))
  {
    EachOfBoth(a, b);
    SumOfBoth(EachService(a), EachService(b));
  }

  lemma {:induction false} EachOfBoth(a: seq<Service>, b: seq<Service>)
    ensures EachService(a + b) == EachService(a) + EachService(b)
  {
    forall i | 0 <= i < |a + b| ensures EachService(a + b)[i] == (EachService(a) + EachService(b))[i] {
      assert (a + b)[i] == if i < |a| then a[i] else b[i - |a|];
    }
  }

  lemma {:induction false} ChangedCharacteristic(cs: seq<Characteristic>, i: nat, c: Characteristic)
    requires i < |cs| && |c.descriptors| == |cs[i].descriptors| + 1
    ensures SizeOfCharacteristics(cs[i := c]) == SizeOfCharacteristics(cs).Plus(Size(0, 1))
  {
    var sizes := EachCharacteristic(cs);
    SumOfChanged(sizes, i, Size(0, 1));
    assert EachCharacteristic(cs[i := c]) == sizes[i := sizes[i].Plus(Size(0, 1))];
  }

  lemma {:induction false} ChangedService(services: seq<Service>, i: nat, s: Service, extra: Size)
    requires i < |services|
    requires SizeOfCharacteristics(s.characteristics) == SizeOfCharacteristics(services[i].characteristics).Plus(extra)
    ensures SizeOf(services[i := s]) == SizeOf(services).Plus(extra)
  {
    var sizes := EachService(services);
    SumOfChanged(sizes, i, extra);
    var each, changed := EachService(services[i := s]), sizes[i := sizes[i].Plus(extra)];
    forall k | 0 <= k < |each| ensures each[k] == changed[k] {
      assert services[i := s][k] == if k == i then s else services[k];
    }
    assert each == changed;
  }

  lemma {:induction false} DescriptorAddsOne(st: seq<Service>, ch: CharHandle, d: Descriptor)
    requires WithDescriptor(st, ch, d).Some?
    ensures SizeOf(WithDescriptor(st, ch, d).value) == SizeOf(st).Plus(Size(0, 1))
  {
    var i := IndexOf(st, ch.service);
    var cs := st[i].characteristics;
    var c := cs[ch.index];
    var c' := c.(descriptors := c.descriptors + [d]);
    ChangedCharacteristic(cs, ch.index, c');
    ChangedService(st, i, st[i].(characteristics := cs[ch.index := c']), Size(0, 1));
  }

  lemma {:induction false} CharacteristicAddsOne(st: seq<Service>, sh: nat, c: Characteristic)
    requires WithCharacteristic(st, sh, c).Some? && c.descriptors == []
    ensures SizeOf(WithCharacteristic(st, sh, c).value) == SizeOf(st).Plus(Size(1, 0))
  {
    var i := IndexOf(st, sh);
    SnocCharacteristic(st[i].characteristics, c);
    ChangedService(st, i, st[i].(characteristics := st[i].characteristics + [c]), Size(1, 0));
  }

  lemma {:induction false} StartingAddsNothing(st: seq<Service>, sh: nat)
    requires WithStarted(st, sh).Some?
    ensures SizeOf(WithStarted(st, sh).value) == SizeOf(st)
  {
    var i := IndexOf(st, sh);
    ChangedService(st, i, st[i].(started := true), Size(0, 0));
  }

  // What is staged for the lists of a description.  The sizes are parameters, so that each step is arithmetic.

  lemma {:induction false} PlusTwice(size: Size, a: Size, b: Size)
    ensures size.Plus(a).Plus(b) == size.Plus(a.Plus(b))
  {
  }

  lemma {:induction false} DescriptorAddsKnown(
    before: seq<Service>, ch: CharHandle, d: DescriptorJson, after: seq<Service>)
    requires WrittenDescriptor(d) && StageDescriptor(before, ch, d) == Some(after)
    ensures SizeOf(after) == SizeOf(before).Plus(Size(0, if KnownUuid(d.uuidLen) then 1 else 0))
  {
    if KnownUuid(d.uuidLen) {
      DescriptorAddsOne(before, ch, DescriptorOf(d));
    } else {
      PlusNothing(SizeOf(before));
    }
  }

  lemma {:induction false} DescriptorsAddKnown(
    st: seq<Service>, ch: CharHandle, ds: seq<DescriptorJson>, after: seq<Service>, size: Size)
    requires WrittenDescriptors(ds) && SizeOf(st) == size && StageDescriptors(st, ch, ds) == Some(after)
    ensures SizeOf(after) == size.Plus(Size(0, KnownInDescriptors(ds)))
    decreases |ds|
  {
    if ds == [] {
      assert after == st;
      PlusNothing(size);
    } else {
      var front, d := ds[..|ds| - 1], ds[|ds| - 1];
      var before := StageDescriptors(st, ch, front).value;
      DescriptorsAddKnown(st, ch, front, before, size);
      DescriptorAddsKnown(before, ch, d, after);
      PlusTwice(size, Size(0, KnownInDescriptors(front)), Size(0, if KnownUuid(d.uuidLen) then 1 else 0));
    }
  }

  lemma {:induction false} CharacteristicAddsKnown(st: seq<Service>, sh: nat, ch: CharHandle, c: CharacteristicJson)
    requires WrittenCharacteristic(c) && StageCharacteristic(st, sh, ch, c).Some?
    ensures SizeOf(StageCharacteristic(st, sh, ch, c).value.0) == SizeOf(st).Plus(KnownInCharacteristic(c))
  {
    var head := StageHead(st, sh, ch, c).value;
    if KnownUuid(c.uuidLen) {
      CharacteristicAddsOne(st, sh, CharacteristicOfJson(c));
    }
    var after := StageDescriptors(head.0, head.1, c.descriptors.value).value;
    DescriptorsAddKnown(head.0, head.1, c.descriptors.value, after, SizeOf(head.0));
  }

  lemma {:induction false} CharacteristicsAddKnown(
    st: seq<Service>, sh: nat, ch: CharHandle, cs: seq<CharacteristicJson>, size: Size)
    requires WrittenCharacteristics(cs) && SizeOf(st) == size
    ensures StageCharacteristics(st, sh, ch, cs).Some? ==>
              SizeOf(StageCharacteristics(st, sh, ch, cs).value.0) == size.Plus(KnownInCharacteristics(cs))
    decreases |cs|
  {
    if cs == [] {
      PlusNothing(size);
    } else {
      CharacteristicsAddKnown(st, sh, ch, cs[..|cs| - 1], size);
      var so := StageCharacteristics(st, sh, ch, cs[..|cs| - 1]);
      if so.Some? && StageCharacteristic(so.value.0, sh, so.value.1, cs[|cs| - 1]).Some? {
        CharacteristicAddsKnown(so.value.0, sh, so.value.1, cs[|cs| - 1]);
        PlusTwice(size, KnownInCharacteristics(cs[..|cs| - 1]), KnownInCharacteristic(cs[|cs| - 1]));
        LastKnownCharacteristic(cs);
      }
    }
  }

  lemma {:induction false} ServiceAddsKnown(st: seq<Service>, ch: CharHandle, s: ServiceJson)
    requires WrittenService(s) && StageService(st, ch, s).Some?
    ensures SizeOf(StageService(st, ch, s).value.0)
         == SizeOf(st).Plus(KnownInCharacteristics(CharacteristicsOf(s)))
  {
    var sh, property, uuid := FreshHandle(st), U8(s.property.value), Bytes(s.uuid, s.uuidLen);
    var begun := WithService(st, property, uuid);
    SnocService(st, Service(sh, property, uuid, false, []));
    CharacteristicsAddKnown(begun, sh, ch, s.characteristics.value, SizeOf(begun));
    StartingAddsNothing(StageCharacteristics(begun, sh, ch, s.characteristics.value).value.0, sh);
  }

  /** Whatever is staged, exactly the characteristics and descriptors with UUIDs of 2 or 16 bytes were added. */
  lemma {:induction false} StagingAddsKnown(st: seq<Service>, ch: CharHandle, ss: seq<ServiceJson>, size: Size)
    requires WrittenServices(ss) && SizeOf(st) == size
    ensures StageServices(st, ch, ss).Some? ==>
              SizeOf(StageServices(st, ch, ss).value.0) == size.Plus(KnownIn(ss))
    decreases |ss|
  {
    if ss == [] {
      PlusNothing(size);
    } else {
      StagingAddsKnown(st, ch, ss[..|ss| - 1], size);
      var so := StageServices(st, ch, ss[..|ss| - 1]);
      if so.Some? && StageService(so.value.0, so.value.1, ss[|ss| - 1]).Some? {
        ServiceAddsKnown(so.value.0, so.value.1, ss[|ss| - 1]);
        PlusTwice(size, KnownIn(ss[..|ss| - 1]), KnownInCharacteristics(CharacteristicsOf(ss[|ss| - 1])));
        LastKnownService(ss);
      }
    }
  }

  // What is staged at all has no field missing.

  lemma {:induction false} StagedDescriptorsComplete(st: seq<Service>, ch: CharHandle, ds: seq<DescriptorJson>)
    requires WrittenDescriptors(ds)
    ensures StageDescriptors(st, ch, ds).Some? ==> CompleteDescriptors(ds)
    decreases |ds|
  {
    if ds != [] {
      StagedDescriptorsComplete(st, ch, ds[..|ds| - 1]);
      if StageDescriptors(st, ch, ds).Some? {
        forall i | 0 <= i < |ds| ensures CompleteDescriptor(ds[i]) {
          assert i < |ds| - 1 ==> ds[i] == ds[..|ds| - 1][i];
        }
      }
    }
  }

  lemma {:induction false} StagedCharacteristicComplete(
    st: seq<Service>, sh: nat, ch: CharHandle, c: CharacteristicJson)
    requires WrittenCharacteristic(c)
    ensures StageCharacteristic(st, sh, ch, c).Some? ==> CompleteCharacteristic(c)
  {
    if StageCharacteristic(st, sh, ch, c).Some? {
      var head := StageHead(st, sh, ch, c).value;
      StagedDescriptorsComplete(head.0, head.1, c.descriptors.value);
    }
  }

  lemma {:induction false} StagedCharacteristicsComplete(
    st: seq<Service>, sh: nat, ch: CharHandle, cs: seq<CharacteristicJson>)
    requires WrittenCharacteristics(cs)
    ensures StageCharacteristics(st, sh, ch, cs).Some? ==> CompleteCharacteristics(cs)
    decreases |cs|
  {
    if cs != [] {
      StagedCharacteristicsComplete(st, sh, ch, cs[..|cs| - 1]);
      var so := StageCharacteristics(st, sh, ch, cs[..|cs| - 1]);
      if so.Some? && StageCharacteristic(so.value.0, sh, so.value.1, cs[|cs| - 1]).Some? {
        StagedCharacteristicComplete(so.value.0, sh, so.value.1, cs[|cs| - 1]);
        CompleteWithCharacteristic(cs);
      }
    }
  }

  lemma {:induction false} CompleteWithCharacteristic(cs: seq<CharacteristicJson>)
    requires cs != [] && CompleteCharacteristics(cs[..|cs| - 1]) && CompleteCharacteristic(cs[|cs| - 1])
    ensures CompleteCharacteristics(cs)
  {
    forall i | 0 <= i < |cs| ensures CompleteCharacteristic(cs[i]) {
      assert i < |cs| - 1 ==> cs[i] == cs[..|cs| - 1][i];
    }
  }

  lemma {:induction false} StagedServiceComplete(st: seq<Service>, ch: CharHandle, s: ServiceJson)
    requires WrittenService(s)
    ensures StageService(st, ch, s).Some? ==> CompleteService(s)
  {
    if StageService(st, ch, s).Some? {
      var begun := WithService(st, U8(s.property.value), Bytes(s.uuid, s.uuidLen));
      StagedCharacteristicsComplete(begun, FreshHandle(st), ch, s.characteristics.value);
    }
  }

  lemma {:induction false} StagedIsComplete(st: seq<Service>, ch: CharHandle, ss: seq<ServiceJson>)
    requires WrittenServices(ss)
    ensures StageServices(st, ch, ss).Some? ==> CompleteServices(ss)
    decreases |ss|
  {
    if ss != [] {
      StagedIsComplete(st, ch, ss[..|ss| - 1]);
      var so := StageServices(st, ch, ss[..|ss| - 1]);
      if so.Some? && StageService(so.value.0, so.value.1, ss[|ss| - 1]).Some? {
        StagedServiceComplete(so.value.0, so.value.1, ss[|ss| - 1]);
        CompleteWithService(ss);
      }
    }
  }

  lemma {:induction false} CompleteWithService(ss: seq<ServiceJson>)
    requires ss != [] && CompleteServices(ss[..|ss| - 1]) && CompleteService(ss[|ss| - 1])
    ensures CompleteServices(ss)
  {
    forall i | 0 <= i < |ss| ensures CompleteService(ss[i]) {
      assert i < |ss| - 1 ==> ss[i] == ss[..|ss| - 1][i];
    }
  }

  lemma {:induction false} LastKnownCharacteristic(cs: seq<CharacteristicJson>)
    requires cs != []
    ensures KnownInCharacteristics(cs)
         == KnownInCharacteristics(cs[..|cs| - 1]).Plus(KnownInCharacteristic(cs[|cs| - 1]))
  {
  }

  lemma {:induction false} LastKnownService(ss: seq<ServiceJson>)
    requires ss != []
    ensures KnownIn(ss) == KnownIn(ss[..|ss| - 1]).Plus(KnownInCharacteristics(CharacteristicsOf(ss[|ss| - 1])))
  {
  }

  // The size of the described tree: at least as many of each, and as many only if every UUID is known.

  ghost predicate AtLeastKnown(known: Size, size: Size, all: bool) {
    && known.characteristics <= size.characteristics && known.descriptors <= size.descriptors
    && (known == size ==> all)
  }

  /** The same for a list from its front and its last element. */
  lemma {:induction false} AtLeastBoth(k1: Size, s1: Size, all1: bool, k2: Size, s2: Size, all2: bool, all: bool)
    requires AtLeastKnown(k1, s1, all1) && AtLeastKnown(k2, s2, all2)
    requires all1 && all2 ==> all
    ensures AtLeastKnown(k1.Plus(k2), s1.Plus(s2), all)
  {
  }

  lemma {:induction false} KnownOfDescriptors(ds: seq<DescriptorJson>)
    ensures KnownInDescriptors(ds) <= |ds|
    ensures KnownInDescriptors(ds) == |ds| ==> KnownDescriptors(ds)
  {
    if ds != [] {
      KnownOfDescriptors(ds[..|ds| - 1]);
      assert ds == ds[..|ds| - 1] + [ds[|ds| - 1]];
    }
  }

  lemma {:induction false} TreeOfCharacteristicsHasMore(cs: seq<CharacteristicJson>)
    requires CompleteCharacteristics(cs)
    ensures AtLeastKnown(KnownInCharacteristics(cs), SizeOfCharacteristics(TreeOfCharacteristics(cs)),
                         KnownCharacteristics(cs))
    decreases |cs|
  {
    if cs != [] {
      var front, c := cs[..|cs| - 1], cs[|cs| - 1];
      TreeOfCharacteristicsHasMore(front);
      SnocCharacteristic(TreeOfCharacteristics(front), TreeOfCharacteristic(c));
      KnownOfDescriptors(c.descriptors.value);
      KnownWithCharacteristic(cs);
      LastKnownCharacteristic(cs);
      AtLeastBoth(
        KnownInCharacteristics(front), SizeOfCharacteristics(TreeOfCharacteristics(front)), KnownCharacteristics(front),
        KnownInCharacteristic(c), Size(1, |c.descriptors.value|), KnownCharacteristic(c), KnownCharacteristics(cs));
    }
  }

  lemma {:induction false} KnownWithCharacteristic(cs: seq<CharacteristicJson>)
    requires CompleteCharacteristics(cs) && cs != []
    ensures KnownCharacteristics(cs[..|cs| - 1]) && KnownCharacteristic(cs[|cs| - 1]) ==> KnownCharacteristics(cs)
  {
    if KnownCharacteristics(cs[..|cs| - 1]) && KnownCharacteristic(cs[|cs| - 1]) {
      forall i | 0 <= i < |cs| ensures KnownCharacteristic(cs[i]) {
        assert i < |cs| - 1 ==> cs[i] == cs[..|cs| - 1][i];
      }
    }
  }

  lemma {:induction false} KnownWithService(ss: seq<ServiceJson>)
    requires CompleteServices(ss) && ss != []
    ensures KnownServices(ss[..|ss| - 1]) && KnownService(ss[|ss| - 1]) ==> KnownServices(ss)
  {
    if KnownServices(ss[..|ss| - 1]) && KnownService(ss[|ss| - 1]) {
      forall i | 0 <= i < |ss| ensures KnownService(ss[i]) {
        assert i < |ss| - 1 ==> ss[i] == ss[..|ss| - 1][i];
      }
    }
  }

  lemma {:induction false} TreeHasMore(services: seq<Service>, ss: seq<ServiceJson>)
    requires CompleteServices(ss) && IsTree(services, ss)
    ensures AtLeastKnown(KnownIn(ss), SizeOf(services), KnownServices(ss))
    decreases |ss|
  {
    if ss != [] {
      var front, s := ss[..|ss| - 1], ss[|ss| - 1];
      FrontIsTree(services, ss);
      assert services == services[..|ss| - 1] + [services[|ss| - 1]];
      SnocService(services[..|ss| - 1], services[|ss| - 1]);
      TreeHasMore(services[..|ss| - 1], front);
      TreeOfCharacteristicsHasMore(s.characteristics.value);
      CharacteristicsMatchIff(services[|ss| - 1].characteristics, s.characteristics.value);
      KnownWithService(ss);
      LastKnownService(ss);
      AtLeastBoth(
        KnownIn(front), SizeOf(services[..|ss| - 1]), KnownServices(front),
        KnownInCharacteristics(s.characteristics.value), SizeOfCharacteristics(services[|ss| - 1].characteristics),
        KnownService(s), KnownServices(ss));
    }
  }

  lemma {:induction false} FrontIsTree(services: seq<Service>, ss: seq<ServiceJson>)
    requires CompleteServices(ss) && IsTree(services, ss) && ss != []
    ensures CompleteServices(ss[..|ss| - 1]) && IsTree(services[..|ss| - 1], ss[..|ss| - 1])
    ensures Matches(services[|ss| - 1], ss[|ss| - 1])
  {
    var frontServices, front := services[..|ss| - 1], ss[..|ss| - 1];
    forall i | 0 <= i < |front| ensures Matches(frontServices[i], front[i]) {
      assert Matches(services[i], ss[i]);
    }
  }

  /** Whatever is staged on top of a database is the described tree if and only if every characteristic and descriptor
      has a UUID of 2 or 16 bytes. */
  lemma {:induction false} StagedIsTheTreeIff(st: seq<Service>, ch: CharHandle, ss: seq<ServiceJson>)
    requires Increasing(st) && WrittenServices(ss) && StageServices(st, ch, ss).Some?
    ensures CompleteServices(ss)
    ensures Grown(st, StageServices(st, ch, ss).value.0, ss) <==> KnownServices(ss)
  {
    StagedIsComplete(st, ch, ss);
    var (after, ch') := StageServices(st, ch, ss).value;
    if KnownServices(ss) {
      StagedIsTheTree(st, ch, ss);
    }
    if Grown(st, after, ss) {
      GrownIsAppended(st, after, ss);
      StagedTreeIsKnown(st, ch, ss, after, ch', after[|st|..]);
    }
  }

  lemma {:induction false} GrownIsAppended(st: seq<Service>, after: seq<Service>, ss: seq<ServiceJson>)
    requires CompleteServices(ss) && Grown(st, after, ss)
    ensures after == st + after[|st|..] && IsTree(after[|st|..], ss)
  {
  }

  lemma {:induction false} TreeIsKnown(st: seq<Service>, tree: seq<Service>, after: seq<Service>, ss: seq<ServiceJson>)
    requires CompleteServices(ss) && IsTree(tree, ss) && after == st + tree
    requires SizeOf(after) == SizeOf(st).Plus(KnownIn(ss))
    ensures KnownServices(ss)
  {
    SizeOfBoth(st, tree);
    TreeHasMore(tree, ss);
    NoRoomForOthers(SizeOf(st), KnownIn(ss), SizeOf(tree), KnownServices(ss));
  }

  /** Services staged on top of a database are the described tree only if every UUID is known. */
  lemma {:induction false} StagedTreeIsKnown(
    st: seq<Service>, ch: CharHandle, ss: seq<ServiceJson>, after: seq<Service>, ch': CharHandle, tree: seq<Service>)
    requires WrittenServices(ss) && CompleteServices(ss) && StageServices(st, ch, ss) == Some((after, ch'))
    requires after == st + tree && IsTree(tree, ss)
    ensures KnownServices(ss)
  {
    StagingAddsKnown(st, ch, ss, SizeOf(st));
    TreeIsKnown(st, tree, after, ss);
  }

  lemma {:induction false} NoRoomForOthers(before: Size, known: Size, size: Size, all: bool)
    requires AtLeastKnown(known, size, all) && before.Plus(known) == before.Plus(size)
    ensures all
  {
  }

  // Staging adds exactly one service for each service of the description.

  lemma {:induction false} DescriptorsKeepServices(st: seq<Service>, ch: CharHandle, ds: seq<DescriptorJson>)
    requires WrittenDescriptors(ds) && StageDescriptors(st, ch, ds).Some?
    ensures |StageDescriptors(st, ch, ds).value| == |st|
    decreases |ds|
  {
    if ds != [] {
      DescriptorsKeepServices(st, ch, ds[..|ds| - 1]);
    }
  }

  lemma {:induction false} CharacteristicKeepsServices(st: seq<Service>, sh: nat, ch: CharHandle, c: CharacteristicJson)
    requires WrittenCharacteristic(c) && StageCharacteristic(st, sh, ch, c).Some?
    ensures |StageCharacteristic(st, sh, ch, c).value.0| == |st|
  {
    var head := StageHead(st, sh, ch, c).value;
    DescriptorsKeepServices(head.0, head.1, c.descriptors.value);
  }

  lemma {:induction false} CharacteristicsKeepServices(
    st: seq<Service>, sh: nat, ch: CharHandle, cs: seq<CharacteristicJson>)
    requires WrittenCharacteristics(cs) && StageCharacteristics(st, sh, ch, cs).Some?
    ensures |StageCharacteristics(st, sh, ch, cs).value.0| == |st|
    decreases |cs|
  {
    if cs != [] {
      CharacteristicsKeepServices(st, sh, ch, cs[..|cs| - 1]);
      var so := StageCharacteristics(st, sh, ch, cs[..|cs| - 1]).value;
      CharacteristicKeepsServices(so.0, sh, so.1, cs[|cs| - 1]);
    }
  }

  lemma {:induction false} ServiceAddsOne(st: seq<Service>, ch: CharHandle, s: ServiceJson)
    requires WrittenService(s) && StageService(st, ch, s).Some?
    ensures |StageService(st, ch, s).value.0| == |st| + 1
  {
    var bare := WithService(st, U8(s.property.value), Bytes(s.uuid, s.uuidLen));
    CharacteristicsKeepServices(bare, FreshHandle(st), ch, s.characteristics.value);
  }

  lemma {:induction false} StagingAddsServices(st: seq<Service>, ch: CharHandle, ss: seq<ServiceJson>)
    requires WrittenServices(ss) && StageServices(st, ch, ss).Some?
    ensures |StageServices(st, ch, ss).value.0| == |st| + |ss|
    decreases |ss|
  {
    if ss != [] {
      StagingAddsServices(st, ch, ss[..|ss| - 1]);
      var so := StageServices(st, ch, ss[..|ss| - 1]).value;
      ServiceAddsOne(so.0, so.1, ss[|ss| - 1]);
    }
  }

  /** So the staged database is the described tree, with nothing before it, exactly when it was staged on an empty one
      and every UUID is known. */
  lemma {:induction false} StagedAloneIff(st: seq<Service>, ch: CharHandle, ss: seq<ServiceJson>)
    requires Increasing(st) && WrittenServices(ss) && StageServices(st, ch, ss).Some?
    ensures CompleteServices(ss)
    ensures IsTree(StageServices(st, ch, ss).value.0, ss) <==> KnownServices(ss) && st == []
  {
    StagedIsTheTreeIff(st, ch, ss);
    StagingAddsServices(st, ch, ss);
    var (after, ch') := StageServices(st, ch, ss).value;
    if st == [] {
      assert after[0..] == after;
      if IsTree(after, ss) {
        assert after == [] + after;
        StagedTreeIsKnown(st, ch, ss, after, ch', after);
      }
    }
  }
}
