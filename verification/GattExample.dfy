/** A description that stages without an error and is not what gets staged. */
module GattExample {
  import opened Bgapi
  import opened Common
  import opened CoProcessor
  import opened GattConfig
  import opened GattTree
  import opened HexCodec

  const VALUE_TEXT := "2902"

  function ExampleDescriptor(): DescriptorJson {
    DescriptorJson(Some(2), Some(2), Some(VALUE_TEXT), Some(1), Some(0), Some(0), Some(""))
  }

  function ExampleCharacteristic(uuidLen: nat, ds: seq<DescriptorJson>): CharacteristicJson {
    CharacteristicJson(
      Some(2), Some(0), Some(uuidLen), Some(VALUE_TEXT + VALUE_TEXT), Some(1), Some(0), Some(0), Some(""), Some(ds))
  }

  /** A service with a characteristic whose UUID has 2 bytes and one whose UUID has 4, the second with a descriptor. */
  function ExampleService(): ServiceJson {
    ServiceJson(Some(0), Some(2), Some(VALUE_TEXT),
                Some([ExampleCharacteristic(2, []), ExampleCharacteristic(4, [ExampleDescriptor()])]))
  }

  lemma {:induction false} ExampleIsComplete()
    ensures CompleteDescriptor(ExampleDescriptor())
    ensures CompleteCharacteristic(ExampleCharacteristic(2, []))
    ensures CompleteCharacteristic(ExampleCharacteristic(4, [ExampleDescriptor()]))
    ensures CompleteService(ExampleService())
  {
    HexDigits(VALUE_TEXT[..4]);
    HexDigits((VALUE_TEXT + VALUE_TEXT)[..4]);
    HexDigits((VALUE_TEXT + VALUE_TEXT)[..8]);
  }

  lemma {:induction false} HexDigits(s: string)
    requires |s| % 2 == 0 && forall i :: 0 <= i < |s| ==> s[i] in "0123456789"
    ensures IsHexText(s)
  {
  }

  lemma {:induction false} FirstStages(bare: Service, one: Service, first: Characteristic)
    requires bare.handle == 1 && bare.characteristics == [] && one == bare.(characteristics := [first])
    requires CompleteCharacteristic(ExampleCharacteristic(2, []))
    requires first == CharacteristicOfJson(ExampleCharacteristic(2, []))
    ensures StageCharacteristic([bare], 1, NoCharacteristic, ExampleCharacteristic(2, []))
         == Some(([one], CharacteristicOf(1, 0)))
  {
    assert IndexOf([bare], 1) == 0 && IndexOf([one], 1) == 0;
    assert [bare][0 := one] == [one] && bare.characteristics + [first] == [first];
    assert WithCharacteristic([bare], 1, first) == Some([one]);
    assert StageHead([bare], 1, NoCharacteristic, ExampleCharacteristic(2, []))
        == Some(([one], CharacteristicOf(1, 0)));
  }

  lemma {:induction false} MovedStages(one: Service, all: Service, first: Characteristic, moved: Characteristic)
    requires one.handle == 1 && one.characteristics == [first] && all == one.(characteristics := [moved])
    requires CompleteDescriptor(ExampleDescriptor()) && first.descriptors == []
    requires moved == first.(descriptors := [DescriptorOf(ExampleDescriptor())])
    ensures StageDescriptors([one], CharacteristicOf(1, 0), [ExampleDescriptor()]) == Some([all])
  {
    var d := DescriptorOf(ExampleDescriptor());
    assert IndexOf([one], 1) == 0;
    assert first.descriptors + [d] == [d] && one.characteristics[0 := moved] == [moved] && [one][0 := all] == [all];
    assert WithDescriptor([one], CharacteristicOf(1, 0), d) == Some([all]);
    assert [ExampleDescriptor()][..0] == [];
    assert StageDescriptor([one], CharacteristicOf(1, 0), ExampleDescriptor()) == Some([all]);
  }

  lemma {:induction false} BothStage(
    bare: Service, one: Service, all: Service, first: Characteristic, moved: Characteristic)
    requires bare.handle == 1 && bare.characteristics == [] && one == bare.(characteristics := [first])
    requires CompleteService(ExampleService()) && CompleteDescriptor(ExampleDescriptor())
    requires CompleteCharacteristic(ExampleCharacteristic(2, []))
    requires first == CharacteristicOfJson(ExampleCharacteristic(2, []))
    requires moved == first.(descriptors := [DescriptorOf(ExampleDescriptor())])
    requires all == one.(characteristics := [moved])
    ensures StageCharacteristics([bare], 1, NoCharacteristic, ExampleService().characteristics.value)
         == Some(([all], CharacteristicOf(1, 0)))
  {
    var c, odd := ExampleCharacteristic(2, []), ExampleCharacteristic(4, [ExampleDescriptor()]);
    var cs, ch := [c, odd], CharacteristicOf(1, 0);
    assert cs[..1] == [c] && [c][..0] == [];
    FirstStages(bare, one, first);
    assert StageCharacteristics([bare], 1, NoCharacteristic, [c]) == Some(([one], ch));
    MovedStages(one, all, first, moved);
    assert StageCharacteristic([one], 1, ch, odd) == Some(([all], ch));
  }

  lemma {:induction false} ExampleStages(
    bare: Service, one: Service, all: Service, first: Characteristic, moved: Characteristic)
    requires CompleteService(ExampleService()) && CompleteDescriptor(ExampleDescriptor())
    requires CompleteCharacteristic(ExampleCharacteristic(2, []))
    requires bare == Service(1, 0, Bytes(Some(VALUE_TEXT), Some(2)), false, [])
    requires first == CharacteristicOfJson(ExampleCharacteristic(2, [])) && one == bare.(characteristics := [first])
    requires moved == first.(descriptors := [DescriptorOf(ExampleDescriptor())])
    requires all == one.(characteristics := [moved])
    ensures StageService([], NoCharacteristic, ExampleService()).Some?
    ensures StageService([], NoCharacteristic, ExampleService()).value.0 == [all.(started := true)]
  {
    assert WithService([], 0, bare.uuid) == [bare];
    BothStage(bare, one, all, first, moved);
    assert IndexOf([all], 1) == 0;
    assert [all][0 := all.(started := true)] == [all.(started := true)];
  }

  /** The example stages, the odd characteristic is missing, its descriptor is on the characteristic before it, and so
      the staged service is not the described one. */
  lemma {:induction false} OddUuidIsPassedOver()
    ensures WrittenServices([ExampleService()]) && CompleteServices([ExampleService()])
    ensures var so := StageServices([], NoCharacteristic, [ExampleService()]);
            && so.Some? && |so.value.0| == 1 && |so.value.0[0].characteristics| == 1
            && |so.value.0[0].characteristics[0].descriptors| == 1
            && !IsTree(so.value.0, [ExampleService()])
  {
    ExampleIsComplete();
    var first := CharacteristicOfJson(ExampleCharacteristic(2, []));
    var bare := Service(1, 0, Bytes(Some(VALUE_TEXT), Some(2)), false, []);
    var one := bare.(characteristics := [first]);
    var moved := first.(descriptors := [DescriptorOf(ExampleDescriptor())]);
    var all := one.(characteristics := [moved]);
    ExampleStages(bare, one, all, first, moved);
    assert [ExampleService()][..0] == [];
    var so := StageServices([], NoCharacteristic, [ExampleService()]);
    assert so == StageService([], NoCharacteristic, ExampleService());
    assert IsTree(so.value.0, [ExampleService()]) ==> Matches(so.value.0[0], ExampleService());
  }
}
