/** The connection cases of the watcher loop, on the device list itself. */
module ConnectionWatcher {
  import opened Common
  import opened HexCodec
  import opened DeviceList
  import opened DeviceMap

  datatype Reported = Nobody | Device(address: Mac)

  ghost predicate AllAddresses(es: seq<Entry>) {
    forall i :: 0 <= i < |es| ==> IsAddress(es[i].address)
  }

  lemma {:induction false} AllAddressesAfterAdd(es: seq<Entry>, address: Mac, handle: nat)
    requires AllAddresses(es)
    ensures AllAddresses(Added(es, AddrToStr(address), handle))
  {
  }

  lemma {:induction false} AllAddressesAfterDelete(es: seq<Entry>, handle: nat)
    requires AllAddresses(es)
    ensures AllAddresses(Deleted(es, handle))
  {
  }

  class Watcher {
    const manager: DeviceManager
    var stopped: bool

    constructor (manager: DeviceManager)
      ensures this.manager == manager && !stopped
    {
      this.manager, stopped := manager, false;
    }

    ghost function State(): Watch
      reads this, manager, manager.nodes
      requires manager.Valid()
    {
      Watch(manager.Entries(), stopped)
    }

    /** Every entry was made from an address, as both callers of Add do. */
    ghost predicate Valid()
      reads this, manager, manager.nodes
    {
      && manager.Valid()
      && AllAddresses(manager.Entries())
    }

    method ConnectionOpened(address: Mac, handle: nat)
      requires Valid() && !stopped
      modifies this, manager, manager.nodes
      ensures Valid() && State() == Watched(old(State()), Opened(address, handle))
    {
      AllAddressesAfterAdd(manager.Entries(), address, handle);
      var _ := manager.Add(AddrToStr(address), handle);
    }

    /** The disconnect callback is given the address recorded for the handle. */
    method ConnectionClosed(handle: nat) returns (reported: Reported)
      requires Valid() && !stopped
      modifies this, manager, manager.nodes
      ensures Valid() && State() == Watched(old(State()), Closed(handle))
      ensures var es := old(manager.Entries());
              reported ==
              if Known(es, handle) then Device(StrToAddr(es[FindConnection(es, handle)].address)) else Nobody
    {
      AllAddressesAfterDelete(manager.Entries(), handle);
      var code, text := manager.GetAddress(handle);
      if code != Success {
        stopped := true;
        return Nobody;
      }
      reported := Device(StrToAddr(text));
      var _ := manager.Del(handle);
    }

    /** The events that only need the address of their connection. */
    method AddressOf(handle: nat) returns (reported: Reported)
      requires Valid() && !stopped
      modifies this
      ensures Valid() && State() == Watched(old(State()), Lookup(handle))
      ensures var es := manager.Entries();
              reported ==
              if Known(es, handle) then Device(StrToAddr(es[FindConnection(es, handle)].address)) else Nobody
    {
      var code, text := manager.GetAddress(handle);
      if code != Success {
        stopped := true;
        return Nobody;
      }
      reported := Device(StrToAddr(text));
    }
  }
}
