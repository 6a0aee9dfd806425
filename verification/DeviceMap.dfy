/** The device list is an insertion-ordered map from addresses to handles with a reverse lookup, and the life
    cycle of connections keeps it equal to the set of live ones. */
module DeviceMap {
  import opened HexCodec
  import opened DeviceList

  ghost predicate DistinctAddresses(es: seq<Entry>) {
    forall i, j :: 0 <= i < j < |es| ==> es[i].address != es[j].address
  }

  ghost predicate DistinctHandles(es: seq<Entry>) {
    forall i, j :: 0 <= i < j < |es| ==> es[i].connection != es[j].connection
  }

  /** The addresses in the order of the list. */
  function Order(es: seq<Entry>): (order: seq<string>)
    ensures |order| == |es|
  {
    seq(|es|, i requires 0 <= i < |es| => es[i].address)
  }

  /** The handle recorded for each address. */
  ghost function Handles(es: seq<Entry>): map<string, nat> {
    map a | a in Order(es) :: if FindAddress(es, a) < |es| then es[FindAddress(es, a)].connection else 0
  }

  lemma {:induction false} FoundIffListed(es: seq<Entry>, a: string)
    ensures FindAddress(es, a) < |es| <==> a in Order(es)
  {
    if FindAddress(es, a) < |es| {
      assert Order(es)[FindAddress(es, a)] == a;
    }
    if a in Order(es) {
      var i :| 0 <= i < |es| && Order(es)[i] == a;
      assert es[i].address == a;
    }
  }

  lemma {:induction false} TheOnlyIndex(es: seq<Entry>, i: nat)
    requires DistinctAddresses(es) && i < |es|
    ensures FindAddress(es, es[i].address) == i
  {
  }

  lemma {:induction false} HandleAt(es: seq<Entry>, i: nat)
    requires DistinctAddresses(es) && i < |es|
    ensures es[i].address in Handles(es) && Handles(es)[es[i].address] == es[i].connection
  {
    TheOnlyIndex(es, i);
    assert Order(es)[i] == es[i].address;
  }

  lemma {:induction false} IndexOf(es: seq<Entry>, a: string) returns (i: nat)
    requires a in Order(es)
    ensures i < |es| && es[i].address == a
  {
    i :| i < |es| && Order(es)[i] == a;
  }

  lemma {:induction false} HandlesAre(es: seq<Entry>, m: map<string, nat>)
    requires DistinctAddresses(es)
    requires forall i :: 0 <= i < |es| ==> es[i].address in m && m[es[i].address] == es[i].connection
    requires forall b :: b in m ==> b in Order(es)
    ensures Handles(es) == m
  {
    forall b | b in Order(es) ensures b in m && Handles(es)[b] == m[b] {
      var i := IndexOf(es, b);
      HandleAt(es, i);
    }
  }

  /** Adding keeps addresses distinct, records the handle for the address and no other, and lists a new address
      last while a known one keeps its place. */
  lemma {:induction false} AddIsMapUpdate(es: seq<Entry>, a: string, c: nat)
    requires DistinctAddresses(es)
    ensures DistinctAddresses(Added(es, a, c))
    ensures Handles(Added(es, a, c)) == Handles(es)[a := c]
    ensures Order(Added(es, a, c)) == if a in Order(es) then Order(es) else Order(es) + [a]
  {
    FoundIffListed(es, a);
    AddOrder(es, a, c);
    var es', m := Added(es, a, c), Handles(es)[a := c];
    forall i | 0 <= i < |es'| ensures es'[i].address in m && m[es'[i].address] == es'[i].connection {
      if es'[i].address != a {
        HandleAt(es, i);
      }
    }
    forall b | b in m ensures b in Order(es') {
      if b == a {
        FoundIffListed(es', a);
      }
    }
    HandlesAre(es', m);
  }

  lemma {:induction false} AddOrder(es: seq<Entry>, a: string, c: nat)
    requires DistinctAddresses(es)
    ensures DistinctAddresses(Added(es, a, c))
    ensures Order(Added(es, a, c)) == if FindAddress(es, a) < |es| then Order(es) else Order(es) + [a]
  {
  }

  /** Deleting a handle removes the earliest entry that has it, if the handle is not zero, and nothing else. */
  lemma {:induction false} DeleteIsMapRemove(es: seq<Entry>, c: nat)
    requires DistinctAddresses(es)
    ensures DistinctAddresses(Deleted(es, c))
    ensures var i := FindConnection(es, c);
            if c == 0 || i == |es| then Deleted(es, c) == es
            else
              && Order(Deleted(es, c)) == Order(es)[..i] + Order(es)[i + 1..]
              && Handles(Deleted(es, c)) == Handles(es) - {es[i].address}
  {
    var i := FindConnection(es, c);
    if c != 0 && i < |es| {
      RemoveEntry(es, i);
    }
  }

  lemma {:induction false} RemoveEntry(es: seq<Entry>, i: nat)
    requires DistinctAddresses(es) && i < |es|
    ensures var es' := es[..i] + es[i + 1..];
            && DistinctAddresses(es')
            && Order(es') == Order(es)[..i] + Order(es)[i + 1..]
            && Handles(es') == Handles(es) - {es[i].address}
  {
    RemoveOrder(es, i);
    var es', m := es[..i] + es[i + 1..], Handles(es) - {es[i].address};
    forall k | 0 <= k < |es'| ensures es'[k].address in m && m[es'[k].address] == es'[k].connection {
      var from := if k < i then k else k + 1;
      assert es'[k] == es[from];
      HandleAt(es, from);
    }
    forall b | b in m ensures b in Order(es') {
      StillListed(es, i, b);
    }
    HandlesAre(es', m);
  }

  lemma {:induction false} StillListed(es: seq<Entry>, i: nat, b: string)
    requires i < |es| && b in Order(es) && b != es[i].address
    ensures b in Order(es[..i] + es[i + 1..])
  {
    var k := IndexOf(es, b);
    var es', to := es[..i] + es[i + 1..], if k < i then k else k - 1;
    assert es'[to] == es[k];
    assert Order(es')[to] == b;
  }

  lemma {:induction false} RemoveOrder(es: seq<Entry>, i: nat)
    requires DistinctAddresses(es) && i < |es|
    ensures var es' := es[..i] + es[i + 1..];
            DistinctAddresses(es') && Order(es') == Order(es)[..i] + Order(es)[i + 1..]
  {
  }

  /** With distinct addresses and distinct handles, looking a handle up and looking an address up undo each other. */
  lemma {:induction false} LookupsAreInverse(es: seq<Entry>, a: string, c: nat)
    requires DistinctAddresses(es) && DistinctHandles(es)
    ensures (FindAddress(es, a) < |es| && es[FindAddress(es, a)].connection == c)
       <==> (FindConnection(es, c) < |es| && es[FindConnection(es, c)].address == a)
  {
  }

  // The life cycle of connections.

  datatype Event =
    | Opened(address: Mac, handle: nat)
    | ApiConnected(address: Mac, handle: nat)
    | Closed(handle: nat)
    | Lookup(handle: nat)
    | ModuleReset

  /** The device list, and whether the watcher has left its loop because a lookup failed. */
  datatype Watch = Watch(entries: seq<Entry>, stopped: bool)

  predicate Known(es: seq<Entry>, handle: nat) {
    handle != 0 && FindConnection(es, handle) < |es|
  }

  function Watched(w: Watch, e: Event): Watch {
    match e
    case Opened(a, h) => if w.stopped then w else w.(entries := Added(w.entries, AddrToStr(a), h))
    case ApiConnected(a, h) => w.(entries := Added(w.entries, AddrToStr(a), h))
    case Closed(h) =>
      if w.stopped then w
      else if Known(w.entries, h) then w.(entries := Deleted(w.entries, h))
      else w.(stopped := true)
    case Lookup(h) => w.(stopped := w.stopped || !Known(w.entries, h))
    case ModuleReset => w.(entries := [])
  }

  function WatchAll(w: Watch, events: seq<Event>): Watch {
    if events == [] then w else Watched(WatchAll(w, events[..|events| - 1]), events[|events| - 1])
  }

  ghost function LiveAfter(live: set<Entry>, e: Event): set<Entry> {
    match e
    case Opened(a, h) => live + {Entry(AddrToStr(a), h)}
    case ApiConnected(a, h) => live + {Entry(AddrToStr(a), h)}
    case Closed(h) => set p | p in live && p.connection != h
    case Lookup(_) => live
    case ModuleReset => {}
  }

  /** The connections that were opened and not closed since the last reset. */
  ghost function Live(events: seq<Event>): set<Entry> {
    if events == [] then {} else LiveAfter(Live(events[..|events| - 1]), events[|events| - 1])
  }

  /** Neither the address nor the handle is live with another partner. */
  ghost predicate Pairs(live: set<Entry>, address: string, handle: nat) {
    handle != 0 && forall p :: p in live ==> (p.address == address <==> p.connection == handle)
  }

  ghost predicate IsLive(live: set<Entry>, handle: nat) {
    exists p :: p in live && p.connection == handle
  }

  /** The event fits what is live. */
  ghost predicate Fits(live: set<Entry>, e: Event) {
    match e
    case Opened(a, h) => Pairs(live, AddrToStr(a), h)
    case ApiConnected(a, h) => Pairs(live, AddrToStr(a), h)
    case Closed(h) => IsLive(live, h)
    case Lookup(h) => IsLive(live, h)
    case ModuleReset => true
  }

  ghost predicate WellFormed(events: seq<Event>)
    decreases |events|
  {
    events != [] ==>
      && WellFormed(events[..|events| - 1])
      && Fits(Live(events[..|events| - 1]), events[|events| - 1])
  }

  /** The list holds exactly the live connections, each address and each handle once, no handle zero. */
  ghost predicate Mirrors(es: seq<Entry>, live: set<Entry>) {
    && DistinctAddresses(es)
    && DistinctHandles(es)
    && (forall i :: 0 <= i < |es| ==> es[i].connection != 0)
    && (forall p :: p in es <==> p in live)
  }

  lemma {:induction false} LiveIsListed(es: seq<Entry>, live: set<Entry>, p: Entry)
    requires Mirrors(es, live) && p in live
    ensures FindConnection(es, p.connection) < |es|
    ensures es[FindConnection(es, p.connection)] == p
    ensures p.connection != 0
  {
    var i :| 0 <= i < |es| && es[i] == p;
  }

  lemma {:induction false} OpenMirrors(es: seq<Entry>, live: set<Entry>, a: string, h: nat)
    requires Mirrors(es, live) && Pairs(live, a, h)
    ensures Mirrors(Added(es, a, h), live + {Entry(a, h)})
  {
    var i := FindAddress(es, a);
    var es' := Added(es, a, h);
    if i < |es| {
      assert es[i] in live;
      assert es' == es;
    } else {
      assert forall j :: 0 <= j < |es| ==> es[j] in live && es[j].connection != h;
      assert es'[|es|] == Entry(a, h);
      forall p ensures p in es' <==> p in live + {Entry(a, h)} {
        if p in live {
          assert p in es;
        }
      }
    }
  }

  lemma {:induction false} StillIn(es: seq<Entry>, i: nat, p: Entry)
    requires i < |es| && p in es && p != es[i]
    ensures p in es[..i] + es[i + 1..]
  {
    var k :| 0 <= k < |es| && es[k] == p;
    assert (es[..i] + es[i + 1..])[if k < i then k else k - 1] == p;
  }

  lemma {:induction false} WasIn(es: seq<Entry>, i: nat, p: Entry)
    requires DistinctHandles(es) && i < |es| && p in es[..i] + es[i + 1..]
    ensures p in es && p.connection != es[i].connection
  {
    var es' := es[..i] + es[i + 1..];
    var k :| 0 <= k < |es'| && es'[k] == p;
    assert es[if k < i then k else k + 1] == p;
  }

  lemma {:induction false} WithoutOne(es: seq<Entry>, i: nat)
    requires DistinctHandles(es) && i < |es|
    ensures var es' := es[..i] + es[i + 1..];
            forall p :: p in es' <==> p in es && p.connection != es[i].connection
  {
    forall p | p in es && p.connection != es[i].connection ensures p in es[..i] + es[i + 1..] {
      StillIn(es, i, p);
    }
    forall p | p in es[..i] + es[i + 1..] ensures p in es && p.connection != es[i].connection {
      WasIn(es, i, p);
    }
  }

  lemma {:induction false} DistinctAfterRemoval(es: seq<Entry>, i: nat)
    requires DistinctAddresses(es) && DistinctHandles(es) && i < |es|
    ensures DistinctAddresses(es[..i] + es[i + 1..]) && DistinctHandles(es[..i] + es[i + 1..])
  {
  }

  lemma {:induction false} CloseMirrors(es: seq<Entry>, live: set<Entry>, q: Entry)
    requires Mirrors(es, live) && q in live
    ensures Mirrors(Deleted(es, q.connection), set p | p in live && p.connection != q.connection)
  {
    LiveIsListed(es, live, q);
    var i := FindConnection(es, q.connection);
    assert Deleted(es, q.connection) == es[..i] + es[i + 1..];
    RemovedMirrors(es, live, i);
  }

  lemma {:induction false} RemovedMirrors(es: seq<Entry>, live: set<Entry>, i: nat)
    requires Mirrors(es, live) && i < |es|
    ensures Mirrors(es[..i] + es[i + 1..], set p | p in live && p.connection != es[i].connection)
  {
    var es' := es[..i] + es[i + 1..];
    DistinctAfterRemoval(es, i);
    WithoutOne(es, i);
    forall k | 0 <= k < |es'| ensures es'[k].connection != 0 {
      assert es'[k] == es[if k < i then k else k + 1];
    }
  }

  lemma {:induction false} StepMirrors(w: Watch, live: set<Entry>, e: Event)
    requires !w.stopped && Mirrors(w.entries, live) && Fits(live, e)
    ensures !Watched(w, e).stopped
    ensures Mirrors(Watched(w, e).entries, LiveAfter(live, e))
  {
    var es := w.entries;
    match e {
      case Opened(a, h) => OpenMirrors(es, live, AddrToStr(a), h);
      case ApiConnected(a, h) => OpenMirrors(es, live, AddrToStr(a), h);
      case Closed(h) =>
        var q :| q in live && q.connection == h;
        LiveIsListed(es, live, q);
        CloseMirrors(es, live, q);
      case Lookup(h) =>
        var q :| q in live && q.connection == h;
        LiveIsListed(es, live, q);
      case ModuleReset =>
    }
  }

  /** The life cycle theorem: over every history in which live addresses and non-zero handles correspond one to
      one, the list is exactly the set of live connections after every event, and the watcher never stops. */
  lemma {:induction false} ListMirrorsConnections(events: seq<Event>)
    requires WellFormed(events)
    ensures !WatchAll(Watch([], false), events).stopped
    ensures Mirrors(WatchAll(Watch([], false), events).entries, Live(events))
    decreases |events|
  {
    if events != [] {
      var front, e := events[..|events| - 1], events[|events| - 1];
      ListMirrorsConnections(front);
      StepMirrors(WatchAll(Watch([], false), front), Live(front), e);
    }
  }

  /** After such a history the close of a live handle finds the text of the address that was opened with it, so
      the disconnect callback is given that address. */
  lemma {:induction false} CloseReportsOpenedAddress(events: seq<Event>, a: Mac, h: nat)
    requires WellFormed(events) && Entry(AddrToStr(a), h) in Live(events)
    ensures var es := WatchAll(Watch([], false), events).entries;
            && FindConnection(es, h) < |es|
            && IsAddress(es[FindConnection(es, h)].address)
            && StrToAddr(es[FindConnection(es, h)].address) == a
  {
    ListMirrorsConnections(events);
    LiveIsListed(WatchAll(Watch([], false), events).entries, Live(events), Entry(AddrToStr(a), h));
    AddressRoundTrip(a);
  }

  /** The watcher leaves its loop exactly when it is asked about a handle that is not live. */
  lemma {:induction false} StopsIffNotLive(es: seq<Entry>, live: set<Entry>, h: nat)
    requires Mirrors(es, live)
    ensures Watched(Watch(es, false), Closed(h)).stopped <==> !IsLive(live, h)
    ensures Watched(Watch(es, false), Lookup(h)).stopped <==> !IsLive(live, h)
  {
    assert FindConnection(es, h) < |es| ==> es[FindConnection(es, h)] in live;
    if IsLive(live, h) {
      var p :| p in live && p.connection == h;
      LiveIsListed(es, live, p);
    }
  }

  /** silabs_ble_connect adds its pair on its own thread, possibly after the watcher has handled the open and even
      the close of the connection: the list then still mirrors the live connections exactly when that one is live. */
  lemma {:induction false} LateApiAdd(es: seq<Entry>, live: set<Entry>, a: Mac, h: nat)
    requires Mirrors(es, live)
    ensures var w := Watched(Watch(es, false), ApiConnected(a, h));
            Mirrors(w.entries, live) <==> Entry(AddrToStr(a), h) in live
  {
    var e := Entry(AddrToStr(a), h);
    var i := FindAddress(es, e.address);
    var es' := Added(es, e.address, h);
    assert es'[i] == e;
    if e in live {
      LiveIsListed(es, live, e);
      TheOnlyIndex(es, FindConnection(es, h));
      assert es' == es;
    } else {
      assert e in es';
    }
  }

  /** So an open and a close that overtake the API thread leave a stale entry behind. */
  lemma {:induction false} LateApiAddIsStale(a: Mac, h: nat)
    requires h != 0
    ensures var handled := [Event.Opened(a, h), Event.Closed(h)];
            && WellFormed(handled)
            && Live(handled) == {}
            && WatchAll(Watch([], false), handled + [ApiConnected(a, h)]).entries == [Entry(AddrToStr(a), h)]
  {
    var e := Entry(AddrToStr(a), h);
    var both := [Event.Opened(a, h), Event.Closed(h)];
    assert both[..1] == [Event.Opened(a, h)];
    OpenedOnly(a, h);
    assert e in Live(both[..1]);
    assert Live(both) == {};
    var all := both + [ApiConnected(a, h)];
    assert all[..2] == both;
    assert WatchAll(Watch([], false), both) == Watch([], false);
  }

  lemma {:induction false} OpenedOnly(a: Mac, h: nat)
    requires h != 0
    ensures WellFormed([Event.Opened(a, h)])
    ensures Live([Event.Opened(a, h)]) == {Entry(AddrToStr(a), h)}
    ensures WatchAll(Watch([], false), [Event.Opened(a, h)]) == Watch([Entry(AddrToStr(a), h)], false)
  {
    assert [Event.Opened(a, h)][..0] == [];
  }
}
