/** Emptying the GATT database: enumerate the primary services, remove them in a session, commit. */
module GattDelete {
  import opened Common
  import opened CoProcessor

  const MAX_SERVICES := 16

  /** One session's worth of session commands: every opened session is closed by exactly one successful commit or
      one abort, the abort possibly after a commit that failed. */
  ghost predicate OneSession(commands: seq<Command>) {
    || commands == [NewSession(false)]
    || commands == [NewSession(true), Commit(true)]
    || (exists ok :: commands == [NewSession(true), Abort(ok)])
    || (exists ok :: commands == [NewSession(true), Commit(false), Abort(ok)])
  }

  ghost predicate Enumerable(services: seq<Service>) {
    && Increasing(services)
    && |services| <= MAX_SERVICES
    && forall i :: 0 <= i < |services| ==> 1 <= services[i].handle < 0xffff
  }

  lemma {:induction false} LeastIs(services: seq<Service>, start: nat, i: nat)
    requires i <= |services|
    requires forall j :: 0 <= j < i ==> services[j].handle < start
    requires i < |services| ==> services[i].handle >= start
    ensures Least(services, start) == i
  {
  }

  /** How many of some services the searches find before the second one that reports nothing. */
  function Found(services: nat, misses: seq<bool>, notFound: nat): (n: nat)
    requires notFound <= 2
    ensures n <= services
    decreases services, 2 - notFound
  {
    if notFound == 2 then 0
    else if GoesWrong(misses) || services == 0 then Found(services, Later(misses), notFound + 1)
    else 1 + Found(services - 1, Later(misses), notFound)
  }

  /** The first services have been collected; start lies behind them and not behind any other. */
  ghost predicate Collected(services: seq<Service>, handles: seq<nat>, count: nat, start: nat) {
    && count <= |services| && count <= |handles|
    && (forall k :: 0 <= k < count ==> handles[k] == services[k].handle && services[k].handle < start)
    && (forall k :: count <= k < |services| ==> services[k].handle >= start)
  }

  lemma {:induction false} LeastIsNext(services: seq<Service>, handles: seq<nat>, count: nat, start: nat)
    requires Collected(services, handles, count, start)
    ensures Least(services, start) == count
  {
    LeastIs(services, start, count);
  }

  lemma {:induction false} OneMoreCollected(services: seq<Service>, handles: seq<nat>, count: nat, start: nat)
    requires Increasing(services) && Collected(services, handles, count, start)
    requires count < |services| && count < |handles|
    ensures Collected(services, handles[count := services[count].handle], count + 1, services[count].handle + 1)
  {
  }

  function Front(misses: seq<bool>, n: nat): seq<bool> {
    if n <= |misses| then misses[..n] else misses
  }

  lemma {:induction false} CountFront(misses: seq<bool>, n: nat)
    requires n > 0 && misses != []
    ensures Count(Front(misses, n)) == (if misses[0] then 1 else 0) + Count(Front(misses[1..], n - 1))
  {
    assert Front(misses, n)[1..] == Front(misses[1..], n - 1);
  }

  lemma {:induction false} FrontHasFewer(misses: seq<bool>, n: nat)
    ensures Count(Front(misses, n)) <= Count(misses)
    decreases n
  {
    if n > 0 && misses != [] {
      CountFront(misses, n);
      FrontHasFewer(misses[1..], n - 1);
    }
  }

  /** All services are found exactly when the second wrong search, if any, comes after all of them were found. */
  lemma {:induction false} FindsAllIff(services: nat, misses: seq<bool>, notFound: nat)
    requires notFound <= 1
    ensures Found(services, misses, notFound) == services
       <==> notFound + Count(Front(misses, services + 1 - notFound)) <= 1
    decreases services, 2 - notFound
  {
    if services == 0 {
      assert notFound == 1 ==> Front(misses, 0) == [];
      if misses != [] && notFound == 0 {
        CountFront(misses, 1);
        assert Front(misses[1..], 0) == [];
      }
    } else if misses == [] {
      FindsAllIff(services - 1, [], notFound);
    } else {
      CountFront(misses, services + 1 - notFound);
      if !misses[0] {
        FindsAllIff(services - 1, misses[1..], notFound);
      } else if notFound == 0 {
        FindsAllIff(services, misses[1..], 1);
      }
    }
  }

  /** One search: a service that is found is recorded, and the next search starts behind it. */
  method SearchOnce(ncp: Ncp, handles: array<nat>, count: nat, start: nat, ghost notFound: nat)
    returns (status: Status, next: nat)
    requires Enumerable(ncp.db) && handles.Length == MAX_SERVICES && notFound < 2
    requires Collected(ncp.db, handles[..], count, start)
    modifies ncp`failures, ncp`misses, handles
    ensures status == Ok || status == NotFound || status == Failed
    ensures status == Ok ==>
              && count < |ncp.db| && Collected(ncp.db, handles[..], count + 1, next)
              && Found(|ncp.db| - count, old(ncp.misses), notFound)
                 == 1 + Found(|ncp.db| - count - 1, ncp.misses, notFound)
    ensures status != Ok ==> next == start && handles[..] == old(handles[..])
    ensures status == NotFound ==>
              Found(|ncp.db| - count, old(ncp.misses), notFound) == Found(|ncp.db| - count, ncp.misses, notFound + 1)
    ensures old(ncp.failures) == [] ==> ncp.failures == [] && status != Failed
  {
    next := start;
    LeastIsNext(ncp.db, handles[..], count, start);
    var handle: nat;
    status, handle := ncp.FindAttribute(start);
    if status == Ok {
      OneMoreCollected(ncp.db, handles[..], count, start);
      handles[count] := handle;
      next := handle + 1;
    }
  }

  /** The enumeration loop.  A search that reports nothing ends it only the second time. */
  method Enumerate(ncp: Ncp, handles: array<nat>) returns (count: nat, ok: bool)
    requires ncp.sessionOpen && ncp.staged == ncp.db && Enumerable(ncp.db)
    requires handles.Length == MAX_SERVICES
    modifies ncp`failures, ncp`misses, handles
    ensures count <= |ncp.db|
    ensures ok ==> forall k :: 0 <= k < count ==> handles[k] == ncp.db[k].handle
    ensures ok ==> count == Found(|ncp.db|, old(ncp.misses), 0)
    ensures old(ncp.failures) == [] ==> ok && ncp.failures == []
  {
    var start := 1;
    var notFound: nat := 0;
    count := 0;
    while notFound < 2
      invariant notFound <= 2 && Collected(ncp.db, handles[..], count, start)
      invariant Found(|ncp.db|, old(ncp.misses), 0) == count + Found(|ncp.db| - count, ncp.misses, notFound)
      invariant old(ncp.failures) == [] ==> ncp.failures == []
      decreases |ncp.db| - count, 2 - notFound
    {
      var status;
      status, start := SearchOnce(ncp, handles, count, start, notFound);
      if status == NotFound {
        notFound := notFound + 1;
      } else if status == Ok {
        count := count + 1;
      } else {
        return count, false;
      }
    }
    ok := true;
  }

  lemma {:induction false} LastOfFront(services: seq<Service>, i: nat, k: nat)
    requires Increasing(services) && i < k <= |services|
    ensures IndexOf(services[..i + 1] + services[k..], services[i].handle) == i
    ensures Without(services[..i + 1] + services[k..], services[i].handle).Some?
    ensures Without(services[..i + 1] + services[k..], services[i].handle).value == services[..i] + services[k..]
  {
    var all := services[..i + 1] + services[k..];
    assert all[i] == services[i];
    assert forall j :: 0 <= j < i ==> all[j] == services[j];
    assert all[..i] == services[..i];
    assert all[i + 1..] == services[k..];
  }

  /** The removal loop, last service first. */
  method RemoveAll(ncp: Ncp, handles: array<nat>, count: nat, ghost all: seq<Service>) returns (ok: bool)
    requires ncp.sessionOpen && ncp.staged == all && Increasing(all)
    requires handles.Length == MAX_SERVICES && count <= |all| <= MAX_SERVICES
    requires forall k :: 0 <= k < count ==> handles[k] == all[k].handle
    modifies ncp`failures, ncp`staged
    ensures ok ==> ncp.staged == all[count..]
    ensures old(ncp.failures) == [] ==> ok && ncp.failures == []
  {
    var i: nat := count;
    assert all[..count] + all[count..] == all;
    while i > 0
      invariant i <= count && ncp.staged == all[..i] + all[count..]
      invariant old(ncp.failures) == [] ==> ncp.failures == []
    {
      i := i - 1;
      LastOfFront(all, i, count);
      var status := ncp.Stage(Without(ncp.staged, handles[i]));
      if status != Ok {
        return false;
      }
    }
    assert all[..0] + all[count..] == all[count..];
    ok := true;
  }

  /** silabs_ble_del_gattdb: on success the services that the searches found are gone, which are all of them exactly
      when at most one of the first searches, one more than there are services, went wrong; on failure the database is
      what it was. */
  method DeleteAll(ncp: Ncp) returns (code: Code, ghost commands: seq<Command>)
    requires Enumerable(ncp.db)
    modifies ncp`failures, ncp`misses, ncp`db, ncp`staged, ncp`sessionOpen, ncp`log
    ensures code == Success || code == UnknownError
    ensures ncp.log == old(ncp.log) + commands && OneSession(commands)
    ensures code == Success <==> commands == [NewSession(true), Commit(true)]
    ensures code == Success ==> !ncp.sessionOpen
    ensures code == Success ==> ncp.db == old(ncp.db)[Found(|old(ncp.db)|, old(ncp.misses), 0)..]
    ensures code == Success ==> (ncp.db == [] <==> Count(Front(old(ncp.misses), |old(ncp.db)| + 1)) <= 1)
    ensures code != Success ==> ncp.db == old(ncp.db)
    ensures old(ncp.failures) == [] ==> ncp.failures == [] && (code == Success <==> !old(ncp.sessionOpen))
  {
    ghost var all := ncp.db;
    FindsAllIff(|all|, ncp.misses, 0);
    ghost var before := ncp.log;
    var opened' := ncp.OpenSession();
    if !opened' {
      return UnknownError, [NewSession(false)];
    }
    var handles := new nat[MAX_SERVICES];
    var count, ok := Enumerate(ncp, handles);
    if !ok {
      var aborted := ncp.AbortSession();
      return UnknownError, [NewSession(true), Abort(aborted)];
    }
    ok := RemoveAll(ncp, handles, count, all);
    if !ok {
      var aborted := ncp.AbortSession();
      return UnknownError, [NewSession(true), Abort(aborted)];
    }
    var committed := ncp.CommitSession();
    if !committed {
      var aborted := ncp.AbortSession();
      return UnknownError, [NewSession(true), Commit(false), Abort(aborted)];
    }
    return Success, [NewSession(true), Commit(true)];
  }
}
