/** When the driver thread serves a requested reset: at once when it looks, next when the request falls while it
    searches for the start byte or reads a header, and after the payload when it falls inside one, if the payload ever
    comes. */
module ResetRequests {
  import opened Bgapi
  import opened SerialLine
  import opened Receiver
  import opened ReadLoops
  import opened Framing

  /** No reset is wanted or requested later. */
  ghost predicate Calm(l: LineState) {
    !l.resetWanted && !Asked(l.script)
  }

  function ResetsIn(log: seq<Mark>): nat {
    if log == [] then 0 else ResetsIn(log[..|log| - 1]) + if log[|log| - 1].WasReset? then 1 else 0
  }

  lemma {:induction false} ResetsAfter(log: seq<Mark>, mark: Mark)
    ensures ResetsIn(log + [mark]) == ResetsIn(log) + if mark.WasReset? then 1 else 0
  {
    assert (log + [mark])[..|log|] == log;
  }

  /** A later state of the thread: its history goes on, and without a request there is no reset. */
  ghost predicate Onward(s: Driver, s': Driver) {
    && s.log <= s'.log
    && (Calm(s.line) ==> Calm(s'.line) && ResetsIn(s'.log) == ResetsIn(s.log))
  }

  lemma {:induction false} CalmAfter(l: LineState, l': LineState, k: nat)
    requires Calm(l) && k <= |l.script| && l'.script == l.script[k..]
    requires l'.resetWanted == (l.resetWanted || Asked(l.script[..k]))
    ensures Calm(l')
  {
    AskedSplit(l.script, k);
  }

  lemma {:induction false} MarkOnward(s: Driver, s': Driver, mark: Mark)
    requires s'.log == s.log + [mark]
    requires Calm(s.line) ==> Calm(s'.line) && !mark.WasReset?
    ensures Onward(s, s')
  {
    ResetsAfter(s.log, mark);
  }

  lemma {:induction false} DispatchOnward(s: Driver, header: Header, kind: Kind)
    requires s.Valid()
    requires !kind.Refused? ==> kind.len <= PACKET_MEMORY
    ensures Onward(s, Dispatch(s, header, kind).0)
  {
    if !kind.Refused? {
      var k := ReceiveEnds(s.line, kind.len, []);
      var s' := Dispatch(s, header, kind).0;
      assert s'.line == Receive(s.line, kind.len, []).0;
      if Calm(s.line) {
        CalmAfter(s.line, s'.line, k);
      }
      if kind.Event? {
        MarkOnward(s, s', s'.log[|s.log|]);
      }
    }
  }

  lemma {:induction false} AfterStartOnward(s: Driver, acc: seq<Byte>)
    requires s.Valid() && |acc| < HEADER_LEN
    ensures Onward(s, AfterStart(s, acc).0)
  {
    var k := HeaderEnds(s.line, acc);
    var (l, fill) := ReadHeader(s.line, acc);
    if Calm(s.line) {
      CalmAfter(s.line, l, k);
    }
    if fill.Full? {
      DispatchOnward(s.(line := l), HeaderFrom(fill.bytes), Classify(HeaderFrom(fill.bytes)));
    }
  }

  lemma {:induction false} WaitOnward(s: Driver)
    requires s.Valid()
    ensures Onward(s, WaitMessage(s).0)
  {
    if s.booted {
      AfterStartOnward(s, []);
    } else {
      var n, k := ScanEnds(s.line);
      var (l, scanned) := Scan(s.line);
      if Calm(s.line) {
        CalmAfter(s.line, l, k);
      }
      if scanned.Found? {
        AfterStartOnward(s.(line := l), [0xa0]);
      }
    }
  }

  lemma {:induction false} TurnOnward(s: Driver)
    requires s.Valid() && s.line.script != []
    ensures Onward(s, Turn(s).0)
  {
    var wanted := s.line.resetWanted || s.line.script[0].early;
    var s' := s.(line := s.line.(resetWanted := wanted));
    if wanted {
      var (s'', done) := ResetBranch(s');
      if done {
        WaitOnward(s'');
      }
    } else {
      WaitOnward(s');
    }
  }

  lemma {:induction false} GetEventOnward(s: Driver)
    requires s.Valid()
    ensures Onward(s, GetEvent(s).0)
    decreases |s.line.script|
  {
    if s.w != s.r {
      MarkOnward(s, GetEvent(s).0, Returned(s.slots[s.r]));
    } else if s.line.script != [] {
      TurnOnward(s);
      AfterTurn(s);
      var (s', outcome) := Turn(s);
      match outcome {
        case GotResponse => MarkOnward(s', Return(s', s'.response), Returned(s'.response));
        case Nothing => GetEventOnward(s');
        case OutOfSchedule =>
      }
    }
  }

  lemma {:induction false} HandleOnward(s: Driver, p: Packet)
    requires s.Valid()
    ensures Onward(s, Handle(s, p))
  {
    if Handle(s, p).log != s.log {
      MarkOnward(s, Handle(s, p), Handle(s, p).log[|s.log|]);
    }
  }

  lemma {:induction false} DriveOnward(s: Driver)
    requires s.Valid()
    ensures Onward(s, Drive(s))
    decreases |s.line.script|, s.Queued()
  {
    GetEventOnward(s);
    var (s', some, p) := GetEvent(s);
    if some {
      HandleOnward(s', p);
      DriveOnward(Handle(s', p));
    }
  }

  /** Without a request there is no reset, in any run. */
  lemma {:induction false} NoResetUnasked(s: Driver)
    requires s.Valid() && Calm(s.line)
    ensures ResetsIn(Drive(s).log) == ResetsIn(s.log) && !Drive(s).line.resetWanted
  {
    DriveOnward(s);
  }

  /** The run goes on from where one turn of the loop has left the thread. */
  lemma {:induction false} OnwardFromTurn(s: Driver)
    requires s.Valid() && s.w == s.r && s.line.script != []
    ensures Onward(Turn(s).0, Drive(s))
  {
    AfterTurn(s);
    var (s', outcome) := Turn(s);
    match outcome {
      case GotResponse =>
        MarkOnward(s', Return(s', s'.response), Returned(s'.response));
        FromReturn(Return(s', s'.response), s'.response);
      case Nothing => DriveOnward(s');
      case OutOfSchedule =>
    }
  }

  lemma {:induction false} FromReturn(s: Driver, p: Packet)
    requires s.Valid()
    ensures Onward(s, Drive(Handle(s, p)))
  {
    HandleOnward(s, p);
    DriveOnward(Handle(s, p));
  }

  /** The next mark of the history is the reset, and the flag is down for good unless another request comes after the
      reads that the cache clean used. */
  ghost predicate Served(log: seq<Mark>, later: seq<Tick>, end: Driver) {
    log + [WasReset] <= end.log && (!Asked(later) ==> !end.line.resetWanted)
  }

  /** A thread that finds the flag up when it looks, or sees it raised just then, resets at once, if one of its next
      reads comes back short and so ends the cache clean. */
  lemma {:induction false} ServedAtOnce(s: Driver, j: nat)
    requires s.Valid() && s.w == s.r && s.line.script != [] && (s.line.resetWanted || s.line.script[0].early)
    requires FirstShort(s.line, j)
    ensures Served(s.log, s.line.script[j + 1..], Drive(s))
  {
    var s' := s.(line := s.line.(resetWanted := true));
    SameShort(s.line, s'.line, j);
    CleanEnds(s'.line, j);
    var after := ResetBranch(s').0;
    assert Turn(s) == WaitMessage(after);
    WaitOnward(after);
    OnwardFromTurn(s);
  }

  lemma {:induction false} SameShort(l: LineState, l': LineState, j: nat)
    requires l.script == l'.script && |l.rx| == |l'.rx| && FirstShort(l, j)
    ensures FirstShort(l', j)
  {
    forall i | 0 <= i < j ensures TakesFour(l', i) {
      assert TakesFour(l, i);
    }
  }

  /** Otherwise it goes on cleaning. */
  lemma {:induction false} CleansForEver(s: Driver)
    requires s.Valid() && s.w == s.r && s.line.script != [] && (s.line.resetWanted || s.line.script[0].early)
    requires AllFour(s.line)
    ensures Drive(s).log == s.log && Drive(s).line.resetWanted
  {
    var s' := s.(line := s.line.(resetWanted := true));
    forall j | 0 <= j < |s'.line.script| ensures TakesFour(s'.line, j) {
      assert TakesFour(s.line, j);
    }
    CleanGoesOn(s'.line);
    AfterTurn(s);
    assert ResetBranch(s') == (s'.(line := Clean(s'.line).0), false);
    assert Turn(s) == (s'.(line := Clean(s'.line).0), OutOfSchedule);
  }

  /** A wait that was given up: the thread is back where it looks at the flag. */
  lemma {:induction false} BackToTheTop(s: Driver, l: LineState)
    requires s.Valid() && s.w == s.r && s.line.script != []
    requires Turn(s) == (s.(line := l), Nothing)
    ensures Drive(s) == Drive(s.(line := l))
  {
    AfterTurn(s);
  }

  // Where the request falls.

  /** The first of these reads at or before which a reset is wanted is read k. */
  ghost predicate FirstAsked(l: LineState, k: nat) {
    && k < |l.script|
    && if l.resetWanted then k == 0
       else !Asked(l.script[..k]) && (l.script[k].early || l.script[k].late)
  }

  /** What the search takes with its first k + 1 reads, one byte each. */
  function Searched(l: LineState, k: nat): nat
    requires k < |l.script|
  {
    Min(Offers(l.script[..k + 1]), |l.rx|)
  }

  lemma {:induction false} SearchEndsThere(l: LineState, k: nat, n: nat, after: (LineState, Scanned), used: nat)
    requires FirstAsked(l, k) && 0xa0 !in l.rx[..Searched(l, k)]
    requires ScanEndsAt(l, n, after, used)
    ensures used == k + 1 && after == (LineState(l.rx[Searched(l, k)..], l.script[k + 1..], true), Interrupted)
  {
    if used > k + 1 {
      AskedLater(l, k, used - 1);
      assert false;
    } else {
      CountsGrow(l.script, used, k + 1);
      assert n <= Searched(l, k);
      assert 0xa0 !in l.rx[..n] by {
        assert l.rx[..n] <= l.rx[..Searched(l, k)];
      }
      if used <= k {
        NotAskedYet(l, k, used);
      } else {
        AskedLater(l, k, k + 1);
      }
    }
  }

  lemma {:induction false} AskedLater(l: LineState, k: nat, b: nat)
    requires FirstAsked(l, k) && k < b <= |l.script|
    ensures l.resetWanted || Asked(l.script[..b])
  {
    if !l.resetWanted {
      AskedBy(l.script, k, b);
    }
  }

  lemma {:induction false} NotAskedYet(l: LineState, k: nat, a: nat)
    requires FirstAsked(l, k) && a <= k
    ensures !Asked(l.script[..a])
  {
    CountsGrow(l.script, a, k);
    if a == 0 {
      assert l.script[..0] == [];
    }
  }

  /** A header of which so many bytes are missing is not whole before read k. */
  ghost predicate HeaderOpen(l: LineState, missing: nat, k: nat) {
    && k < |l.script| && 0 < missing <= HEADER_LEN
    && AllData(l.script[..k]) && Min(Offered(l.script[..k]), |l.rx|) < missing
  }

  /** What the header loop takes with its first k + 1 reads. */
  function HeaderTook(l: LineState, missing: nat, k: nat): nat
    requires k < |l.script|
  {
    Min(Offered(l.script[..k + 1]), Min(missing, |l.rx|))
  }

  lemma {:induction false} HeaderUsed(l: LineState, want: nat, k: nat, got: nat, after: (LineState, Fill), used: nat)
    requires FirstAsked(l, k) && HeaderOpen(l, want, k) && HeaderEndsAt(l, want, got, after, used)
    ensures used == k + 1
  {
    if used > k + 1 {
      AskedLater(l, k, used - 1);
    } else if used <= k {
      NotAskedYet(l, k, used);
      CountsGrow(l.script, used, k);
      StillThere(l.script, used - 1, k);
    }
  }

  lemma {:induction false} HeaderEndsThere(l: LineState, acc: seq<Byte>, k: nat, after: (LineState, Fill), used: nat)
    requires |acc| < HEADER_LEN && FirstAsked(l, k) && HeaderOpen(l, HEADER_LEN - |acc|, k)
    requires HeaderEnded(l, acc, after, used)
    ensures after.1.Lost?
    ensures after.0 == LineState(l.rx[HeaderTook(l, HEADER_LEN - |acc|, k)..], l.script[k + 1..], true)
  {
    HeaderUsed(l, HEADER_LEN - |acc|, k, |after.1.bytes| - |acc|, after, used);
    AskedLater(l, k, k + 1);
    TookFront(l, acc, after);
  }

  lemma {:induction false} TookFront(l: LineState, acc: seq<Byte>, after: (LineState, Fill))
    requires |acc| <= |after.1.bytes| && after.1.bytes + after.0.rx == acc + l.rx
    ensures |after.1.bytes| - |acc| <= |l.rx| && after.0.rx == l.rx[|after.1.bytes| - |acc|..]
  {
    var got := |after.1.bytes| - |acc|;
    assert after.0.rx == (acc + l.rx)[|after.1.bytes|..] == l.rx[got..];
  }

  /** One turn of a thread that does not find the flag up is a wait. */
  lemma {:induction false} TurnWaits(s: Driver, k: nat)
    requires s.Valid() && s.line.script != [] && !s.line.resetWanted && FirstAsked(s.line, k)
    requires k > 0 || !s.line.script[0].early
    ensures Turn(s) == WaitMessage(s)
  {
    if k > 0 {
      CountFirst(s.line.script, k - 1, s.line.script[0], s.line.script[1..][..k - 1]);
    }
    assert s == s.(line := s.line.(resetWanted := false));
  }

  /** The request falls during read k of a search that has not met a start byte: the search ends with that read, and the
      thread resets next, if a read after it ends the cache clean. */
  lemma {:induction false} RequestWhileSearching(s: Driver, k: nat, j: nat)
    requires s.Valid() && s.w == s.r && !s.booted && !s.line.resetWanted
    requires FirstAsked(s.line, k) && (k > 0 || !s.line.script[0].early)
    requires 0xa0 !in s.line.rx[..Searched(s.line, k)]
    requires FirstShort(LineState(s.line.rx[Searched(s.line, k)..], s.line.script[k + 1..], true), j)
    ensures Served(s.log, s.line.script[k + 1..][j + 1..], Drive(s))
  {
    TurnWaits(s, k);
    var n, used := ScanEnds(s.line);
    SearchEndsThere(s.line, k, n, Scan(s.line), used);
    var l := LineState(s.line.rx[Searched(s.line, k)..], s.line.script[k + 1..], true);
    BackToTheTop(s, l);
    ServedAtOnce(s.(line := l), j);
  }

  /** The request falls during read k of the header of a booted thread, before the header was whole. */
  lemma {:induction false} RequestInHeader(s: Driver, k: nat, j: nat)
    requires s.Valid() && s.w == s.r && s.booted && !s.line.resetWanted
    requires FirstAsked(s.line, k) && (k > 0 || !s.line.script[0].early)
    requires HeaderOpen(s.line, HEADER_LEN, k)
    requires FirstShort(LineState(s.line.rx[HeaderTook(s.line, HEADER_LEN, k)..], s.line.script[k + 1..], true), j)
    ensures Served(s.log, s.line.script[k + 1..][j + 1..], Drive(s))
  {
    TurnWaits(s, k);
    var used := HeaderEnds(s.line, []);
    HeaderEndsThere(s.line, [], k, ReadHeader(s.line, []), used);
    var l := LineState(s.line.rx[HeaderTook(s.line, HEADER_LEN, k)..], s.line.script[k + 1..], true);
    BackToTheTop(s, l);
    ServedAtOnce(s.(line := l), j);
  }

  /** Read h of a search takes the first start byte, the n-th byte of the line, and no reset is wanted before it. */
  ghost predicate StartsAt(l: LineState, h: nat, n: nat) {
    && h < |l.script| && !l.resetWanted && !Asked(l.script[..h])
    && l.script[h].got.UpTo? && l.script[h].got.n >= 1 && Offers(l.script[..h]) == n - 1
    && 0 < n <= |l.rx| && l.rx[n - 1] == 0xa0 && 0xa0 !in l.rx[..n - 1]
  }

  /** The line when the start byte has just been taken. */
  function AfterStartByte(l: LineState, h: nat, n: nat): LineState
    requires h < |l.script| && n <= |l.rx|
  {
    LineState(l.rx[n..], l.script[h + 1..], l.script[h].early || l.script[h].late)
  }

  lemma {:induction false} OffersAt(ts: seq<Tick>, h: nat)
    requires h < |ts|
    ensures Offers(ts[..h + 1]) == Offers(ts[..h]) + if ts[h].got.UpTo? && ts[h].got.n >= 1 then 1 else 0
    ensures Asked(ts[..h + 1]) <==> Asked(ts[..h]) || ts[h].early || ts[h].late
    decreases h
  {
    CountFirst(ts, h, ts[0], ts[1..][..h]);
    if h > 0 {
      CountFirst(ts, h - 1, ts[0], ts[1..][..h - 1]);
      OffersAt(ts[1..], h - 1);
    } else {
      assert ts[..0] == [];
      assert ts[1..][..0] == [];
    }
  }

  lemma {:induction false} SearchFindsThere(
    l: LineState, h: nat, n: nat, m: nat, after: (LineState, Scanned), used: nat)
    requires StartsAt(l, h, n) && ScanEndsAt(l, m, after, used)
    ensures after == (AfterStartByte(l, h, n), Found)
  {
    OffersAt(l.script, h);
    if used > h + 1 {
      CountsGrow(l.script, h + 1, used);
      if after.1.Found? {
        CountsGrow(l.script, h + 1, used - 1);
        StillThere(l.rx, n - 1, m - 1);
      } else {
        StillThere(l.rx, n - 1, m);
      }
      assert false;
    } else if used <= h {
      CountsGrow(l.script, used, h);
      if after.1.Found? {
        StillThere(l.rx, m - 1, n - 1);
      }
      assert false;
    } else if !after.1.Found? {
      StillThere(l.rx, n - 1, m);
      assert false;
    }
  }

  /** The request falls when an unbooted thread has met a start byte, with it or during read k of the rest of the
      header, before the header was whole. */
  lemma {:induction false} RequestAfterStartByte(s: Driver, h: nat, n: nat, k: nat, j: nat)
    requires s.Valid() && s.w == s.r && !s.booted && s.line.script != [] && !s.line.script[0].early
    requires StartsAt(s.line, h, n)
    requires FirstAsked(AfterStartByte(s.line, h, n), k) && HeaderOpen(AfterStartByte(s.line, h, n), HEADER_LEN - 1, k)
    requires FirstShort(AfterOpenHeader(AfterStartByte(s.line, h, n), k), j)
    ensures Served(s.log, AfterStartByte(s.line, h, n).script[k + 1..][j + 1..], Drive(s))
  {
    assert s == s.(line := s.line.(resetWanted := false));
    var m, used := ScanEnds(s.line);
    SearchFindsThere(s.line, h, n, m, Scan(s.line), used);
    var l := AfterStartByte(s.line, h, n);
    var more := HeaderEnds(l, [0xa0]);
    HeaderEndsThere(l, [0xa0], k, ReadHeader(l, [0xa0]), more);
    assert Turn(s) == (s.(line := AfterOpenHeader(l, k)), Nothing);
    BackToTheTop(s, AfterOpenHeader(l, k));
    ServedAtOnce(s.(line := AfterOpenHeader(l, k)), j);
  }

  /** The line when the rest of a header has been given up at read k. */
  function AfterOpenHeader(l: LineState, k: nat): LineState
    requires k < |l.script|
  {
    LineState(l.rx[HeaderTook(l, HEADER_LEN - 1, k)..], l.script[k + 1..], true)
  }

  /** The first h reads bring a header and no less would; no reset is wanted during them. */
  ghost predicate HeaderWhole(l: LineState, h: nat) {
    && 0 < h <= |l.script| && !l.resetWanted && !Asked(l.script[..h]) && AllData(l.script[..h])
    && Offered(l.script[..h - 1]) < HEADER_LEN <= Offered(l.script[..h]) && HEADER_LEN <= |l.rx|
  }

  lemma {:induction false} HeaderIsWhole(l: LineState, h: nat, after: (LineState, Fill), used: nat)
    requires HeaderWhole(l, h) && HeaderEnded(l, [], after, used)
    ensures after == (LineState(l.rx[HEADER_LEN..], l.script[h..], false), Full(l.rx[..HEADER_LEN]))
  {
    if used < h {
      CountsGrow(l.script, used, h - 1);
      CountsGrow(l.script, used, h);
      StillThere(l.script, used - 1, h);
      assert false;
    } else if used > h {
      CountsGrow(l.script, h, used - 1);
      assert false;
    } else {
      assert l.script[..h][h - 1] == l.script[h - 1];
      TookFront(l, [], after);
      assert after.1.bytes == ([] + l.rx)[..|after.1.bytes|] == l.rx[..HEADER_LEN];
    }
  }

  /** The first e reads bring so many bytes and no less would. */
  ghost predicate PayloadWhole(l: LineState, len: nat, e: nat) {
    && e <= |l.script| && NoneBroken(l.script[..e])
    && len <= Offered(l.script[..e]) && (e > 0 ==> Offered(l.script[..e - 1]) < len) && len <= |l.rx|
  }

  lemma {:induction false} PayloadIsWhole(l: LineState, len: nat, e: nat, after: (LineState, Fill), used: nat)
    requires PayloadWhole(l, len, e) && ReceiveEnded(l, len, [], after, used)
    requires after.1.bytes + after.0.rx == [] + l.rx
    ensures after == (LineState(l.rx[len..], l.script[e..], l.resetWanted || Asked(l.script[..e])), Full(l.rx[..len]))
  {
    if used < e {
      CountsGrow(l.script, used, e - 1);
      StillThere(l.script, used - 1, e);
      assert false;
    } else if used > e {
      CountsGrow(l.script, e, used - 1);
      assert false;
    } else {
      assert e > 0 ==> l.script[..e][e - 1] == l.script[e - 1];
      TookFront(l, [], after);
      assert after.1.bytes == ([] + l.rx)[..|after.1.bytes|] == l.rx[..len];
    }
  }

  /** The thread has handed a message out and is back where it looks at the flag. */
  ghost predicate HandedOut(s: Driver, s': Driver, p: Packet, header: Header, payload: seq<Byte>, l: LineState) {
    && s'.Valid() && s'.w == s'.r && s'.line == l
    && Framing.Holds(p, header, payload) && s.log <= s'.log
    && |s'.log| <= |s.log| + 3 && Returned(p) in s'.log[|s.log|..] && WasReset !in s'.log[|s.log|..]
  }

  lemma {:induction false} HandedOutThen(
    s: Driver, s1: Driver, p: Packet, header: Header, payload: seq<Byte>, marks: seq<Mark>)
    requires s1.Valid() && s1.w == s1.r && Framing.Holds(p, header, payload)
    requires s1.log == s.log + marks && |marks| <= 2 && Returned(p) in marks && WasReset !in marks
    ensures HandedOut(s, Handle(s1, p), p, header, payload, s1.line)
  {
    var s2 := Handle(s1, p);
    var more := s2.log[|s1.log|..];
    assert s2.log == s1.log + more && |more| <= 1 && WasReset !in more;
    assert s2.log[|s.log|..] == marks + more;
  }

  lemma {:induction false} HeaderOff(l: LineState, header: Header, left: seq<Byte>, h: nat)
    requires l.rx == header.Bytes() + left && HeaderWhole(l, h)
    ensures ReadHeader(l, []) == (LineState(left, l.script[h..], false), Full(header.Bytes()))
  {
    var used := HeaderEnds(l, []);
    HeaderIsWhole(l, h, ReadHeader(l, []), used);
    assert l.rx[HEADER_LEN..] == left && l.rx[..HEADER_LEN] == header.Bytes();
  }

  lemma {:induction false} TurnDispatches(s: Driver, header: Header, left: seq<Byte>, h: nat)
    requires s.Valid() && s.booted && s.line.rx == header.Bytes() + left && HeaderWhole(s.line, h)
    ensures s.line.script != []
    ensures Turn(s) == Dispatch(s.(line := LineState(left, s.line.script[h..], false)), header, Classify(header))
  {
    CountFirst(s.line.script, h - 1, s.line.script[0], s.line.script[1..][..h - 1]);
    assert s == s.(line := s.line.(resetWanted := false));
    HeaderOff(s.line, header, left, h);
    assert HeaderFrom(header.Bytes()) == header;
  }

  lemma {:induction false} ResponseOut(
    s: Driver, header: Header, payload: seq<Byte>, rest: seq<Byte>, h: nat, l: LineState)
    returns (p: Packet, s1: Driver)
    requires s.Valid() && s.w == s.r && s.booted && s.line.rx == header.Bytes() + (payload + rest)
    requires HeaderWhole(s.line, h) && |payload| <= PACKET_MEMORY && Classify(header) == Response(|payload|)
    requires Receive(LineState(payload + rest, s.line.script[h..], false), |payload|, []) == (l, Full(payload))
    ensures s1.Valid() && s1.w == s1.r && s1.line == l && s1.log == s.log + [Returned(p)]
    ensures Framing.Holds(p, header, payload) && GetEvent(s) == (s1, true, p)
  {
    TurnDispatches(s, header, payload + rest, h);
    AfterTurn(s);
    p := Packet(header, Overwrite(s.response.memory, payload));
    s1 := Return(s.(line := l, response := p), p);
  }

  lemma {:induction false} EventOut(
    s: Driver, header: Header, payload: seq<Byte>, rest: seq<Byte>, h: nat, l: LineState)
    returns (p: Packet, s1: Driver)
    requires s.Valid() && s.w == s.r && s.booted && s.line.rx == header.Bytes() + (payload + rest)
    requires HeaderWhole(s.line, h) && |payload| <= PACKET_MEMORY && Classify(header) == Event(|payload|)
    requires Receive(LineState(payload + rest, s.line.script[h..], false), |payload|, []) == (l, Full(payload))
    ensures s1.Valid() && s1.w == s1.r && s1.line == l
    ensures s1.log == s.log + [Accepted(header, payload), Returned(p)]
    ensures Framing.Holds(p, header, payload) && GetEvent(s) == (s1, true, p)
  {
    TurnDispatches(s, header, payload + rest, h);
    AfterTurn(s);
    p := Packet(header, Overwrite(s.slots[s.w].memory, payload));
    var stored := s.(line := l, slots := s.slots[s.w := p], w := Advance(s.w),
                     log := s.log + [Accepted(header, payload)]);
    s1 := Return(stored.(r := Advance(s.r)), p);
    assert GetEvent(stored) == (s1, true, p);
    assert s1.log == s.log + [Accepted(header, payload), Returned(p)];
  }

  /** A booted thread takes a whole message off the line although a reset is requested inside its payload. */
  lemma {:induction false} PayloadGoesFirst(
    s: Driver, header: Header, payload: seq<Byte>, rest: seq<Byte>, h: nat, e: nat)
    returns (p: Packet, s': Driver)
    requires s.Valid() && s.w == s.r && s.booted && s.line.rx == header.Bytes() + (payload + rest)
    requires Classify(header) == Event(|payload|) || Classify(header) == Response(|payload|)
    requires HeaderWhole(s.line, h)
    requires PayloadWhole(LineState(payload + rest, s.line.script[h..], false), |payload|, e)
    ensures HandedOut(s, s', p, header, payload,
                      LineState(rest, s.line.script[h..][e..], Asked(s.line.script[h..][..e])))
    ensures Drive(s) == Drive(s')
  {
    var l := LineState(payload + rest, s.line.script[h..], false);
    var l' := LineState(rest, l.script[e..], Asked(l.script[..e]));
    PayloadOff(l, payload, rest, e);
    var s1: Driver;
    if Classify(header).Response? {
      p, s1 := ResponseOut(s, header, payload, rest, h, l');
      HandedOutThen(s, s1, p, header, payload, [Returned(p)]);
    } else {
      p, s1 := EventOut(s, header, payload, rest, h, l');
      HandedOutThen(s, s1, p, header, payload, [Accepted(header, payload), Returned(p)]);
    }
    s' := Handle(s1, p);
  }

  lemma {:induction false} PayloadOff(l: LineState, payload: seq<Byte>, rest: seq<Byte>, e: nat)
    requires l.rx == payload + rest && !l.resetWanted && PayloadWhole(l, |payload|, e)
    ensures Receive(l, |payload|, []) == (LineState(rest, l.script[e..], Asked(l.script[..e])), Full(payload))
  {
    var used := ReceiveEnds(l, |payload|, []);
    PayloadIsWhole(l, |payload|, e, Receive(l, |payload|, []), used);
    assert l.rx[|payload|..] == rest && l.rx[..|payload|] == payload;
  }

  lemma {:induction false} FrameParts(m: Message, rest: seq<Byte>)
    ensures m.Frame() + rest == m.Head().Bytes() + (m.payload + rest)
  {
  }

  /** The request falls inside a payload: the message is handed out first, and the reset is the next mark after that. */
  lemma {:induction false} RequestInPayload(s: Driver, m: Message, rest: seq<Byte>, h: nat, e: nat, j: nat)
    returns (p: Packet, s': Driver)
    requires s.Valid() && s.w == s.r && s.booted && m.Valid() && s.line.rx == m.Frame() + rest
    requires HeaderWhole(s.line, h)
    requires PayloadWhole(LineState(m.payload + rest, s.line.script[h..], false), |m.payload|, e)
    requires Asked(s.line.script[h..][..e])
    requires FirstShort(LineState(rest, s.line.script[h..][e..], true), j)
    ensures HandedOut(s, s', p, m.Head(), m.payload, LineState(rest, s.line.script[h..][e..], true))
    ensures Served(s'.log, s.line.script[h..][e..][j + 1..], Drive(s))
  {
    MessageRoundTrip(m);
    FrameParts(m, rest);
    p, s' := PayloadGoesFirst(s, m.Head(), m.payload, rest, h, e);
    ServedAtOnce(s', j);
  }

  /** But if the payload never comes, no reset is served, however many reads and requests there are: the payload read
      does not look at the flag. */
  lemma {:induction false} MissingPayloadBlocks(s: Driver, m: Message, part: seq<Byte>, h: nat)
    requires s.Valid() && s.w == s.r && s.booted && m.Valid() && |part| < |m.payload|
    requires s.line.rx == m.Head().Bytes() + part
    requires HeaderWhole(s.line, h) && NoneBroken(s.line.script[h..])
    ensures ResetsIn(Drive(s).log) == ResetsIn(s.log)
    ensures Drive(s).line.resetWanted == Asked(s.line.script)
  {
    TurnDispatches(s, m.Head(), part, h);
    MessageRoundTrip(m);
    PayloadSticks(LineState(part, s.line.script[h..], false), |m.payload|);
    AskedSplit(s.line.script, h);
    SticksInDispatch(s.(line := LineState(part, s.line.script[h..], false)), m.Head(), Classify(m.Head()));
    AfterTurn(s);
  }

  lemma {:induction false} SticksInDispatch(s: Driver, header: Header, kind: Kind)
    requires s.Valid() && !kind.Refused? && kind.len <= PACKET_MEMORY && Receive(s.line, kind.len, []).1.Stuck?
    ensures Dispatch(s, header, kind).1.OutOfSchedule?
    ensures Dispatch(s, header, kind).0.line == Receive(s.line, kind.len, []).0
    ensures ResetsIn(Dispatch(s, header, kind).0.log) == ResetsIn(s.log)
  {
    var s' := Dispatch(s, header, kind).0;
    if s'.log != s.log {
      ResetsAfter(s.log, s'.log[|s.log|]);
    }
  }

  lemma {:induction false} PayloadSticks(l: LineState, len: nat)
    requires |l.rx| < len && NoneBroken(l.script) && !l.resetWanted
    ensures Receive(l, len, []).1.Stuck? && Receive(l, len, []).0.resetWanted == Asked(l.script)
  {
    var k := ReceiveEnds(l, len, []);
    assert l.script[..|l.script|] == l.script;
  }

  /** A module that sends nothing while a reset is requested at the first read: with one more read the reset is served.
      */
  lemma {:induction false} ServedInSilence(more: seq<Tick>)
    requires more != [] && !Asked(more)
    ensures [WasReset] <= Drive(PowerOn([], [Tick(UpTo(0), false, true)] + more)).log
    ensures !Drive(PowerOn([], [Tick(UpTo(0), false, true)] + more)).line.resetWanted
  {
    var s := PowerOn([], [Tick(UpTo(0), false, true)] + more);
    assert s.line.script[..0] == [] && s.line.script[1..] == more;
    assert Searched(s.line, 0) == 0;
    AskedSplit(more, 1);
    RequestWhileSearching(s, 0, 0);
    assert [] + [WasReset] == [WasReset];
  }
}
