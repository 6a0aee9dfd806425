/** The overwriting ring between the scan callback and the reader, against the log of everything written. */
module IBeaconRing {
  import opened Bgapi
  import opened HexCodec
  import opened IBeaconPacket
  import opened Common

  const SLOTS: nat := 1024

  datatype Op = Collect(report: Report) | Poll

  /** Every accepted report in order, and how many reads have succeeded. */
  datatype Log = Log(writes: seq<Report>, taken: nat) {
    predicate Valid() {
      taken <= |writes| && forall i :: 0 <= i < |writes| ==> IsIBeacon(writes[i].adv)
    }

    function Backlog(): nat
      requires Valid()
    {
      |writes| - taken
    }
  }

  /** The index of the newest of n writes that lies in the same slot as index k. */
  function Newest(n: nat, k: nat): (j: nat)
    requires k < n
    ensures k <= j < n && n - j <= SLOTS && j % SLOTS == k % SLOTS
    ensures forall i :: j < i < n ==> i % SLOTS != k % SLOTS
  {
    NewestIsLast(n, k);
    k + (n - 1 - k) / SLOTS * SLOTS
  }

  lemma {:induction false} NewestIsLast(n: nat, k: nat)
    requires k < n
    ensures var j := k + (n - 1 - k) / SLOTS * SLOTS; k <= j < n && n - j <= SLOTS && j % SLOTS == k % SLOTS
    ensures var j := k + (n - 1 - k) / SLOTS * SLOTS; forall i :: j < i < n ==> i % SLOTS != k % SLOTS
  {
  }

  function Collected(log: Log, report: Report): (after: Log)
    requires log.Valid()
    ensures after.Valid()
  {
    if IsIBeacon(report.adv) then log.(writes := log.writes + [report]) else log
  }

  /** What a read finds: nothing when the two counters agree, which is when the backlog is a multiple of the size. */
  function Found(log: Log): (report: Option<Report>)
    requires log.Valid()
    ensures report.Some? ==> IsIBeacon(report.value.adv)
  {
    if log.Backlog() % SLOTS == 0 then None else Some(log.writes[Newest(|log.writes|, log.taken)])
  }

  function Polled(log: Log): (after: Log)
    requires log.Valid()
    ensures after.Valid()
  {
    if Found(log).None? then log else log.(taken := log.taken + 1)
  }

  function Step(log: Log, op: Op): (after: Log)
    requires log.Valid()
    ensures after.Valid()
  {
    match op
    case Collect(report) => Collected(log, report)
    case Poll => Polled(log)
  }

  function Run(log: Log, ops: seq<Op>): (after: Log)
    requires log.Valid()
    ensures after.Valid()
    decreases |ops|
  {
    if ops == [] then log else Run(Step(log, ops[0]), ops[1..])
  }

  function Answer(log: Log, op: Op): seq<Report>
    requires log.Valid()
  {
    if op.Poll? && Found(log).Some? then [Found(log).value] else []
  }

  /** The reports the successful reads of a run return, in order. */
  function Reads(log: Log, ops: seq<Op>): seq<Report>
    requires log.Valid()
    decreases |ops|
  {
    if ops == [] then [] else Answer(log, ops[0]) + Reads(Step(log, ops[0]), ops[1..])
  }

  // The ring itself.

  /** Each slot holds the newest write whose index is congruent to the slot's. */
  ghost predicate Holds(slots: seq<Report>, writes: seq<Report>) {
    && |slots| == SLOTS
    && forall k: nat :: k < SLOTS && k < |writes| ==> slots[k] == writes[Newest(|writes|, k)]
  }

  lemma {:induction false} Written(slots: seq<Report>, writes: seq<Report>, report: Report)
    requires Holds(slots, writes)
    ensures Holds(slots[|writes| % SLOTS := report], writes + [report])
  {
    var n, slots', writes' := |writes|, slots[|writes| % SLOTS := report], writes + [report];
    forall k: nat | k < SLOTS && k < |writes'| ensures slots'[k] == writes'[Newest(|writes'|, k)] {
      OneMoreWrite(n, k);
    }
  }

  lemma {:induction false} ReadSlot(slots: seq<Report>, log: Log)
    requires Holds(slots, log.writes) && log.Valid() && Found(log).Some?
    ensures slots[log.taken % SLOTS] == Found(log).value && IsIBeacon(Found(log).value.adv)
  {
    SameSlot(|log.writes|, log.taken);
  }

  class Ring {
    var wCount: nat
    var rCount: nat
    const data: array<Report>
    ghost var log: Log

    ghost predicate Valid()
      reads this, data
    {
      && data.Length == SLOTS
      && log.Valid()
      && wCount == |log.writes| % SLOTS
      && rCount == log.taken % SLOTS
      && Holds(data[..], log.writes)
    }

    constructor ()
      ensures Valid() && fresh(data) && log == Log([], 0)
    {
      wCount, rCount := 0, 0;
      data := new Report[SLOTS](i => Report([0, 0, 0, 0, 0, 0], 0, 0, 0, 0, []));
      log := Log([], 0);
    }

    method DataCollect(report: Report)
      requires Valid()
      modifies this`wCount, this`log, data
      ensures Valid() && log == Collected(old(log), report)
    {
      if !IsIBeacon(report.adv) {
        return;
      }
      Written(data[..], log.writes, report);
      NextSlot(|log.writes|);
      data[wCount] := report;
      wCount := (wCount + 1) % SLOTS;
      log := log.(writes := log.writes + [report]);
    }

    method GetVendor() returns (beacon: Option<Beacon>)
      requires Valid()
      modifies this`rCount, this`log
      ensures Valid() && log == Polled(old(log))
      ensures beacon.Some? <==> Found(old(log)).Some?
      ensures beacon.Some? ==> Tells(beacon.value, Found(old(log)).value)
      ensures 0 < old(log).Backlog() < SLOTS ==>
                beacon.Some? && Tells(beacon.value, old(log).writes[old(log).taken])
    {
      OldestUnreadIff(log);
      SameSlot(|log.writes|, log.taken);
      if rCount == wCount {
        return None;
      }
      ReadSlot(data[..], log);
      DecodeTells(data[rCount]);
      beacon := Some(Decode(data[rCount]));
      Take();
    }

    method Take()
      requires Valid() && Found(log).Some?
      modifies this`rCount, this`log
      ensures Valid() && log == Polled(old(log))
    {
      NextSlot(log.taken);
      rCount := (rCount + 1) % SLOTS;
      log := log.(taken := log.taken + 1);
    }
  }

  lemma {:induction false} NextSlot(k: nat)
    ensures (k % SLOTS + 1) % SLOTS == (k + 1) % SLOTS
  {
  }

  lemma {:induction false} OneMoreWrite(n: nat, k: nat)
    requires k < SLOTS && k < n + 1
    ensures k == n % SLOTS ==> Newest(n + 1, k) == n
    ensures k != n % SLOTS ==> k < n && Newest(n + 1, k) == Newest(n, k)
  {
    NewestIsLast(n + 1, k);
    if k != n % SLOTS {
      NewestIsLast(n, k);
    }
  }

  /** The counters agree exactly when the backlog is a multiple of the size; otherwise the slot at the read counter
      holds the newest write whose index is congruent to the number of reads so far. */
  lemma {:induction false} SameSlot(n: nat, taken: nat)
    requires taken <= n
    ensures taken % SLOTS == n % SLOTS <==> (n - taken) % SLOTS == 0
    ensures taken < n ==> taken % SLOTS < n && Newest(n, taken % SLOTS) == Newest(n, taken)
  {
    Congruent(taken, n);
    if taken < n {
      var slot := taken % SLOTS;
      assert slot <= taken;
      OnePerWindow(n, Newest(n, taken), Newest(n, slot));
    }
  }

  lemma {:induction false} Congruent(a: nat, b: nat)
    requires a <= b
    ensures a % SLOTS == b % SLOTS <==> (b - a) % SLOTS == 0
  {
    var qa, qb, ra, rb := a / SLOTS, b / SLOTS, a % SLOTS, b % SLOTS;
    assert b - a == (qb - qa) * SLOTS + (rb - ra);
    if ra <= rb {
      Remainder(b - a, qb - qa, rb - ra);
    } else {
      Remainder(b - a, qb - qa - 1, rb - ra + SLOTS);
    }
  }

  lemma {:induction false} Remainder(x: int, q: int, r: int)
    requires x == q * SLOTS + r && 0 <= r < SLOTS
    ensures x % SLOTS == r
  {
  }

  lemma {:induction false} OnePerWindow(n: nat, i: nat, j: nat)
    requires n - SLOTS <= i < n && n - SLOTS <= j < n && i % SLOTS == j % SLOTS
    ensures i == j
  {
    assert i - j == (i / SLOTS - j / SLOTS) * SLOTS;
  }

  // Properties of whole runs.

  /** A read returns the oldest unread report, by position, exactly when fewer than 1024 are unread. */
  lemma {:induction false} OldestUnreadIff(log: Log)
    requires log.Valid()
    ensures Found(log).Some? && Newest(|log.writes|, log.taken) == log.taken <==> 0 < log.Backlog() < SLOTS
  {
    if log.taken < |log.writes| {
      NewestIsLast(|log.writes|, log.taken);
    }
  }

  /** Once 1024 reports are unread the reader never gets below 1024 again, whatever happens. */
  lemma {:induction false} NeverCatchesUp(log: Log, ops: seq<Op>)
    requires log.Valid() && log.Backlog() >= SLOTS
    ensures Run(log, ops).Backlog() >= SLOTS
    decreases |ops|
  {
    if ops != [] {
      NeverCatchesUp(Step(log, ops[0]), ops[1..]);
    }
  }

  lemma {:induction false} FirstOfSlice<T>(s: seq<T>, i: nat, j: nat)
    requires i < j <= |s|
    ensures s[i..j] == [s[i]] + s[i + 1..j]
  {
  }

  lemma {:induction false} StepInOrder(log: Log, op: Op, end: Log, rest: seq<Report>)
    requires log.Valid() && end.Valid() && log.Backlog() < SLOTS
    requires Step(log, op).writes <= end.writes && Step(log, op).taken <= end.taken
    requires rest == end.writes[Step(log, op).taken..end.taken]
    ensures log.writes <= end.writes && log.taken <= end.taken
    ensures Answer(log, op) + rest == end.writes[log.taken..end.taken]
  {
    if op.Poll? && Found(log).Some? {
      OldestUnreadIff(log);
      assert end.writes[log.taken] == log.writes[log.taken];
      FirstOfSlice(end.writes, log.taken, end.taken);
    } else {
      assert [] + rest == rest;
    }
  }

  /** If the backlog is below 1024 at the end of a run, it was below 1024 all along, nothing was skipped or repeated,
      and the reads are the next reports written, in the order of writing. */
  lemma {:induction false} ReadsInOrder(log: Log, ops: seq<Op>)
    requires log.Valid() && Run(log, ops).Backlog() < SLOTS
    ensures log.Backlog() < SLOTS
    ensures log.writes <= Run(log, ops).writes && log.taken <= Run(log, ops).taken
    ensures Reads(log, ops) == Run(log, ops).writes[log.taken..Run(log, ops).taken]
    decreases |ops|
  {
    if log.Backlog() >= SLOTS {
      NeverCatchesUp(log, ops);
    }
    if ops != [] {
      var next, rest := Step(log, ops[0]), ops[1..];
      ReadsInOrder(next, rest);
      StepInOrder(log, ops[0], Run(next, rest), Reads(next, rest));
    }
  }

  function News(op: Op): seq<Report> {
    if op.Collect? && IsIBeacon(op.report.adv) then [op.report] else []
  }

  /** The accepted reports of a run. */
  function Accepted(ops: seq<Op>): seq<Report> {
    if ops == [] then [] else News(ops[0]) + Accepted(ops[1..])
  }

  lemma {:induction false} StepCounts(log: Log, op: Op)
    requires log.Valid()
    ensures Step(log, op).writes == log.writes + News(op)
    ensures Step(log, op).taken == log.taken + |Answer(log, op)|
  {
  }

  lemma {:induction false} Regroup<T>(a: seq<T>, b: seq<T>, c: seq<T>)
    ensures a + b + c == a + (b + c)
  {
  }

  lemma {:induction false} WritesAreAccepted(log: Log, ops: seq<Op>)
    requires log.Valid()
    ensures Run(log, ops).writes == log.writes + Accepted(ops)
    ensures Run(log, ops).taken == log.taken + |Reads(log, ops)|
    decreases |ops|
  {
    if ops == [] {
      assert log.writes + [] == log.writes;
    } else {
      var op, rest := ops[0], ops[1..];
      StepCounts(log, op);
      WritesAreAccepted(Step(log, op), rest);
      Regroup(log.writes, News(op), Accepted(rest));
    }
  }

  /** From an empty ring: the reads are a prefix of the recognised packets if fewer than 1024 are unread at the end. */
  lemma {:induction false} ReadsArePrefix(ops: seq<Op>)
    requires |Accepted(ops)| - |Reads(Log([], 0), ops)| < SLOTS
    ensures Reads(Log([], 0), ops) <= Accepted(ops)
  {
    var log := Log([], 0);
    WritesAreAccepted(log, ops);
    ReadsInOrder(log, ops);
  }

  /** A recognised report collected into a drained ring is what the next read finds. */
  lemma {:induction false} CollectedIsNext(ops: seq<Op>, report: Report)
    requires IsIBeacon(report.adv) && Run(Log([], 0), ops).Backlog() == 0
    ensures Found(Run(Log([], 0), ops + [Collect(report)])) == Some(report)
  {
    RunConcat(Log([], 0), ops, [Collect(report)]);
    var log := Run(Log([], 0), ops + [Collect(report)]);
    assert log == Run(Step(Run(Log([], 0), ops), Collect(report)), []);
    OldestUnreadIff(log);
  }

  /** A packet from the sender collected into a drained ring is what the next read finds, and every beacon that tells of
      it has the sender's fields, in lower case and the power as a signed byte, and the report's own address, RSSI,
      event flags and bonding. */
  lemma {:induction false} SentIsRead(
    ops: seq<Op>, uuid: string, major: string, minor: string, power: string, report: Report, b: Beacon)
    requires HexPayload(uuid, major, minor, power)
    requires report.adv == Advertised(uuid, major, minor, power)
    requires Run(Log([], 0), ops).Backlog() == 0
    ensures Found(Run(Log([], 0), ops + [Collect(report)])) == Some(report) && IsIBeacon(report.adv) && IsHexText(power)
    ensures Tells(b, report) ==>
              && b.uuid == LowerAll(uuid) && b.major == LowerAll(major) && b.minor == LowerAll(minor)
              && b.power == SignedByte(FromHex(power)[0])
              && StrToAddr(b.mac) == report.address && b.addressType == report.addressType
              && b.rssi == report.rssi && b.eventFlags == report.eventFlags && b.bonding == report.bonding
  {
    SenderToReceiver(uuid, major, minor, power, report);
    CollectedIsNext(ops, report);
    if Tells(b, report) {
      SentIsTold(uuid, major, minor, power, report, b);
    }
  }

  lemma {:induction false} RunConcat(log: Log, first: seq<Op>, second: seq<Op>)
    requires log.Valid()
    ensures Run(log, first + second) == Run(Run(log, first), second)
    decreases |first|
  {
    if first == [] {
      assert first + second == second;
    } else {
      assert (first + second)[1..] == first[1..] + second;
      RunConcat(Step(log, first[0]), first[1..], second);
    }
  }
}
