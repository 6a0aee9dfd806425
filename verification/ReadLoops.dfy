/** How the read loops of the driver thread end, in terms of the line and the schedule alone: which read is the last,
    how many bytes have been taken, and whether a reset is wanted. */
module ReadLoops {
  import opened Bgapi
  import opened SerialLine
  import opened Receiver

  /** A reset is requested before or during one of these reads. */
  predicate Asked(ts: seq<Tick>) {
    ts != [] && (ts[0].early || ts[0].late || Asked(ts[1..]))
  }

  /** How many bytes these reads would bring if all were wanted. */
  function Offered(ts: seq<Tick>): nat {
    if ts == [] then 0 else (if ts[0].got.UpTo? then ts[0].got.n else 0) + Offered(ts[1..])
  }

  /** How many of these reads would bring a byte. */
  function Offers(ts: seq<Tick>): nat {
    if ts == [] then 0 else (if ts[0].got.UpTo? && ts[0].got.n >= 1 then 1 else 0) + Offers(ts[1..])
  }

  predicate NoneBroken(ts: seq<Tick>) {
    forall i :: 0 <= i < |ts| ==> !ts[i].got.Broken?
  }

  predicate AllData(ts: seq<Tick>) {
    forall i :: 0 <= i < |ts| ==> ts[i].got.UpTo?
  }

  lemma {:induction false} AskedSplit(ts: seq<Tick>, k: nat)
    requires k <= |ts|
    ensures Asked(ts) <==> Asked(ts[..k]) || Asked(ts[k..])
  {
    if k == 0 {
      assert ts[0..] == ts;
    } else {
      AskedSplit(ts[1..], k - 1);
      assert ts[..k][1..] == ts[1..][..k - 1] && ts[1..][k - 1..] == ts[k..];
    }
  }

  /** The first k + 1 reads are the first one and the first k of the others. */
  lemma {:induction false} FirstTicks(ts: seq<Tick>, k: nat)
    requires k < |ts|
    ensures ts[..k + 1] == [ts[0]] + ts[1..][..k] && ts[1..][k..] == ts[k + 1..]
  {
  }

  lemma {:induction false} AskedFirst(t: Tick, ts: seq<Tick>)
    ensures Asked([t] + ts) <==> t.early || t.late || Asked(ts)
  {
    assert ([t] + ts)[1..] == ts;
  }

  lemma {:induction false} OfferedFirst(t: Tick, ts: seq<Tick>)
    ensures Offered([t] + ts) == (if t.got.UpTo? then t.got.n else 0) + Offered(ts)
    ensures Offers([t] + ts) == (if t.got.UpTo? && t.got.n >= 1 then 1 else 0) + Offers(ts)
  {
    assert ([t] + ts)[1..] == ts;
  }

  lemma {:induction false} KindsFirst(t: Tick, ts: seq<Tick>)
    ensures NoneBroken([t] + ts) <==> !t.got.Broken? && NoneBroken(ts)
    ensures AllData([t] + ts) <==> t.got.UpTo? && AllData(ts)
  {
    var all := [t] + ts;
    assert all[0] == t && forall i :: 0 <= i < |ts| ==> ts[i] == all[i + 1];
    assert forall i :: 0 < i < |all| ==> all[i] == ts[i - 1];
  }

  /** Everything that is counted, for the first k + 1 reads. */
  lemma {:induction false} CountFirst(ts: seq<Tick>, k: nat, first: Tick, rest: seq<Tick>)
    requires k < |ts| && first == ts[0] && rest == ts[1..][..k]
    ensures Asked(ts[..k + 1]) <==> first.early || first.late || Asked(rest)
    ensures Offered(ts[..k + 1]) == (if first.got.UpTo? then first.got.n else 0) + Offered(rest)
    ensures Offers(ts[..k + 1]) == (if first.got.UpTo? && first.got.n >= 1 then 1 else 0) + Offers(rest)
    ensures NoneBroken(ts[..k + 1]) <==> !first.got.Broken? && NoneBroken(rest)
    ensures AllData(ts[..k + 1]) <==> first.got.UpTo? && AllData(rest)
  {
    FirstTicks(ts, k);
    AskedFirst(first, rest);
    OfferedFirst(first, rest);
    KindsFirst(first, rest);
  }

  lemma {:induction false} NoTicks()
    ensures !Asked([]) && Offered([]) == 0 && Offers([]) == 0 && NoneBroken([]) && AllData([])
  {
  }

  lemma {:induction false} CountsGrow(ts: seq<Tick>, a: nat, b: nat)
    requires a <= b <= |ts|
    ensures Asked(ts[..a]) ==> Asked(ts[..b])
    ensures Offered(ts[..a]) <= Offered(ts[..b]) && Offers(ts[..a]) <= Offers(ts[..b])
    decreases a
  {
    if a == 0 {
      assert ts[..0] == [];
    } else {
      CountFirst(ts, a - 1, ts[0], ts[1..][..a - 1]);
      CountFirst(ts, b - 1, ts[0], ts[1..][..b - 1]);
      CountsGrow(ts[1..], a - 1, b - 1);
    }
  }

  lemma {:induction false} StillThere<T>(s: seq<T>, i: int, b: int)
    ensures 0 <= i < b <= |s| ==> s[..b][i] == s[i] && s[i] in s[..b]
  {
    if 0 <= i < b <= |s| {
      assert s[..b][i] == s[i];
    }
  }

  lemma {:induction false} AskedBy(ts: seq<Tick>, i: nat, b: nat)
    requires i < b <= |ts| && (ts[i].early || ts[i].late)
    ensures Asked(ts[..b])
    decreases i
  {
    CountFirst(ts, b - 1, ts[0], ts[1..][..b - 1]);
    if i > 0 {
      AskedBy(ts[1..], i - 1, b - 1);
    }
  }

  // uartRx

  /** A payload read has used k reads: it ends at once when the bytes are there, goes on after an empty read or EAGAIN,
      and is given up only on a broken read. */
  ghost predicate ReceiveEndsAt(l: LineState, want: nat, got: nat, after: (LineState, Fill), k: nat) {
    var (l', fill) := after;
    && k <= |l.script| && l'.script == l.script[k..]
    && l'.resetWanted == (l.resetWanted || Asked(l.script[..k]))
    && got == Min(Offered(l.script[..k]), Min(want, |l.rx|)) && |l'.rx| == |l.rx| - got
    && (k > 0 ==> NoneBroken(l.script[..k - 1]) && Min(Offered(l.script[..k - 1]), |l.rx|) < want)
    && match fill
       case Full(_) => got == want && NoneBroken(l.script[..k])
       case Lost(_) => got < want && k > 0 && l.script[k - 1].got.Broken?
       case Stuck(_) => got < want && k == |l.script| && NoneBroken(l.script[..k])
  }

  /** Taking at most n and then at most o bytes, out of so many wanted and so many there. */
  lemma {:induction false} TakeBoth(n: nat, o: nat, want: nat, there: nat)
    ensures var b := Min(n, Min(want, there));
            && Min(n + o, Min(want, there)) == b + Min(o, Min(want - b, there - b))
            && (Min(n + o, there) < want <==> b < want && Min(o, there - b) < want - b)
  {
  }

  /** What the first of these reads brings. */
  function Bytes(l: LineState, want: nat): nat
    requires l.script != []
  {
    if l.script[0].got.UpTo? then Min(l.script[0].got.n, Min(want, |l.rx|)) else 0
  }

  /** A line after its first read. */
  ghost predicate ReadOnce(l: LineState, l': LineState, want: nat)
    requires l.script != []
  {
    && l'.script == l.script[1..]
    && l'.rx == l.rx[Bytes(l, want)..]
    && l'.resetWanted == (l.resetWanted || l.script[0].early || l.script[0].late)
  }

  lemma {:induction false} ReadKinds(l: LineState, want: nat)
    requires l.script != []
    ensures Read(l, want).1.Data? <==> l.script[0].got.UpTo?
    ensures Read(l, want).1.Failure? <==> l.script[0].got.Broken?
  {
  }

  lemma {:induction false} ReadTakes(l: LineState, want: nat)
    requires l.script != []
    ensures Read(l, want).0.rx == l.rx[Bytes(l, want)..]
    ensures Read(l, want).1.Data? ==> Read(l, want).1.bytes == l.rx[..Bytes(l, want)]
  {
  }

  lemma {:induction false} ReadAsks(l: LineState, want: nat)
    requires l.script != []
    ensures Read(l, want).0.resetWanted == (l.resetWanted || l.script[0].early || l.script[0].late)
  {
  }

  lemma {:induction false} ReadMeans(l: LineState, want: nat)
    requires l.script != []
    ensures var (l', got) := Read(l, want);
            && ReadOnce(l, l', want)
            && (got.Data? <==> l.script[0].got.UpTo?) && (got.Failure? <==> l.script[0].got.Broken?)
            && (got.Data? ==> got.bytes == l.rx[..Bytes(l, want)])
  {
    ReadKinds(l, want);
    ReadTakes(l, want);
    ReadAsks(l, want);
  }

  /** The counts of k + 1 reads, from the first one and the k that follow. */
  lemma {:induction false} TakenOneMore(l: LineState, l': LineState, want: nat, k: nat)
    requires l.script != [] && ReadOnce(l, l', want) && k <= |l'.script|
    ensures var b := Bytes(l, want);
            && b <= want && |l'.rx| == |l.rx| - b
            && Min(Offered(l.script[..k + 1]), Min(want, |l.rx|))
               == Min(Offered(l'.script[..k]), Min(want - b, |l'.rx|)) + b
            && (want > 0 ==> (Min(Offered(l.script[..k + 1]), |l.rx|) < want
                              <==> b < want && Min(Offered(l'.script[..k]), |l'.rx|) < want - b))
  {
    var n := if l.script[0].got.UpTo? then l.script[0].got.n else 0;
    CountFirst(l.script, k, l.script[0], l'.script[..k]);
    TakeBoth(n, Offered(l'.script[..k]), want, |l.rx|);
  }

  lemma {:induction false} TakenNone(l: LineState, want: nat)
    requires l.script != [] && want > 0
    ensures l.script[..0] == [] && Min(Offered(l.script[..0]), |l.rx|) < want
    ensures NoneBroken(l.script[..0]) && AllData(l.script[..0]) && !Asked(l.script[..0])
  {
    NoTicks();
  }

  lemma {:induction false} OneMoreRead(
    l: LineState, l': LineState, want: nat, got: nat, after: (LineState, Fill), k: nat)
    requires l.script != [] && want > 0 && !l.script[0].got.Broken?
    requires ReadOnce(l, l', want)
    requires ReceiveEndsAt(l', want - Bytes(l, want), got, after, k)
    ensures ReceiveEndsAt(l, want, got + Bytes(l, want), after, k + 1)
  {
    FirstTicks(l.script, k);
    CountFirst(l.script, k, l.script[0], l'.script[..k]);
    TakenOneMore(l, l', want, k);
    if k > 0 {
      CountFirst(l.script, k - 1, l.script[0], l'.script[..k - 1]);
      TakenOneMore(l, l', want, k - 1);
      assert l.script[k] == l'.script[k - 1];
    } else {
      TakenNone(l, want);
    }
  }

  lemma {:induction false} ReceiveEndsNow(l: LineState, want: nat, acc: seq<Byte>)
    requires want == 0 || l.script == [] || l.script[0].got.Broken?
    ensures ReceiveEnded(l, want, acc, Receive(l, want, acc), if want == 0 || l.script == [] then 0 else 1)
  {
    NoTicks();
    assert l.script[..0] == [];
    if want != 0 && l.script != [] {
      ReadMeans(l, want);
      CountFirst(l.script, 0, l.script[0], []);
    }
  }

  lemma {:induction false} ReceiveUnfolds(l: LineState, l': LineState, want: nat, acc: seq<Byte>, acc': seq<Byte>)
    requires want != 0 && l.script != [] && !l.script[0].got.Broken?
    requires l' == Read(l, want).0
    requires acc' == if l.script[0].got.UpTo? then acc + l.rx[..Bytes(l, want)] else acc
    ensures Receive(l, want, acc) == Receive(l', want - Bytes(l, want), acc')
  {
    ReadKinds(l, want);
    ReadTakes(l, want);
  }

  ghost predicate ReceiveEnded(l: LineState, want: nat, acc: seq<Byte>, after: (LineState, Fill), k: nat) {
    |after.1.bytes| >= |acc| && ReceiveEndsAt(l, want, |after.1.bytes| - |acc|, after, k)
  }

  lemma {:induction false} ReceiveEnds(l: LineState, want: nat, acc: seq<Byte>) returns (k: nat)
    ensures ReceiveEnded(l, want, acc, Receive(l, want, acc), k)
    decreases |l.script|
  {
    if want == 0 || l.script == [] || l.script[0].got.Broken? {
      ReceiveEndsNow(l, want, acc);
      return if want == 0 || l.script == [] then 0 else 1;
    }
    ReadMeans(l, want);
    var l' := Read(l, want).0;
    var acc' := if l.script[0].got.UpTo? then acc + l.rx[..Bytes(l, want)] else acc;
    ReceiveUnfolds(l, l', want, acc, acc');
    k := ReceiveEnds(l', want - Bytes(l, want), acc');
    ReceiveEndedLater(l, l', want, acc, acc', Receive(l', want - Bytes(l, want), acc'), k);
    k := k + 1;
  }

  lemma {:induction false} ReceiveEndedLater(
    l: LineState, l': LineState, want: nat, acc: seq<Byte>, acc': seq<Byte>, after: (LineState, Fill), k: nat)
    requires l.script != [] && want > 0 && !l.script[0].got.Broken? && ReadOnce(l, l', want)
    requires |acc'| == |acc| + Bytes(l, want)
    requires ReceiveEnded(l', want - Bytes(l, want), acc', after, k)
    ensures ReceiveEnded(l, want, acc, after, k + 1)
  {
    OneMoreRead(l, l', want, |after.1.bytes| - |acc'|, after, k);
  }

  // The header loop

  /** A header read has used k reads: it ends at once when the header is whole, and is given up on the first read that
      brings no data, not even none, and on the first after which a reset is wanted. */
  ghost predicate HeaderEndsAt(l: LineState, want: nat, got: nat, after: (LineState, Fill), k: nat) {
    var (l', fill) := after;
    && k <= |l.script| && l'.script == l.script[k..]
    && l'.resetWanted == (l.resetWanted || Asked(l.script[..k]))
    && got == Min(Offered(l.script[..k]), Min(want, |l.rx|)) && |l'.rx| == |l.rx| - got
    && (k > 0 ==> AllData(l.script[..k - 1]) && Min(Offered(l.script[..k - 1]), |l.rx|) < want)
    && (k > 1 ==> !l.resetWanted && !Asked(l.script[..k - 1]))
    && match fill
       case Full(_) => got == want && AllData(l.script[..k]) && (k > 0 ==> !l'.resetWanted)
       case Lost(_) => k > 0 && (!l.script[k - 1].got.UpTo? || l'.resetWanted)
       case Stuck(_) => got < want && k == |l.script| && AllData(l.script[..k]) && (k > 0 ==> !l'.resetWanted)
  }

  lemma {:induction false} OneMoreHeaderRead(
    l: LineState, l': LineState, want: nat, got: nat, after: (LineState, Fill), k: nat)
    requires l.script != [] && want > 0 && l.script[0].got.UpTo?
    requires ReadOnce(l, l', want) && !l'.resetWanted
    requires HeaderEndsAt(l', want - Bytes(l, want), got, after, k)
    ensures HeaderEndsAt(l, want, got + Bytes(l, want), after, k + 1)
  {
    FirstTicks(l.script, k);
    CountFirst(l.script, k, l.script[0], l'.script[..k]);
    TakenOneMore(l, l', want, k);
    if k > 0 {
      CountFirst(l.script, k - 1, l.script[0], l'.script[..k - 1]);
      TakenOneMore(l, l', want, k - 1);
      assert l.script[k] == l'.script[k - 1];
    } else {
      TakenNone(l, want);
    }
  }

  lemma {:induction false} HeaderUnread(l: LineState, acc: seq<Byte>)
    requires |acc| == HEADER_LEN || (|acc| < HEADER_LEN && l.script == [])
    ensures HeaderEnded(l, acc, ReadHeader(l, acc), 0)
  {
    NoTicks();
    assert l.script[..0] == [] && l.script[0..] == l.script;
  }

  lemma {:induction false} HeaderLost(l: LineState, acc: seq<Byte>, taken: seq<Byte>)
    requires |acc| < HEADER_LEN && l.script != []
    requires !l.script[0].got.UpTo? || l.resetWanted || l.script[0].early || l.script[0].late
    requires taken == if l.script[0].got.UpTo? then l.rx[..Bytes(l, HEADER_LEN - |acc|)] else []
    ensures ReadHeader(l, acc).1 == Lost(acc + taken) && ReadOnce(l, ReadHeader(l, acc).0, HEADER_LEN - |acc|)
  {
    ReadMeans(l, HEADER_LEN - |acc|);
    assert acc + [] == acc;
  }

  lemma {:induction false} HeaderLostNow(l: LineState, acc: seq<Byte>)
    requires |acc| < HEADER_LEN && l.script != []
    requires !l.script[0].got.UpTo? || l.resetWanted || l.script[0].early || l.script[0].late
    ensures HeaderEnded(l, acc, ReadHeader(l, acc), 1)
  {
    var taken := if l.script[0].got.UpTo? then l.rx[..Bytes(l, HEADER_LEN - |acc|)] else [];
    HeaderLost(l, acc, taken);
    LostCounts(l, ReadHeader(l, acc).0, HEADER_LEN - |acc|, Lost(acc + taken));
    assert acc + taken + l.rx[|taken|..] == acc + l.rx;
  }

  lemma {:induction false} LostCounts(l: LineState, l': LineState, want: nat, lost: Fill)
    requires l.script != [] && want > 0 && ReadOnce(l, l', want) && lost.Lost?
    requires !l.script[0].got.UpTo? || l.resetWanted || l.script[0].early || l.script[0].late
    ensures HeaderEndsAt(l, want, Bytes(l, want), (l', lost), 1)
  {
    NoTicks();
    CountFirst(l.script, 0, l.script[0], []);
    TakenNone(l, want);
  }

  lemma {:induction false} HeaderUnfolds(l: LineState, l': LineState, acc: seq<Byte>, acc': seq<Byte>)
    requires |acc| < HEADER_LEN && l.script != [] && l.script[0].got.UpTo?
    requires l' == Read(l, HEADER_LEN - |acc|).0 && !l'.resetWanted
    requires acc' == acc + l.rx[..Bytes(l, HEADER_LEN - |acc|)]
    ensures |acc'| <= HEADER_LEN && ReadHeader(l, acc) == ReadHeader(l', acc')
  {
    ReadKinds(l, HEADER_LEN - |acc|);
    ReadTakes(l, HEADER_LEN - |acc|);
  }

  /** The header loop has ended, and no byte is lost or made up. */
  ghost predicate HeaderEnded(l: LineState, acc: seq<Byte>, after: (LineState, Fill), k: nat) {
    && |acc| <= HEADER_LEN && |acc| <= |after.1.bytes|
    && HeaderEndsAt(l, HEADER_LEN - |acc|, |after.1.bytes| - |acc|, after, k)
    && after.1.bytes + after.0.rx == acc + l.rx
  }

  lemma {:induction false} HeaderEnds(l: LineState, acc: seq<Byte>) returns (k: nat)
    requires |acc| <= HEADER_LEN
    ensures HeaderEnded(l, acc, ReadHeader(l, acc), k)
    decreases |l.script|
  {
    if |acc| == HEADER_LEN || l.script == [] {
      HeaderUnread(l, acc);
      return 0;
    }
    if !l.script[0].got.UpTo? || l.resetWanted || l.script[0].early || l.script[0].late {
      HeaderLostNow(l, acc);
      return 1;
    }
    ReadMeans(l, HEADER_LEN - |acc|);
    var l' := Read(l, HEADER_LEN - |acc|).0;
    var acc' := acc + l.rx[..Bytes(l, HEADER_LEN - |acc|)];
    HeaderUnfolds(l, l', acc, acc');
    k := HeaderEnds(l', acc');
    HeaderEndedLater(l, l', acc, acc', ReadHeader(l', acc'), k);
    k := k + 1;
  }

  lemma {:induction false} HeaderEndedLater(
    l: LineState, l': LineState, acc: seq<Byte>, acc': seq<Byte>, after: (LineState, Fill), k: nat)
    requires |acc| < HEADER_LEN && l.script != [] && l.script[0].got.UpTo?
    requires ReadOnce(l, l', HEADER_LEN - |acc|) && !l'.resetWanted
    requires acc' == acc + l.rx[..Bytes(l, HEADER_LEN - |acc|)]
    requires HeaderEnded(l', acc', after, k)
    ensures HeaderEnded(l, acc, after, k + 1)
  {
    var b := Bytes(l, HEADER_LEN - |acc|);
    OneMoreHeaderRead(l, l', HEADER_LEN - |acc|, |after.1.bytes| - |acc'|, after, k);
    assert acc + l.rx[..b] + l.rx[b..] == acc + l.rx;
  }

  // The search for the start byte

  /** Of a search that has used k reads: where the schedule is, and whether a reset was wanted before the last. */
  ghost predicate ScanUsed(l: LineState, l': LineState, k: nat) {
    && k <= |l.script| && l'.script == l.script[k..]
    && l'.resetWanted == (l.resetWanted || Asked(l.script[..k]))
    && (k > 1 ==> !l.resetWanted && !Asked(l.script[..k - 1]))
  }

  /** A search has used k reads and taken the first n bytes of the line: it goes on after a failed read, ends at once at
      a start byte, and is interrupted by the first other read after which a reset is wanted. */
  ghost predicate ScanEndsAt(l: LineState, n: nat, after: (LineState, Scanned), k: nat) {
    var (l', scanned) := after;
    && ScanUsed(l, l', k)
    && n == Min(Offers(l.script[..k]), |l.rx|) && l'.rx == l.rx[n..]
    && match scanned
       case Found =>
         && k > 0 && n > 0 && l.rx[n - 1] == 0xa0 && 0xa0 !in l.rx[..n - 1] && Offers(l.script[..k - 1]) == n - 1
       case Interrupted => k > 0 && l'.resetWanted && 0xa0 !in l.rx[..n]
       case NotYet => k == |l.script| && 0xa0 !in l.rx[..n] && (k > 0 ==> !l'.resetWanted)
  }

  lemma {:induction false} UsedOneMore(l: LineState, l': LineState, l'': LineState, k: nat)
    requires l.script != [] && ReadOnce(l, l', 1) && !l'.resetWanted && ScanUsed(l', l'', k)
    ensures ScanUsed(l, l'', k + 1)
  {
    FirstTicks(l.script, k);
    CountFirst(l.script, k, l.script[0], l'.script[..k]);
    if k > 0 {
      CountFirst(l.script, k - 1, l.script[0], l'.script[..k - 1]);
    } else {
      assert l.script[..0] == [];
      NoTicks();
    }
  }

  lemma {:induction false} OffersOneMore(l: LineState, l': LineState, k: nat)
    requires l.script != [] && ReadOnce(l, l', 1) && k <= |l'.script|
    ensures Min(Offers(l.script[..k + 1]), |l.rx|) == Min(Offers(l'.script[..k]), |l'.rx|) + Bytes(l, 1)
    ensures Offers(l.script[..k + 1]) == Offers(l'.script[..k]) + Bytes(l, 1) || l.rx == []
  {
    CountFirst(l.script, k, l.script[0], l'.script[..k]);
  }

  lemma {:induction false} FoundOneMore(l: LineState, l': LineState, n: nat, k: nat)
    requires l.script != [] && ReadOnce(l, l', 1) && 0xa0 !in l.rx[..Bytes(l, 1)]
    requires 0 < k <= |l'.script| && 0 < n <= |l'.rx| && l'.rx[n - 1] == 0xa0 && 0xa0 !in l'.rx[..n - 1]
    requires Offers(l'.script[..k - 1]) == n - 1
    ensures var m := n + Bytes(l, 1);
            m <= |l.rx| && l.rx[m - 1] == 0xa0 && 0xa0 !in l.rx[..m - 1] && Offers(l.script[..k]) == m - 1
  {
    OffersOneMore(l, l', k - 1);
    NoStartIn(l.rx, Bytes(l, 1), n - 1);
  }

  lemma {:induction false} OneMoreScanRead(l: LineState, l': LineState, n: nat, after: (LineState, Scanned), k: nat)
    requires l.script != [] && ReadOnce(l, l', 1) && !l'.resetWanted && 0xa0 !in l.rx[..Bytes(l, 1)]
    requires ScanEndsAt(l', n, after, k)
    ensures ScanEndsAt(l, n + Bytes(l, 1), after, k + 1)
  {
    UsedOneMore(l, l', after.0, k);
    OffersOneMore(l, l', k);
    NoStartIn(l.rx, Bytes(l, 1), n);
    if after.1.Found? {
      FoundOneMore(l, l', n, k);
    }
  }

  lemma {:induction false} NoStartIn(rx: seq<Byte>, b: nat, n: nat)
    requires b + n <= |rx| && 0xa0 !in rx[..b]
    ensures rx[b..][n..] == rx[b + n..]
    ensures 0xa0 in rx[b..][..n] <==> 0xa0 in rx[..b + n]
  {
    assert rx[..b + n] == rx[..b] + rx[b..][..n];
  }

  lemma {:induction false} ScanEndsNow(l: LineState)
    requires l.script == [] || Read(l, 1).1 == Data([0xa0]) || Read(l, 1).0.resetWanted
    ensures ScanEndsAt(l, if l.script == [] then 0 else Bytes(l, 1), Scan(l), if l.script == [] then 0 else 1)
  {
    NoTicks();
    assert l.script[..0] == [];
    if l.script != [] {
      ReadMeans(l, 1);
      CountFirst(l.script, 0, l.script[0], []);
      StartOrNot(l);
    }
  }

  lemma {:induction false} StartOrNot(l: LineState)
    requires l.script != []
    ensures Read(l, 1).1 == Data([0xa0]) <==> Bytes(l, 1) == 1 && l.rx[0] == 0xa0
    ensures Read(l, 1).1 != Data([0xa0]) ==> 0xa0 !in l.rx[..Bytes(l, 1)]
    ensures Read(l, 1).1 == Data([0xa0]) ==> l.rx[..1] == [0xa0]
  {
  }

  lemma {:induction false} ScanEnds(l: LineState) returns (n: nat, k: nat)
    ensures ScanEndsAt(l, n, Scan(l), k)
    decreases |l.script|
  {
    if l.script == [] || Read(l, 1).1 == Data([0xa0]) || Read(l, 1).0.resetWanted {
      ScanEndsNow(l);
      return if l.script == [] then 0 else Bytes(l, 1), if l.script == [] then 0 else 1;
    }
    ReadMeans(l, 1);
    StartOrNot(l);
    var l' := Read(l, 1).0;
    n, k := ScanEnds(l');
    OneMoreScanRead(l, l', n, Scan(l'), k);
    n, k := n + Bytes(l, 1), k + 1;
  }

  // uartCacheClean

  /** Read i of a cache clean takes four bytes. */
  predicate TakesFour(l: LineState, i: nat)
    requires i < |l.script|
  {
    l.script[i].got.UpTo? && l.script[i].got.n >= 4 && 4 * (i + 1) <= |l.rx|
  }

  /** Read j is the first that does not. */
  predicate FirstShort(l: LineState, j: nat) {
    j < |l.script| && !TakesFour(l, j) && forall i :: 0 <= i < j ==> TakesFour(l, i)
  }

  /** What that read brings. */
  function LastBytes(l: LineState, j: nat): nat
    requires j < |l.script| && 4 * j <= |l.rx|
  {
    if l.script[j].got.UpTo? then Min(l.script[j].got.n, |l.rx| - 4 * j) else 0
  }

  lemma {:induction false} ShortLater(l: LineState, l': LineState, j: nat)
    requires l.script != [] && l'.script == l.script[1..] && TakesFour(l, 0) && |l'.rx| == |l.rx| - 4
    ensures FirstShort(l, j + 1) <==> FirstShort(l', j)
    ensures FirstShort(l', j) ==> 4 * j <= |l'.rx| && LastBytes(l, j + 1) == LastBytes(l', j)
  {
    if FirstShort(l, j + 1) {
      forall i | 0 <= i < j ensures TakesFour(l', i) {
        assert TakesFour(l, i + 1);
      }
    }
    if FirstShort(l', j) {
      forall i | 0 <= i < j + 1 ensures TakesFour(l, i) {
        assert i > 0 ==> TakesFour(l', i - 1);
      }
      assert j > 0 ==> TakesFour(l', j - 1);
    }
  }

  /** The clean ends with the first read that comes back short, and has then dropped what the reads brought; while there
      is none it goes on to the end of the schedule.  So if that read would have taken more, the line is empty. */
  lemma {:induction false} CleanEnds(l: LineState, j: nat)
    requires FirstShort(l, j)
    ensures 4 * j <= |l.rx| && CleanedAt(l, Clean(l), j)
    ensures l.script[j].got.UpTo? && l.script[j].got.n >= 4 ==> Clean(l).0.rx == []
    decreases |l.script|
  {
    assert !TakesFour(l, j);
    if j == 0 {
      CleanEndsNow(l);
    } else {
      var l' := Read(l, 4).0;
      ReadMeans(l, 4);
      assert TakesFour(l, 0);
      CleanUnfolds(l);
      ShortLater(l, l', j - 1);
      CleanEnds(l', j - 1);
      CleanedLater(l, l', Clean(l'), j - 1);
    }
  }

  /** What a clean leaves behind whose first short read is read j. */
  ghost predicate CleanedAt(l: LineState, after: (LineState, bool), j: nat)
    requires j < |l.script| && 4 * j <= |l.rx|
  {
    && after.1
    && after.0.script == l.script[j + 1..]
    && after.0.rx == l.rx[4 * j + LastBytes(l, j)..]
    && after.0.resetWanted == (l.resetWanted || Asked(l.script[..j + 1]))
  }

  lemma {:induction false} CleanUnfolds(l: LineState)
    requires l.script != [] && TakesFour(l, 0)
    ensures Clean(l) == Clean(Read(l, 4).0) && |Read(l, 4).0.rx| == |l.rx| - 4
  {
    ReadKinds(l, 4);
    ReadTakes(l, 4);
  }

  lemma {:induction false} CleanStops(l: LineState)
    requires FirstShort(l, 0)
    ensures Clean(l) == (Read(l, 4).0, true)
  {
    ReadKinds(l, 4);
    ReadTakes(l, 4);
  }

  lemma {:induction false} CleanEndsNow(l: LineState)
    requires FirstShort(l, 0)
    ensures CleanedAt(l, Clean(l), 0)
  {
    CleanStops(l);
    ReadMeans(l, 4);
    ShortDrops(l, Read(l, 4).0);
  }

  lemma {:induction false} ShortDrops(l: LineState, l': LineState)
    requires FirstShort(l, 0) && ReadOnce(l, l', 4)
    ensures CleanedAt(l, (l', true), 0)
  {
    NoTicks();
    CountFirst(l.script, 0, l.script[0], []);
    assert !TakesFour(l, 0);
  }

  lemma {:induction false} CleanedLater(l: LineState, l': LineState, after: (LineState, bool), j: nat)
    requires l.script != [] && TakesFour(l, 0) && ReadOnce(l, l', 4) && |l'.rx| == |l.rx| - 4
    requires j < |l'.script| && 4 * j <= |l'.rx| && CleanedAt(l', after, j)
    ensures j + 1 < |l.script| && 4 * (j + 1) <= |l.rx| && CleanedAt(l, after, j + 1)
  {
    FirstTicks(l.script, j + 1);
    CountFirst(l.script, j + 1, l.script[0], l'.script[..j + 1]);
    DropTwice(l.rx, 4, 4 * j + LastBytes(l', j));
  }

  lemma {:induction false} DropTwice(rx: seq<Byte>, a: nat, b: nat)
    requires a + b <= |rx|
    ensures rx[a..][b..] == rx[a + b..]
  {
  }

  predicate AllFour(l: LineState) {
    forall j :: 0 <= j < |l.script| ==> TakesFour(l, j)
  }

  /** A clean that has used the whole schedule. */
  ghost predicate CleanedAll(l: LineState, after: (LineState, bool)) {
    && !after.1 && after.0.script == []
    && after.0.resetWanted == (l.resetWanted || Asked(l.script))
    && 4 * |l.script| <= |l.rx| && after.0.rx == l.rx[4 * |l.script|..]
  }

  lemma {:induction false} CleanGoesOn(l: LineState)
    requires AllFour(l)
    ensures CleanedAll(l, Clean(l))
    decreases |l.script|
  {
    if l.script != [] {
      var l' := Read(l, 4).0;
      AllTakeFour(l, l');
      CleanUnfolds(l);
      CleanGoesOn(l');
      CleanedOneMore(l, l', Clean(l'));
    }
  }

  lemma {:induction false} AllTakeFour(l: LineState, l': LineState)
    requires l.script != [] && l' == Read(l, 4).0 && AllFour(l)
    ensures TakesFour(l, 0) && ReadOnce(l, l', 4) && AllFour(l')
  {
    assert TakesFour(l, 0);
    ReadMeans(l, 4);
    forall j | 0 <= j < |l'.script| ensures TakesFour(l', j) {
      assert TakesFour(l, j + 1);
    }
  }

  lemma {:induction false} CleanedOneMore(l: LineState, l': LineState, after: (LineState, bool))
    requires l.script != [] && TakesFour(l, 0) && ReadOnce(l, l', 4) && CleanedAll(l', after)
    ensures CleanedAll(l, after)
  {
    DropTwice(l.rx, 4, 4 * |l'.script|);
  }

  /** With more reads than the line has fours there is a short one. */
  lemma {:induction false} SomeShort(l: LineState) returns (j: nat)
    requires 4 * |l.script| > |l.rx|
    ensures FirstShort(l, j)
    decreases |l.script|
  {
    j := 0;
    if TakesFour(l, 0) {
      var l' := Read(l, 4).0;
      j := SomeShort(l');
      ShortLater(l, l', j);
      j := j + 1;
    }
  }
}
