/** What failing reads do to a message: a header is given up and its bytes are lost, an event is accepted with the part
    of its payload that came, and a response is not returned. */
module ReadErrors {
  import opened Bgapi
  import opened SerialLine
  import opened Receiver
  import opened ReadLoops
  import opened ResetRequests
  import Framing

  /** Read k of a header brings no data, not even none, while the header is not whole, and no reset is wanted up to it.
      */
  ghost predicate HeaderFails(l: LineState, k: nat) {
    && HeaderOpen(l, HEADER_LEN, k) && !l.script[k].got.UpTo?
    && !l.resetWanted && !Asked(l.script[..k + 1])
  }

  /** The line behind such a header. */
  function BehindHeader(l: LineState, k: nat): LineState
    requires k < |l.script|
  {
    LineState(l.rx[Min(Offered(l.script[..k]), |l.rx|)..], l.script[k + 1..], false)
  }

  /** A booted thread gives the header up: the bytes it had taken are lost, nothing is handed out, and it looks for the
      next header behind them. */
  lemma {:induction false} HeaderGivenUp(s: Driver, k: nat)
    requires s.Valid() && s.w == s.r && s.booted && HeaderFails(s.line, k)
    ensures Drive(s) == Drive(s.(line := BehindHeader(s.line, k)))
  {
    CountFirst(s.line.script, k, s.line.script[0], s.line.script[1..][..k]);
    assert s == s.(line := s.line.(resetWanted := false));
    var used := HeaderEnds(s.line, []);
    HeaderFailsThere(s.line, k, ReadHeader(s.line, []), used);
    BackToTheTop(s, ReadHeader(s.line, []).0);
  }

  lemma {:induction false} HeaderFailsThere(l: LineState, k: nat, after: (LineState, Fill), used: nat)
    requires HeaderFails(l, k) && HeaderEnded(l, [], after, used)
    ensures after == (BehindHeader(l, k), Lost(after.1.bytes))
  {
    LastTick(l.script, k);
    if used > k + 1 {
      StillThere(l.script, k, used - 1);
      assert false;
    } else if used <= k {
      CountsGrow(l.script, used, k);
      CountsGrow(l.script, used, k + 1);
      StillThere(l.script, used - 1, k);
      assert false;
    } else {
      TookFront(l, [], after);
      assert l.script[..k + 1][k] == l.script[k];
    }
  }

  lemma {:induction false} LastTick(ts: seq<Tick>, k: nat)
    requires k < |ts|
    ensures Offered(ts[..k + 1]) == Offered(ts[..k]) + if ts[k].got.UpTo? then ts[k].got.n else 0
    decreases k
  {
    CountFirst(ts, k, ts[0], ts[1..][..k]);
    if k > 0 {
      CountFirst(ts, k - 1, ts[0], ts[1..][..k - 1]);
      LastTick(ts[1..], k - 1);
    } else {
      assert ts[..0] == [];
      assert ts[1..][..0] == [];
    }
  }

  /** Read e of a payload breaks before the payload is whole. */
  ghost predicate PayloadBreaks(l: LineState, len: nat, e: nat) {
    && e < |l.script| && l.script[e].got.Broken? && NoneBroken(l.script[..e])
    && Min(Offered(l.script[..e]), |l.rx|) < len
  }

  /** The part of the payload that had come. */
  function PartOf(l: LineState, e: nat): seq<Byte>
    requires e <= |l.script|
  {
    l.rx[..Min(Offered(l.script[..e]), |l.rx|)]
  }

  lemma {:induction false} PayloadBreaksThere(l: LineState, len: nat, e: nat)
    requires PayloadBreaks(l, len, e)
    ensures Receive(l, len, []).1 == Lost(PartOf(l, e))
    ensures Receive(l, len, []).0 == LineState(l.rx[|PartOf(l, e)|..], l.script[e + 1..],
                                               l.resetWanted || Asked(l.script[..e + 1]))
  {
    var used := ReceiveEnds(l, len, []);
    var after := Receive(l, len, []);
    LastTick(l.script, e);
    if used > e + 1 {
      StillThere(l.script, e, used - 1);
      assert false;
    } else if used <= e {
      CountsGrow(l.script, used, e);
      StillThere(l.script, used - 1, e);
      assert false;
    } else {
      TookFront(l, [], after);
      assert l.script[..e + 1][e] == l.script[e];
      assert after.1.bytes == ([] + l.rx)[..|after.1.bytes|] == PartOf(l, e);
    }
  }

  /** An event whose payload breaks off is accepted with what had come, and returned. */
  lemma {:induction false} BrokenEventIsReturned(s: Driver, header: Header, left: seq<Byte>, h: nat, e: nat)
    returns (p: Packet)
    requires s.Valid() && s.w == s.r && s.booted && s.line.rx == header.Bytes() + left && HeaderWhole(s.line, h)
    requires Classify(header).Event?
    requires PayloadBreaks(LineState(left, s.line.script[h..], false), Classify(header).len, e)
    ensures var part := PartOf(LineState(left, s.line.script[h..], false), e);
            && |part| < Classify(header).len && Framing.Holds(p, header, part)
            && s.log + [Accepted(header, part), Returned(p)] <= Drive(s).log
  {
    var l := LineState(left, s.line.script[h..], false);
    TurnDispatches(s, header, left, h);
    PayloadBreaksThere(l, Classify(header).len, e);
    AfterTurn(s);
    var s' := Turn(s).0;
    p := s'.slots[s'.r];
    var s1 := Return(s'.(r := Advance(s'.r)), p);
    assert GetEvent(s') == (s1, true, p);
    FromReturn(s1, p);
    assert s1.log == s.log + [Accepted(header, PartOf(l, e)), Returned(p)];
  }

  /** A response whose payload breaks off is not returned: its header and the part that had come are left in the
      response packet, and the thread goes on behind them. */
  lemma {:induction false} BrokenResponseIsLost(s: Driver, header: Header, left: seq<Byte>, h: nat, e: nat)
    requires s.Valid() && s.w == s.r && s.booted && s.line.rx == header.Bytes() + left && HeaderWhole(s.line, h)
    requires Classify(header).Response?
    requires PayloadBreaks(LineState(left, s.line.script[h..], false), Classify(header).len, e)
    ensures var l := LineState(left, s.line.script[h..], false);
            var l' := LineState(left[|PartOf(l, e)|..], l.script[e + 1..], Asked(l.script[..e + 1]));
            && |PartOf(l, e)| <= |s.response.memory|
            && Drive(s) == Drive(s.(line := l',
                                    response := Packet(header, PartOf(l, e) + s.response.memory[|PartOf(l, e)|..])))
  {
    var l := LineState(left, s.line.script[h..], false);
    TurnDispatches(s, header, left, h);
    PayloadBreaksThere(l, Classify(header).len, e);
    AfterTurn(s);
  }
}
