/** What the stub reads of the response packet: byte for byte which response it comes from, over every run of
    CommandMatch. */
module CommandResults {
  import opened Bgapi
  import opened Common
  import opened CommandMatch

  /** A response that was already begun when the command started, or the one published at a place of the history. */
  datatype Response = Earlier(payload: Payload) | At(p: nat, payload: Payload)

  /** The response published last. */
  function Latest(log: seq<Mark>, first: Payload): Response {
    if log == [] then Earlier(first)
    else
      match log[|log| - 1]
      case Published(_, payload) => At(|log| - 1, payload)
      case _ => Latest(log[..|log| - 1], first)
  }

  predicate Covers(mark: Mark, i: Position) {
    mark.Stored? && mark.at <= i < mark.at + |mark.bytes|
  }

  /** The response whose payload was last stored over a position, if any was. */
  function Writer(log: seq<Mark>, i: Position, first: Payload): Option<Response> {
    if log == [] then None
    else if Covers(log[|log| - 1], i) then Some(Latest(log[..|log| - 1], first))
    else Writer(log[..|log| - 1], i, first)
  }

  /** A byte is what that response has at its position, or what was there before if there is none such. */
  ghost predicate Holds(byte: Byte, writer: Option<Response>, before: Byte, i: Position) {
    match writer
    case None => byte == before
    case Some(response) => i < |response.payload| && byte == response.payload[i]
  }

  ghost predicate Tracked(s: State, start: State, i: Position) {
    && s.incoming == Latest(s.log, start.incoming).payload
    && Holds(s.memory[i], Writer(s.log, i, start.incoming), start.memory[i], i)
  }

  /** The response published last before q. */
  ghost predicate LatestBefore(log: seq<Mark>, response: Response, first: Payload, q: nat)
    requires q <= |log|
  {
    match response
    case Earlier(payload) => payload == first && forall n :: 0 <= n < q ==> !log[n].Published?
    case At(p, payload) =>
      && p < q && log[p].Published? && log[p].payload == payload
      && forall n :: p < n < q ==> !log[n].Published?
  }

  lemma {:induction false} LatestMeans(log: seq<Mark>, first: Payload)
    ensures LatestBefore(log, Latest(log, first), first, |log|)
    decreases |log|
  {
    if log != [] && !log[|log| - 1].Published? {
      var front := log[..|log| - 1];
      LatestMeans(front, first);
      assert forall n :: 0 <= n < |front| ==> log[n] == front[n];
    }
  }

  /** The writer of a position is the response that was coming in at the last storing over it, at q. */
  lemma {:induction false} WriterMeans(log: seq<Mark>, i: Position, first: Payload) returns (q: nat)
    ensures Writer(log, i, first).None? ==> forall n :: 0 <= n < |log| ==> !Covers(log[n], i)
    ensures Writer(log, i, first).Some? ==>
              && q < |log| && Covers(log[q], i) && LatestBefore(log, Writer(log, i, first).value, first, q)
              && forall n :: q < n < |log| ==> !Covers(log[n], i)
    decreases |log|
  {
    q := 0;
    if log != [] {
      var front := log[..|log| - 1];
      assert forall n :: 0 <= n < |front| ==> log[n] == front[n];
      if Covers(log[|front|], i) {
        LatestMeans(front, first);
        q := |front|;
      } else {
        q := WriterMeans(front, i, first);
      }
    }
  }

  lemma {:induction false} LatestAfter(log: seq<Mark>, mark: Mark, first: Payload)
    ensures Latest(log + [mark], first) == if mark.Published? then At(|log|, mark.payload) else Latest(log, first)
  {
    assert (log + [mark])[..|log|] == log;
  }

  lemma {:induction false} WriterAfter(log: seq<Mark>, mark: Mark, i: Position, first: Payload)
    ensures Writer(log + [mark], i, first)
         == if Covers(mark, i) then Some(Latest(log, first)) else Writer(log, i, first)
  {
    assert (log + [mark])[..|log|] == log;
  }

  lemma {:induction false} TrackedPast(s: State, s': State, mark: Mark, start: State, i: Position)
    requires Tracked(s, start, i)
    requires s'.log == s.log + [mark] && !Covers(mark, i) && s'.memory[i] == s.memory[i]
    requires s'.incoming == if mark.Published? then mark.payload else s.incoming
    ensures Tracked(s', start, i)
  {
    LatestAfter(s.log, mark, start.incoming);
    WriterAfter(s.log, mark, i, start.incoming);
  }

  lemma {:induction false} TrackedByStore(s: State, s': State, piece: seq<Byte>, start: State, i: Position)
    requires Tracked(s, start, i)
    requires s.stored + |piece| <= |s.incoming| && piece == s.incoming[s.stored..s.stored + |piece|]
    requires s'.log == s.log + [Stored(s.stored, piece)] && s'.incoming == s.incoming
    requires s'.memory[i] == Overlay(s.memory, s.stored, piece)[i]
    ensures Tracked(s', start, i)
  {
    var mark := Stored(s.stored, piece);
    if Covers(mark, i) {
      LatestAfter(s.log, mark, start.incoming);
      WriterAfter(s.log, mark, i, start.incoming);
    } else {
      TrackedPast(s, s', mark, start, i);
    }
  }

  lemma {:induction false} ApiMark(s: State) returns (mark: Mark)
    requires ApiStep(s).log != s.log
    ensures ApiStep(s).log == s.log + [mark] && !mark.Published? && !mark.Stored?
    ensures ApiStep(s).memory == s.memory && ApiStep(s).incoming == s.incoming
  {
    mark := ApiStep(s).log[|s.log|];
  }

  lemma {:induction false} TrackedKept(s: State, move: Move, start: State, i: Position)
    requires Tracked(s, start, i) && Driving(s)
    ensures Tracked(Apply(s, move), start, i)
  {
    var s' := Apply(s, move);
    if s'.log != s.log {
      match move
      case Api =>
        var mark := ApiMark(s);
        TrackedPast(s, s', mark, start, i);
      case Publish(id, payload) =>
        TrackedPast(s, s', Published(id, payload), start, i);
      case Store(n) =>
        PieceIs(s, n);
        TrackedByStore(s, s', Piece(s, n), start, i);
      case GiveUp =>
        TrackedPast(s, s', GaveUp, start, i);
    } else {
      NoMark(s, move);
    }
  }

  lemma {:induction false} NoMark(s: State, move: Move)
    requires Apply(s, move).log == s.log
    ensures Apply(s, move).memory == s.memory && Apply(s, move).incoming == s.incoming
  {
  }

  lemma {:induction false} RunTracked(s: State, moves: seq<Move>, i: Position)
    requires Initial(s)
    ensures Tracked(Run(s, moves), s, i)
    decreases |moves|
  {
    if moves != [] {
      var front := moves[..|moves| - 1];
      RunTracked(s, front, i);
      RunKeeps(s, front);
      TrackedKept(Run(s, front), moves[|moves| - 1], s, i);
    }
  }

  /** The stub took its k-th byte at t, as the response stored last over that position had left it. */
  ghost predicate TakenAt(log: seq<Mark>, start: State, k: nat, byte: Byte, t: nat) {
    && k < |start.wanted| && t < |log| && log[t] == Taken(k)
    && Holds(byte, Writer(log[..t], start.wanted[k], start.incoming), start.memory[start.wanted[k]], start.wanted[k])
  }

  lemma {:induction false} TakenStays(log: seq<Mark>, mark: Mark, start: State, k: nat, byte: Byte, t: nat)
    requires TakenAt(log, start, k, byte, t)
    ensures TakenAt(log + [mark], start, k, byte, t)
  {
    assert (log + [mark])[..t] == log[..t];
  }

  lemma {:induction false} TakenNow(s: State, start: State)
    requires s.api.Use? && |s.api.got| < |s.wanted| && s.wanted == start.wanted
    requires Tracked(s, start, s.wanted[|s.api.got|])
    ensures var k, s' := |s.api.got|, ApiStep(s);
            |s'.api.Got()| == k + 1 && TakenAt(s'.log, start, k, s'.api.Got()[k], |s.log|)
  {
    assert ApiStep(s).log[..|s.log|] == s.log;
  }

  /** Every byte the stub has read was taken at some point of the history. */
  lemma {:induction false} RunTakes(s: State, moves: seq<Move>, k: nat) returns (t: nat)
    requires Initial(s)
    requires k < |Run(s, moves).api.Got()|
    ensures TakenAt(Run(s, moves).log, s, k, Run(s, moves).api.Got()[k], t)
    decreases |moves|
  {
    var front, move := moves[..|moves| - 1], moves[|moves| - 1];
    var now := Run(s, front);
    RunKeeps(s, front);
    if k < |now.api.Got()| {
      t := RunTakes(s, front, k);
      TakenKept(now, move, s, k, t);
    } else {
      GotMore(now, move, k);
      RunTracked(s, front, s.wanted[k]);
      TakenNow(now, s);
      t := |now.log|;
    }
  }

  lemma {:induction false} TakenKept(s: State, move: Move, start: State, k: nat, t: nat)
    requires k < |s.api.Got()| && TakenAt(s.log, start, k, s.api.Got()[k], t)
    ensures k < |Apply(s, move).api.Got()| && TakenAt(Apply(s, move).log, start, k, Apply(s, move).api.Got()[k], t)
  {
    var s' := Apply(s, move);
    OneMark(s, move);
    GotKept(s, move, k);
    if s'.log != s.log {
      TakenStays(s.log, s'.log[|s.log|], start, k, s.api.Got()[k], t);
    }
  }

  lemma {:induction false} GotKept(s: State, move: Move, k: nat)
    requires k < |s.api.Got()|
    ensures k < |Apply(s, move).api.Got()| && Apply(s, move).api.Got()[k] == s.api.Got()[k]
  {
  }

  lemma {:induction false} GotMore(s: State, move: Move, k: nat)
    requires |s.api.Got()| <= k < |Apply(s, move).api.Got()|
    ensures move == Move.Api && s.api.Use? && k == |s.api.got| < |s.wanted|
  {
  }

  ghost predicate TakenOnce(log: seq<Mark>, start: State, k: nat, byte: Byte) {
    exists t :: TakenAt(log, start, k, byte, t)
  }

  /** The result, byte for byte: each is what the response stored last over its position held there, whichever that
      was, or what the packet held when the command started. */
  ghost predicate ReadFrom(log: seq<Mark>, start: State, result: seq<Byte>) {
    && |result| == |start.wanted|
    && forall k :: 0 <= k < |result| ==> TakenOnce(log, start, k, result[k])
  }

  /** Over every interleaving, matched or timed out, with payloads that arrive in pieces or not at all, and whatever
      the driver thread was receiving when the command started. */
  lemma {:induction false} ResultIsOverlay(s: State, moves: seq<Move>)
    requires Initial(s)
    requires Run(s, moves).api.Ended?
    ensures ReadFrom(Run(s, moves).log, s, Run(s, moves).api.result)
  {
    RunKeeps(s, moves);
    var end := Run(s, moves);
    forall k | 0 <= k < |end.api.result| ensures TakenOnce(end.log, s, k, end.api.result[k]) {
      var t := RunTakes(s, moves, k);
    }
  }

  /** Without a response of its own id the command times out, and its result is put together from other responses, or
      from earlier ones: the result of the poll is not looked at. */
  lemma {:induction false} UnansweredReadsOthers(s: State, moves: seq<Move>)
    requires Initial(s)
    requires forall i :: 0 <= i < |moves| && moves[i].Publish? ==> moves[i].id != s.command
    requires Run(s, moves).api.Ended?
    ensures !Run(s, moves).api.matched
    ensures ReadFrom(Run(s, moves).log, s, Run(s, moves).api.result)
  {
    ResultIsOverlay(s, moves);
    OnlyPublishedIds(s, moves);
    if Run(s, moves).api.matched {
      AnsweredByItsResponse(s, moves);
    }
  }

  lemma {:induction false} OnlyPublishedIds(s: State, moves: seq<Move>)
    requires Initial(s)
    requires forall i :: 0 <= i < |moves| && moves[i].Publish? ==> moves[i].id != s.command
    ensures forall p :: 0 <= p < |Run(s, moves).log| && Run(s, moves).log[p].Published? ==>
              Run(s, moves).log[p].id != s.command
    decreases |moves|
  {
    if moves != [] {
      OnlyPublishedIds(s, moves[..|moves| - 1]);
      var before, after := Run(s, moves[..|moves| - 1]).log, Run(s, moves).log;
      assert moves[|moves| - 1].Publish? ==> moves[|moves| - 1].id != s.command;
      assert after == before || after == before + [after[|before|]];
    }
  }

  /** The k-th byte was taken from a position that the response published at p was not the last to be stored over. */
  ghost predicate Stray(log: seq<Mark>, start: State, p: nat, k: nat)
    requires k < |start.wanted|
    requires p < |log| && log[p].Published?
  {
    exists t :: 0 <= t < |log| && log[t] == Taken(k)
      && Writer(log[..t], start.wanted[k], start.incoming) != Some(At(p, log[p].payload))
  }

  /** The stub got the payload of the response published at p, as far as it reads inside it. */
  ghost predicate GotPayload(log: seq<Mark>, start: State, p: nat, result: seq<Byte>)
    requires p < |log| && log[p].Published?
    requires |result| == |start.wanted|
  {
    forall k :: 0 <= k < |result| && start.wanted[k] < |log[p].payload| ==> result[k] == log[p].payload[start.wanted[k]]
  }

  /** The same for the stray bytes alone. */
  ghost predicate StraysAgree(log: seq<Mark>, start: State, p: nat, result: seq<Byte>)
    requires p < |log| && log[p].Published?
    requires |result| == |start.wanted|
  {
    forall k :: 0 <= k < |result| && start.wanted[k] < |log[p].payload| && Stray(log, start, p, k) ==>
      result[k] == log[p].payload[start.wanted[k]]
  }

  /** A matched command returns the payload of the response it was matched with if and only if the bytes read before
      that payload was stored over them, or after another one was, happen to be the same. */
  lemma {:induction false} ReadsOwnResponse(s: State, moves: seq<Move>) returns (z: nat, p: nat, m: nat)
    requires Initial(s)
    requires Run(s, moves).api.Ended? && Run(s, moves).api.matched
    ensures AnsweredAt(Run(s, moves).log, s.command, z, p, m)
    ensures |Run(s, moves).api.result| == |s.wanted|
    ensures var end := Run(s, moves);
            GotPayload(end.log, s, p, end.api.result) <==> StraysAgree(end.log, s, p, end.api.result)
  {
    AnsweredByItsResponse(s, moves);
    ResultIsOverlay(s, moves);
    var end := Run(s, moves);
    z, p, m :| AnsweredAt(end.log, s.command, z, p, m);
    forall k | 0 <= k < |end.api.result| && s.wanted[k] < |end.log[p].payload| && !Stray(end.log, s, p, k)
      ensures end.api.result[k] == end.log[p].payload[s.wanted[k]]
    {
      var t :| TakenAt(end.log, s, k, end.api.result[k], t);
      OwnByte(end.log, s, p, k, end.api.result[k], t);
    }
  }

  lemma {:induction false} OwnByte(log: seq<Mark>, start: State, p: nat, k: nat, byte: Byte, t: nat)
    requires p < |log| && log[p].Published?
    requires TakenAt(log, start, k, byte, t) && !Stray(log, start, p, k)
    requires start.wanted[k] < |log[p].payload|
    ensures byte == log[p].payload[start.wanted[k]]
  {
  }

  // What the stub reads when the driver thread does nothing more.

  function Repeat(n: nat): (moves: seq<Move>)
    ensures |moves| == n
  {
    seq(n, _ => Move.Api)
  }

  function Pick(memory: Memory, wanted: seq<Position>): (bytes: seq<Byte>)
    ensures |bytes| == |wanted|
  {
    seq(|wanted|, k requires 0 <= k < |wanted| => memory[wanted[k]])
  }

  lemma {:induction false} OneMore(s: State, moves: seq<Move>, move: Move)
    ensures Run(s, moves + [move]) == Apply(Run(s, moves), move)
  {
    assert (moves + [move])[..|moves|] == moves;
  }

  function ApiSteps(s: State, n: nat): State {
    if n == 0 then s else ApiStep(ApiSteps(s, n - 1))
  }

  lemma {:induction false} RepeatMore(moves: seq<Move>, n: nat)
    ensures moves + Repeat(n + 1) == moves + Repeat(n) + [Move.Api]
  {
  }

  lemma {:induction false} RunsAlone(s: State, moves: seq<Move>, n: nat)
    ensures Run(s, moves + Repeat(n)) == ApiSteps(Run(s, moves), n)
  {
    if n == 0 {
      assert moves + Repeat(0) == moves;
    } else {
      RunsAlone(s, moves, n - 1);
      RepeatMore(moves, n - 1);
      OneMore(s, moves + Repeat(n - 1), Move.Api);
    }
  }

  /** n bytes further, the memory being what it was. */
  lemma {:induction false} ReadsOn(s: State, matched: bool, n: nat)
    requires s.api == Use(matched, []) && n <= |s.wanted|
    ensures var after := ApiSteps(s, n);
            && after.api == Use(matched, Pick(s.memory, s.wanted[..n]))
            && after.memory == s.memory && after.wanted == s.wanted
  {
    if n != 0 {
      ReadsOn(s, matched, n - 1);
      PickMore(s.memory, s.wanted, n - 1);
    }
  }

  lemma {:induction false} PickMore(memory: Memory, wanted: seq<Position>, n: nat)
    requires n < |wanted|
    ensures Pick(memory, wanted[..n + 1]) == Pick(memory, wanted[..n]) + [memory[wanted[n]]]
  {
  }

  lemma {:induction false} ReadsAll(s: State, moves: seq<Move>, end: State, matched: bool)
    requires end == Run(s, moves) && end.api == Use(matched, [])
    ensures Run(s, moves + Repeat(|end.wanted| + 1)).api == Ended(matched, Pick(end.memory, end.wanted))
  {
    RunsAlone(s, moves, |end.wanted| + 1);
    ReadsOn(end, matched, |end.wanted|);
    assert end.wanted[..|end.wanted|] == end.wanted;
  }

  /** When the polling is over, the packet holds the payload of the response published last if and only if the part of
      it that is not stored yet happens to be what the packet holds there; and likewise for the positions that the stub
      reads, if the driver thread leaves it alone. */
  lemma {:induction false} ReadsStoredPayload(s: State, moves: seq<Move>, matched: bool)
    requires Initial(s)
    requires Run(s, moves).api == Use(matched, [])
    ensures Run(s, moves).incoming == Latest(Run(s, moves).log, s.incoming).payload
    ensures Run(s, moves).stored <= |Run(s, moves).incoming|
    ensures var end := Run(s, moves);
            var n := |end.incoming|;
            && (end.memory[..n] == end.incoming <==> end.memory[end.stored..n] == end.incoming[end.stored..])
            && (Agree(Pick(end.memory, s.wanted), s.wanted, end.incoming, 0) <==>
                  Agree(Pick(end.memory, s.wanted), s.wanted, end.incoming, end.stored))
            && Run(s, moves + Repeat(|s.wanted| + 1)).api == Ended(matched, Pick(end.memory, s.wanted))
  {
    RunKeeps(s, moves);
    RunTracked(s, moves, 0);
    var end := Run(s, moves);
    ReadsAll(s, moves, end, matched);
    FrontDecides(end.memory, end.incoming, end.stored, s.wanted);
  }

  /** The bytes read from a position on are those of the payload. */
  ghost predicate Agree(bytes: seq<Byte>, wanted: seq<Position>, payload: Payload, from: nat)
    requires |bytes| == |wanted|
  {
    forall k :: 0 <= k < |wanted| && from <= wanted[k] < |payload| ==> bytes[k] == payload[wanted[k]]
  }

  lemma {:induction false} FrontDecides(memory: Memory, payload: Payload, n: nat, wanted: seq<Position>)
    requires n <= |payload| && memory[..n] == payload[..n]
    ensures memory[..|payload|] == payload <==> memory[n..|payload|] == payload[n..]
    ensures Agree(Pick(memory, wanted), wanted, payload, 0) <==> Agree(Pick(memory, wanted), wanted, payload, n)
  {
    assert memory[..|payload|] == memory[..n] + memory[n..|payload|];
    assert payload == payload[..n] + payload[n..];
    forall k | 0 <= k < |wanted| && wanted[k] < n ensures memory[wanted[k]] == payload[wanted[k]] {
      assert memory[..n][wanted[k]] == payload[..n][wanted[k]];
    }
  }

  /** The payload is in the packet, nothing more is coming in, and the stub has read nothing else. */
  ghost predicate Settled(s: State, payload: Payload) {
    && !s.receiving && s.memory[..|payload|] == payload
    && |s.api.Got()| <= |s.wanted|
    && Agree(s.api.Got(), s.wanted[..|s.api.Got()|], payload, 0)
  }

  lemma {:induction false} SettledKept(s: State, move: Move, payload: Payload)
    requires Settled(s, payload) && !move.Publish?
    requires s.api.Use? || s.api.Ended?
    ensures Settled(Apply(s, move), payload)
    ensures Apply(s, move).api.Use? || Apply(s, move).api.Ended?
  {
    var s' := Apply(s, move);
    if move == Move.Api && s.api.Use? && |s.api.got| < |s.wanted| {
      var k := |s.api.got|;
      assert s'.wanted[..k + 1] == s.wanted[..k] + [s.wanted[k]];
      if s.wanted[k] < |payload| {
        assert s.memory[..|payload|][s.wanted[k]] == payload[s.wanted[k]];
      }
    }
  }

  lemma {:induction false} RunSettled(s: State, moves: seq<Move>, payload: Payload)
    requires Settled(s, payload) && (s.api.Use? || s.api.Ended?)
    requires forall i :: 0 <= i < |moves| ==> !moves[i].Publish?
    ensures Settled(Run(s, moves), payload)
    ensures Run(s, moves).api.Use? || Run(s, moves).api.Ended?
    decreases |moves|
  {
    if moves != [] {
      RunSettled(s, moves[..|moves| - 1], payload);
      SettledKept(Run(s, moves[..|moves| - 1]), moves[|moves| - 1], payload);
    }
  }

  /** The response that the header names was published at p, after the clearing, and is the one coming in. */
  ghost predicate AnswerIncoming(s: State, p: nat) {
    && p < |s.log| && s.log[p].Published? && s.log[p].id == s.command && s.log[p].payload == s.incoming
    && Cleared in s.log && forall n :: p < n < |s.log| ==> s.log[n] != Cleared
  }

  /** When it does work: after the match, with the payload stored before the stub begins to read and nothing published
      until it has read, the result is the payload of the command's own response, whatever else the threads do. */
  lemma {:induction false} ReadsWholeAnswer(s: State, moves: seq<Move>, more: seq<Move>) returns (p: nat)
    requires Initial(s)
    requires Run(s, moves).api == Use(true, []) && Run(s, moves).headerId == s.command
    requires Run(s, moves).stored == |Run(s, moves).incoming|
    requires forall i :: 0 <= i < |more| ==> !more[i].Publish?
    requires Run(Run(s, moves), more).api.Ended?
    ensures AnswerIncoming(Run(s, moves), p)
    ensures |Run(Run(s, moves), more).api.result| == |s.wanted|
    ensures Agree(Run(Run(s, moves), more).api.result, s.wanted, Run(s, moves).incoming, 0)
  {
    RunKeeps(s, moves);
    RunTracked(s, moves, 0);
    var now := Run(s, moves);
    p := AnswerIs(now, s.incoming);
    RunKeeps(now, more);
    RunSettled(now, more, now.incoming);
    AllReadIs(Run(now, more), now.incoming);
  }

  lemma {:induction false} AnswerIs(s: State, first: Payload) returns (p: nat)
    requires Inv(s) && !s.api.Clear? && s.headerId == s.command
    requires s.incoming == Latest(s.log, first).payload
    ensures AnswerIncoming(s, p)
  {
    p := HeaderMeans(s.log);
    LatestMeans(s.log, first);
  }

  lemma {:induction false} AllReadIs(end: State, payload: Payload)
    requires Settled(end, payload) && Reading(end) && end.api.Ended?
    ensures |end.api.result| == |end.wanted| && Agree(end.api.result, end.wanted, payload, 0)
  {
    assert end.wanted[..|end.api.result|] == end.wanted;
  }
}
