/** A command and its response: the API thread clears the response header, sends, polls the header that the driver
    thread writes, and wanted the response packet while the driver thread may be writing it.  A run is any sequence of
    steps of the two threads. */
module CommandMatch {
  import opened Bgapi
  import opened Common

  const POLLS := 3000

  type Payload = p: seq<Byte> | |p| <= MAX_PAYLOAD_SIZE

  type Position = i: nat | i < MAX_PAYLOAD_SIZE

  /** The payload bytes of the response packet. */
  type Memory = m: seq<Byte> | |m| == MAX_PAYLOAD_SIZE witness Zeros()

  function Zeros(): (m: seq<Byte>)
    ensures |m| == MAX_PAYLOAD_SIZE
  {
    seq(MAX_PAYLOAD_SIZE, _ => 0)
  }

  datatype ApiAt =
    | Clear
    | Send
    | Poll(left: nat)
    | Use(matched: bool, got: seq<Byte>)
    | Ended(matched: bool, result: seq<Byte>)
  {
    /** What the stub has read of the response so far. */
    function Got(): seq<Byte> {
      match this
      case Use(_, got) => got
      case Ended(_, result) => result
      case _ => []
    }
  }

  /** Published: the driver thread wrote the header of a response; Stored: it read some bytes of the payload into the
      packet; GaveUp: the read failed.  Missed: a poll found another id.  Taken: the stub read the next of its
      positions. */
  datatype Mark =
    | Cleared
    | Published(id: nat, payload: Payload)
    | Stored(at: nat, bytes: seq<Byte>)
    | GaveUp
    | Missed
    | Matched
    | TimedOut
    | Taken(k: nat)

  /** headerId is the id in the response header.  While receiving, the first stored bytes of incoming are in the packet
      and the others are still to be read.  reads are the positions that the stub reads, in its order. */
  datatype State = State(
    api: ApiAt, command: nat, wanted: seq<Position>, headerId: nat, memory: Memory, receiving: bool, incoming: Payload,
    stored: nat, log: seq<Mark>)

  datatype Move = Api | Publish(id: nat, payload: Payload) | Store(n: nat) | GiveUp

  /** sl_bt_host_handle_command with rx_peek_timeout, then the stub reading the response byte by byte. */
  function ApiStep(s: State): State {
    match s.api
    case Clear => s.(api := Send, headerId := 0, log := s.log + [Cleared])
    case Send => s.(api := Poll(POLLS))
    case Poll(left) =>
      if left == 0 then s.(api := Use(false, []), log := s.log + [TimedOut])
      else if s.headerId == s.command then s.(api := Use(true, []), log := s.log + [Matched])
      else s.(api := Poll(left - 1), log := s.log + [Missed])
    case Use(matched, got) =>
      if |got| < |s.wanted|
      then s.(api := Use(matched, got + [s.memory[s.wanted[|got|]]]), log := s.log + [Taken(|got|)])
      else s.(api := Ended(matched, got))
    case Ended(_, _) => s
  }

  /** Bytes written into the packet. */
  function Overlay(memory: Memory, at: nat, bytes: seq<Byte>): Memory {
    seq(MAX_PAYLOAD_SIZE, i requires 0 <= i < MAX_PAYLOAD_SIZE =>
      if at <= i < at + |bytes| then bytes[i - at] else memory[i])
  }

  /** What one read brings: at most n of the bytes still missing. */
  function Piece(s: State, n: nat): seq<Byte> {
    var left := if s.stored <= |s.incoming| then s.incoming[s.stored..] else [];
    if n <= |left| then left[..n] else left
  }

  /** The response branch of gecko_wait_message: the header first, then the payload read by read. */
  function Apply(s: State, move: Move): State {
    match move
    case Api => ApiStep(s)
    case Publish(id, payload) =>
      if s.receiving then s
      else s.(headerId := id, receiving := payload != [], incoming := payload, stored := 0,
              log := s.log + [Published(id, payload)])
    case Store(n) =>
      if !s.receiving then s
      else
        var piece := Piece(s, n);
        s.(memory := Overlay(s.memory, s.stored, piece), stored := s.stored + |piece|,
           receiving := s.stored + |piece| < |s.incoming|, log := s.log + [Stored(s.stored, piece)])
    case GiveUp => if s.receiving then s.(receiving := false, log := s.log + [GaveUp]) else s
  }

  function Run(s: State, moves: seq<Move>): State {
    if moves == [] then s else Apply(Run(s, moves[..|moves| - 1]), moves[|moves| - 1])
  }

  /** The driver thread is at any point of a response, or between two. */
  ghost predicate Driving(s: State) {
    && s.stored <= |s.incoming|
    && (s.receiving ==> s.stored < |s.incoming|)
    && s.memory[..s.stored] == s.incoming[..s.stored]
  }

  ghost predicate Initial(s: State) {
    s.api == Clear && s.command != 0 && s.log == [] && Driving(s)
  }

  // What every run keeps.

  lemma {:induction false} OverlayFront(memory: Memory, incoming: Payload, at: nat, n: nat)
    requires at <= n <= |incoming|
    requires memory[..at] == incoming[..at]
    ensures Overlay(memory, at, incoming[at..n])[..n] == incoming[..n]
  {
    var after := Overlay(memory, at, incoming[at..n]);
    forall i | 0 <= i < n ensures after[i] == incoming[i] {
      if i < at {
        assert memory[..at][i] == incoming[..at][i];
      }
    }
  }

  lemma {:induction false} PieceIs(s: State, n: nat)
    requires s.stored <= |s.incoming|
    ensures s.stored + |Piece(s, n)| <= |s.incoming|
    ensures Piece(s, n) == s.incoming[s.stored..s.stored + |Piece(s, n)|]
  {
  }

  lemma {:induction false} DrivingKept(s: State, move: Move)
    requires Driving(s)
    ensures Driving(Apply(s, move))
  {
    if move.Store? && s.receiving {
      PieceIs(s, move.n);
      OverlayFront(s.memory, s.incoming, s.stored, s.stored + |Piece(s, move.n)|);
    }
  }

  /** The id in the response header, read off the history of a cleared header. */
  function HeaderOf(log: seq<Mark>): nat {
    if log == [] then 0
    else
      match log[|log| - 1]
      case Cleared => 0
      case Published(id, _) => id
      case _ => HeaderOf(log[..|log| - 1])
  }

  /** Every match was made on a header published after the clearing, with the id of the command. */
  ghost predicate AllMatchesGood(log: seq<Mark>, command: nat) {
    forall m :: 0 <= m < |log| && log[m] == Matched ==> Cleared in log[..m] && HeaderOf(log[..m]) == command
  }

  /** The header agrees with the history. */
  ghost predicate Faithful(s: State) {
    !s.api.Clear? ==> Cleared in s.log && s.headerId == HeaderOf(s.log)
  }

  /** A match is in the history. */
  ghost predicate Remembered(s: State) {
    (s.api.Use? || s.api.Ended?) && s.api.matched ==> Matched in s.log
  }

  /** The stub reads its positions one after the other. */
  ghost predicate Reading(s: State) {
    |s.api.Got()| <= |s.wanted| && (s.api.Ended? ==> |s.api.result| == |s.wanted|)
  }

  ghost predicate Inv(s: State) {
    s.command != 0 && Driving(s) && Faithful(s) && AllMatchesGood(s.log, s.command) && Remembered(s) && Reading(s)
  }

  lemma {:induction false} HeaderAfter(log: seq<Mark>, mark: Mark)
    ensures HeaderOf(log + [mark]) == match mark
                                      case Cleared => 0
                                      case Published(id, _) => id
                                      case _ => HeaderOf(log)
  {
    assert (log + [mark])[..|log|] == log;
  }

  /** A step adds at most one mark to the history. */
  lemma {:induction false} OneMark(s: State, move: Move)
    ensures var s' := Apply(s, move);
            s'.log == s.log || (|s'.log| == |s.log| + 1 && s'.log == s.log + [s'.log[|s.log|]])
  {
  }

  lemma {:induction false} MatchesKept(log: seq<Mark>, mark: Mark, command: nat)
    requires AllMatchesGood(log, command)
    requires mark == Matched ==> Cleared in log && HeaderOf(log) == command
    ensures AllMatchesGood(log + [mark], command)
  {
    var log' := log + [mark];
    forall m | 0 <= m < |log'| && log'[m] == Matched
      ensures Cleared in log'[..m] && HeaderOf(log'[..m]) == command
    {
      assert log'[..m] == log[..m];
      assert log[..|log|] == log;
    }
  }

  lemma {:induction false} FaithfulKept(s: State, move: Move)
    requires Faithful(s)
    ensures Faithful(Apply(s, move))
  {
    var s' := Apply(s, move);
    OneMark(s, move);
    if s'.log != s.log {
      var mark := s'.log[|s.log|];
      assert mark in s'.log;
      HeaderAfter(s.log, mark);
    }
  }

  lemma {:induction false} RememberedKept(s: State, move: Move)
    requires Remembered(s)
    ensures Remembered(Apply(s, move))
  {
    var s' := Apply(s, move);
    OneMark(s, move);
    if s'.log != s.log {
      var mark := s'.log[|s.log|];
      assert mark in s'.log;
    }
  }

  lemma {:induction false} GoodKept(s: State, move: Move)
    requires Faithful(s) && AllMatchesGood(s.log, s.command)
    ensures AllMatchesGood(Apply(s, move).log, s.command)
  {
    var s' := Apply(s, move);
    OneMark(s, move);
    if s'.log != s.log {
      MatchesKept(s.log, s'.log[|s.log|], s.command);
    }
  }

  lemma {:induction false} Constants(s: State, move: Move)
    ensures Apply(s, move).command == s.command && Apply(s, move).wanted == s.wanted
    ensures Reading(s) ==> Reading(Apply(s, move))
  {
  }

  lemma {:induction false} RunKeeps(s: State, moves: seq<Move>)
    requires Inv(s)
    ensures Inv(Run(s, moves)) && Run(s, moves).command == s.command && Run(s, moves).wanted == s.wanted
    decreases |moves|
  {
    if moves != [] {
      var front, move := moves[..|moves| - 1], moves[|moves| - 1];
      RunKeeps(s, front);
      var now := Run(s, front);
      DrivingKept(now, move);
      FaithfulKept(now, move);
      GoodKept(now, move);
      RememberedKept(now, move);
      Constants(now, move);
    }
  }

  /** So the next command may start in whatever state the driver thread is left in. */
  lemma {:induction false} NextCommandStarts(s: State, moves: seq<Move>, command: nat, wanted: seq<Position>)
    requires Initial(s) && command != 0
    ensures Initial(Run(s, moves).(api := Clear, command := command, wanted := wanted, log := []))
  {
    RunKeeps(s, moves);
  }

  /** A header that is not clear was published by the driver thread, and nothing was published or cleared since. */
  lemma {:induction false} HeaderMeans(log: seq<Mark>) returns (p: nat)
    requires HeaderOf(log) != 0
    ensures p < |log| && log[p].Published? && log[p].id == HeaderOf(log)
    ensures forall n :: p < n < |log| ==> log[n] != Cleared && !log[n].Published?
    decreases |log|
  {
    var last := |log| - 1;
    if log[last].Published? {
      return last;
    }
    p := HeaderMeans(log[..last]);
  }

  /** The header was cleared at z, published with the id of the command at p, as the last one before the match at m. */
  ghost predicate AnsweredAt(log: seq<Mark>, command: nat, z: nat, p: nat, m: nat) {
    && z < p < m < |log| && log[z] == Cleared && log[m] == Matched
    && log[p].Published? && log[p].id == command
    && forall n :: p < n < m ==> !log[n].Published?
  }

  /** Over every interleaving: a command is reported as answered only if the driver thread published a response
      header with the id of the command after the header was cleared for it. */
  lemma {:induction false} AnsweredByItsResponse(s: State, moves: seq<Move>)
    requires Initial(s)
    requires Run(s, moves).api.Ended? && Run(s, moves).api.matched
    ensures exists z, p, m :: AnsweredAt(Run(s, moves).log, s.command, z, p, m)
  {
    RunKeeps(s, moves);
    var log := Run(s, moves).log;
    var m :| 0 <= m < |log| && log[m] == Matched;
    var z, p := MatchMeans(log, s.command, m);
    assert AnsweredAt(log, s.command, z, p, m);
  }

  lemma {:induction false} MatchMeans(log: seq<Mark>, command: nat, m: nat) returns (z: nat, p: nat)
    requires AllMatchesGood(log, command) && command != 0 && m < |log| && log[m] == Matched
    ensures AnsweredAt(log, command, z, p, m)
  {
    p := HeaderMeans(log[..m]);
    z :| z < m && log[..m][z] == Cleared;
    assert log[z] == Cleared && log[p] == log[..m][p];
    assert forall n :: p < n < m ==> log[n] == log[..m][n];
  }

  /** How often a poll found another id. */
  function Misses(log: seq<Mark>): nat {
    if log == [] then 0 else Misses(log[..|log| - 1]) + if log[|log| - 1] == Missed then 1 else 0
  }

  /** Each of those polls was right: the header did not have the command's id then. */
  ghost predicate MissesRight(log: seq<Mark>, command: nat) {
    forall q :: 0 <= q < |log| && log[q] == Missed ==> HeaderOf(log[..q]) != command
  }

  ghost predicate Polled(s: State) {
    && MissesRight(s.log, s.command)
    && match s.api
       case Clear => Misses(s.log) == 0
       case Send => Misses(s.log) == 0
       case Poll(left) => Misses(s.log) + left == 3000
       case Use(matched, _) => if matched then Misses(s.log) < 3000 else Misses(s.log) == 3000
       case Ended(matched, _) => if matched then Misses(s.log) < 3000 else Misses(s.log) == 3000
  }

  lemma {:induction false} MissesAfter(log: seq<Mark>, mark: Mark, command: nat)
    requires MissesRight(log, command)
    requires mark == Missed ==> HeaderOf(log) != command
    ensures MissesRight(log + [mark], command)
    ensures Misses(log + [mark]) == Misses(log) + if mark == Missed then 1 else 0
  {
    var after := log + [mark];
    assert after[..|log|] == log;
    forall q | 0 <= q < |after| && after[q] == Missed ensures HeaderOf(after[..q]) != command {
      assert q < |log| ==> after[..q] == log[..q];
    }
  }

  lemma {:induction false} PolledKept(s: State, move: Move)
    requires Polled(s) && Faithful(s)
    ensures Polled(Apply(s, move))
  {
    var s' := Apply(s, move);
    OneMark(s, move);
    if s'.log != s.log {
      MissesAfter(s.log, s'.log[|s.log|], s.command);
    }
  }

  lemma {:induction false} RunPolled(s: State, moves: seq<Move>)
    requires Initial(s)
    ensures Polled(Run(s, moves))
    decreases |moves|
  {
    if moves != [] {
      var front := moves[..|moves| - 1];
      RunPolled(s, front);
      RunKeeps(s, front);
      PolledKept(Run(s, front), moves[|moves| - 1]);
    }
  }

  /** Over every interleaving: a command times out if and only if it polled 3000 times, and at each of its polls the
      header published or cleared last had another id. */
  lemma {:induction false} TimesOutIff(s: State, moves: seq<Move>)
    requires Initial(s)
    requires Run(s, moves).api.Ended?
    ensures !Run(s, moves).api.matched <==> Misses(Run(s, moves).log) == 3000
    ensures Misses(Run(s, moves).log) <= 3000 && MissesRight(Run(s, moves).log, s.command)
  {
    RunPolled(s, moves);
    RunKeeps(s, moves);
  }
}
