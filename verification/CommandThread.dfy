/** The API thread's side of a command as the code writes it, with the packet as shared memory. */
module CommandThread {
  import opened Bgapi
  import opened CommandMatch
  import opened CommandResults

  /** sl_bt_host_handle_command as it is written, in a command stub that reads the response afterwards; between any
      two of its steps the driver thread makes the moves that the schedule gives it. */
  class CommandPort {
    const command: nat
    const wanted: seq<Position>
    const memory: array<Byte>
    var headerId: nat
    var receiving: bool
    var incoming: Payload
    var stored: nat
    var log: seq<Mark>
    var schedule: seq<seq<Move>>

    constructor (command: nat, wanted: seq<Position>, memory: array<Byte>, schedule: seq<seq<Move>>)
      requires memory.Length == MAX_PAYLOAD_SIZE
      ensures this.command == command && this.wanted == wanted && this.memory == memory && this.schedule == schedule
      ensures Valid() && !receiving && log == []
    {
      this.command, this.wanted, this.memory, this.schedule := command, wanted, memory, schedule;
      headerId, receiving, incoming, stored, log := 0, false, [], 0, [];
    }

    ghost predicate Valid()
      reads this, memory
    {
      memory.Length == MAX_PAYLOAD_SIZE && stored <= |incoming| && (receiving ==> stored < |incoming|)
      && memory[..stored] == incoming[..stored]
    }

    ghost function Seen(api: ApiAt): State
      requires memory.Length == MAX_PAYLOAD_SIZE
      reads this, memory
    {
      State(api, command, wanted, headerId, memory[..], receiving, incoming, stored, log)
    }

    method DriverRuns(ghost api: ApiAt, ghost start: State, ghost moves: seq<Move>) returns (ghost moves': seq<Move>)
      requires Valid() && Seen(api) == Run(start, moves)
      modifies this, memory
      ensures Valid() && Seen(api) == Run(start, moves')
    {
      moves' := moves;
      if schedule == [] {
        return;
      }
      var now := schedule[0];
      schedule := schedule[1..];
      for i := 0 to |now|
        invariant Valid() && Seen(api) == Run(start, moves')
      {
        moves' := DriverStep(api, start, moves', now[i]);
      }
    }

    method DriverStep(ghost api: ApiAt, ghost start: State, ghost moves: seq<Move>, move: Move)
      returns (ghost moves': seq<Move>)
      requires Valid() && Seen(api) == Run(start, moves)
      modifies this, memory
      ensures Valid() && Seen(api) == Run(start, moves')
      ensures schedule == old(schedule)
    {
      moves' := moves;
      if move == Move.Api || (receiving <==> move.Publish?) {
        return;
      }
      moves' := moves + [move];
      OneMore(start, moves, move);
      DrivingKept(Seen(api), move);
      match move {
        case Publish(id, payload) =>
          headerId, receiving, incoming, stored, log := id, payload != [], payload, 0, log + [Published(id, payload)];
        case Store(n) => ReadSome(api, n);
        case GiveUp =>
          receiving, log := false, log + [GaveUp];
      }
    }

    /** One read of at most n bytes, straight into the packet. */
    method ReadSome(ghost api: ApiAt, n: nat)
      requires Valid() && receiving
      modifies this, memory
      ensures schedule == old(schedule) && Seen(api) == Apply(old(Seen(api)), Store(n))
    {
      var left := |incoming| - stored;
      var k := if n <= left then n else left;
      var piece := incoming[stored..stored + k];
      assert piece == Piece(Seen(api), n);
      CopyIn(piece);
      stored, log := stored + k, log + [Stored(stored, piece)];
      receiving := stored < |incoming|;
    }

    method CopyIn(piece: seq<Byte>)
      requires memory.Length == MAX_PAYLOAD_SIZE && stored + |piece| <= memory.Length
      modifies memory
      ensures memory[..] == Overlay(old(memory[..]), stored, piece)
    {
      for i := 0 to |piece|
        invariant forall j :: 0 <= j < memory.Length ==>
                    memory[j] == if stored <= j < stored + i then piece[j - stored] else old(memory[j])
      {
        memory[stored + i] := piece[i];
      }
    }

    /** rx_peek_timeout */
    method Peek(ghost start: State, ghost before: seq<Move>) returns (found: bool, ghost moves: seq<Move>)
      requires Valid() && Seen(Poll(POLLS)) == Run(start, before)
      modifies this, memory
      ensures Valid() && Seen(Use(found, [])) == Run(start, moves)
    {
      var timeout: nat := POLLS;
      moves := before;
      while timeout != 0 && headerId != command
        invariant Valid() && Seen(Poll(timeout)) == Run(start, moves)
        decreases timeout
      {
        timeout, log := timeout - 1, log + [Missed];
        OneMore(start, moves, Move.Api);
        moves := DriverRuns(Poll(timeout), start, moves + [Move.Api]);
      }
      found := timeout != 0;
      log := log + [if found then Matched else TimedOut];
      OneMore(start, moves, Move.Api);
      moves := moves + [Move.Api];
    }

    method ClearAndSend(ghost start: State) returns (ghost moves: seq<Move>)
      requires Valid() && start == Seen(Clear)
      modifies this, memory
      ensures Valid() && Seen(Poll(POLLS)) == Run(start, moves)
    {
      moves := DriverRuns(Clear, start, []);
      headerId, log := 0, log + [Cleared];
      OneMore(start, moves, Move.Api);
      moves := DriverRuns(Send, start, moves + [Move.Api]);
      OneMore(start, moves, Move.Api);
      moves := DriverRuns(Poll(POLLS), start, moves + [Move.Api]);
    }

    /** The stub takes what it wants from the response. */
    method TakeResult(ghost matched: bool, ghost start: State, ghost before: seq<Move>)
      returns (result: seq<Byte>, ghost moves: seq<Move>)
      requires Valid() && Seen(Use(matched, [])) == Run(start, before)
      modifies this, memory
      ensures Valid() && Seen(Ended(matched, result)) == Run(start, moves)
    {
      result := [];
      moves := DriverRuns(Use(matched, result), start, before);
      for k := 0 to |wanted|
        invariant |result| == k && Valid() && Seen(Use(matched, result)) == Run(start, moves)
      {
        result, log := result + [memory[wanted[k]]], log + [Taken(k)];
        OneMore(start, moves, Move.Api);
        moves := DriverRuns(Use(matched, result), start, moves + [Move.Api]);
      }
      OneMore(start, moves, Move.Api);
      moves := moves + [Move.Api];
    }

    /** Every call is one of the runs above. */
    method HandleCommand() returns (result: seq<Byte>, ghost matched: bool, ghost moves: seq<Move>)
      requires Valid() && command != 0 && log == []
      modifies this, memory
      ensures Valid()
      ensures Seen(Ended(matched, result)) == Run(old(Seen(Clear)), moves)
      ensures matched ==> exists z, p, m :: AnsweredAt(log, command, z, p, m)
      ensures !matched <==> Misses(log) == 3000
      ensures MissesRight(log, command)
      ensures ReadFrom(log, old(Seen(Clear)), result)
    {
      ghost var start := Seen(Clear);
      moves := ClearAndSend(start);
      var found: bool;
      found, moves := Peek(start, moves);
      matched := found;
      result, moves := TakeResult(matched, start, moves);
      if matched {
        AnsweredByItsResponse(start, moves);
      }
      ResultIsOverlay(start, moves);
      TimesOutIff(start, moves);
    }
  }
}
