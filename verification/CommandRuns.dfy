/** Runs of a command that show what the protocol lets through: stale, torn and foreign payloads. */
module CommandRuns {
  import opened Bgapi
  import opened Common
  import opened CommandMatch
  import opened CommandResults

  lemma {:induction false} TwoMoves(s: State)
    requires Initial(s)
    ensures Run(s, [Move.Api, Move.Api]) == s.(api := Poll(POLLS), headerId := 0, log := [Cleared])
  {
    OneMore(s, [], Move.Api);
    OneMore(s, [Move.Api], Move.Api);
    assert [] + [Move.Api] == [Move.Api] && [Move.Api] + [Move.Api] == [Move.Api, Move.Api];
  }

  /** A response is published. */
  lemma {:induction false} Publishes(s: State, moves: seq<Move>, id: nat, payload: Payload)
    requires !Run(s, moves).receiving
    ensures Run(s, moves + [Publish(id, payload)]) ==
            Run(s, moves).(headerId := id, receiving := payload != [], incoming := payload, stored := 0,
                           log := Run(s, moves).log + [Published(id, payload)])
  {
    OneMore(s, moves, Publish(id, payload));
  }

  /** The first n bytes of its payload are stored. */
  ghost predicate Front(now: State, after: State, payload: Payload, n: nat)
    requires n <= |payload|
  {
    && after.api == now.api && after.command == now.command && after.wanted == now.wanted
    && after.receiving == (n < |payload|) && after.memory == payload[..n] + now.memory[n..]
  }

  lemma {:induction false} StoresFront(now: State, n: nat)
    requires now.stored == 0 && n <= |now.incoming|
    requires now.receiving == (now.incoming != [])
    ensures Front(now, Apply(now, Store(n)), now.incoming, n) && Apply(now, Store(n)).headerId == now.headerId
  {
    OverlayIsFront(now.memory, now.incoming[..n]);
    if !now.receiving {
      assert now.incoming[..n] + now.memory[n..] == now.memory;
    }
  }

  lemma {:induction false} Stores(s: State, moves: seq<Move>, n: nat)
    requires Run(s, moves).stored == 0 && n <= |Run(s, moves).incoming|
    requires Run(s, moves).receiving == (Run(s, moves).incoming != [])
    ensures Front(Run(s, moves), Run(s, moves + [Store(n)]), Run(s, moves).incoming, n)
    ensures Run(s, moves + [Store(n)]).headerId == Run(s, moves).headerId
  {
    OneMore(s, moves, Store(n));
    StoresFront(Run(s, moves), n);
  }

  /** A response is published and the first n bytes of its payload are stored. */
  lemma {:induction false} PublishesAndStores(s: State, moves: seq<Move>, id: nat, payload: Payload, n: nat)
    requires !Run(s, moves).receiving && n <= |payload|
    ensures Front(Run(s, moves), Run(s, moves + [Publish(id, payload), Store(n)]), payload, n)
    ensures Run(s, moves + [Publish(id, payload), Store(n)]).headerId == id
  {
    var now := Run(s, moves);
    TwoMore(s, moves, Publish(id, payload), Store(n));
    var published := Apply(now, Publish(id, payload));
    StoresFront(published, n);
    SameFront(now, published, Apply(published, Store(n)), payload, n);
  }

  lemma {:induction false} SameFront(now: State, published: State, after: State, payload: Payload, n: nat)
    requires n <= |payload| && Front(published, after, payload, n)
    requires published.api == now.api && published.command == now.command && published.wanted == now.wanted
    requires published.memory == now.memory
    ensures Front(now, after, payload, n)
  {
  }

  lemma {:induction false} TwoMore(s: State, moves: seq<Move>, first: Move, second: Move)
    ensures Run(s, moves + [first, second]) == Apply(Apply(Run(s, moves), first), second)
  {
    var one := moves + [first];
    OneMore(s, moves, first);
    OneMore(s, one, second);
    Same(s, one + [second], moves + [first, second]);
  }

  lemma {:induction false} Same(s: State, moves: seq<Move>, others: seq<Move>)
    requires moves == others
    ensures Run(s, moves) == Run(s, others)
  {
  }

  lemma {:induction false} Matches(s: State, moves: seq<Move>)
    requires Run(s, moves).api == Poll(POLLS) && Run(s, moves).headerId == Run(s, moves).command
    ensures Run(s, moves + [Move.Api]) == Run(s, moves).(api := Use(true, []), log := Run(s, moves).log + [Matched])
  {
    OneMore(s, moves, Move.Api);
  }

  lemma {:induction false} OverlayIsFront(memory: Memory, bytes: Payload)
    ensures Overlay(memory, 0, bytes) == bytes + memory[|bytes|..]
  {
  }

  /** The header is published before the payload is read, so a poll that falls behind the first n bytes of it succeeds,
      and the stub reads those and behind them what the packet held before. */
  lemma {:induction false} TornPayload(s: State, payload: Payload, n: nat)
    requires Initial(s) && !s.receiving && n <= |payload|
    ensures var moves := [Move.Api, Move.Api, Publish(s.command, payload), Store(n), Move.Api];
            Run(s, moves + Repeat(|s.wanted| + 1)).api == Ended(true, Pick(payload[..n] + s.memory[n..], s.wanted))
  {
    var two := [Move.Api, Move.Api];
    TwoMoves(s);
    PublishesAndStores(s, two, s.command, payload, n);
    var four := two + [Publish(s.command, payload), Store(n)];
    Matches(s, four);
    assert four + [Move.Api] == [Move.Api, Move.Api, Publish(s.command, payload), Store(n), Move.Api];
    ReadsAll(s, four + [Move.Api], Run(s, four + [Move.Api]), true);
  }

  /** Two bytes of 255 in the packet and two of 0 in the response: the stub gets one of each. */
  lemma {:induction false} TornResult(s: State)
    requires Initial(s) && !s.receiving && s.wanted == [0, 1] && s.memory[..2] == [255, 255]
    ensures var moves := [Move.Api, Move.Api, Publish(s.command, [0, 0]), Store(1), Move.Api];
            Run(s, moves + Repeat(3)).api == Ended(true, [0, 255])
  {
    TornPayload(s, [0, 0], 1);
    var torn := [0, 0][..1] + s.memory[1..];
    assert torn[0] == 0 && torn[1] == s.memory[..2][1] == 255;
    assert Pick(torn, s.wanted) == [0, 255];
  }

  /** Before its first byte the stub reads whatever the packet held. */
  lemma {:induction false} PayloadMayBeStale(s: State, payload: Payload)
    requires Initial(s) && !s.receiving
    ensures var moves := [Move.Api, Move.Api, Publish(s.command, payload), Move.Api];
            Run(s, moves + Repeat(|s.wanted| + 1)).api == Ended(true, Pick(s.memory, s.wanted))
  {
    var two := [Move.Api, Move.Api];
    TwoMoves(s);
    var three := two + [Publish(s.command, payload)];
    Publishes(s, two, s.command, payload);
    Matches(s, three);
    assert three + [Move.Api] == [Move.Api, Move.Api, Publish(s.command, payload), Move.Api];
    ReadsAll(s, three + [Move.Api], Run(s, three + [Move.Api]), true);
  }

  /** A response stored between the match and the reading is what the stub gets, though its own was stored whole. */
  lemma {:induction false} OvertakenByAnother(s: State, own: Payload, id: nat, other: Payload)
    requires Initial(s) && !s.receiving
    ensures var moves := [Move.Api, Move.Api, Publish(s.command, own), Move.Api, Store(|own|),
                          Publish(id, other), Store(|other|)];
            var memory := own + s.memory[|own|..];
            Run(s, moves + Repeat(|s.wanted| + 1)).api == Ended(true, Pick(other + memory[|other|..], s.wanted))
  {
    var two := [Move.Api, Move.Api];
    TwoMoves(s);
    Publishes(s, two, s.command, own);
    var three := two + [Publish(s.command, own)];
    Matches(s, three);
    var four := three + [Move.Api];
    Stores(s, four, |own|);
    assert own[..|own|] == own;
    var five := four + [Store(|own|)];
    PublishesAndStores(s, five, id, other, |other|);
    assert other[..|other|] == other;
    var seven := five + [Publish(id, other), Store(|other|)];
    assert seven == [Move.Api, Move.Api, Publish(s.command, own), Move.Api, Store(|own|),
                     Publish(id, other), Store(|other|)];
    ReadsAll(s, seven, Run(s, seven), true);
  }

  lemma {:induction false} PollsGoOn(s: State, n: nat)
    requires s.api == Poll(POLLS) && s.headerId != s.command
    requires n <= POLLS
    ensures var after := ApiSteps(s, n);
            && after.api == Poll(POLLS - n) && after.headerId == s.headerId && after.command == s.command
            && after.memory == s.memory && after.wanted == s.wanted
  {
    if n != 0 {
      PollsGoOn(s, n - 1);
    }
  }

  /** Any other response that is stored while the command polls is returned as its result once the polls are used up. */
  lemma {:induction false} AnotherResponseIsReturned(s: State, id: nat, payload: Payload)
    requires Initial(s) && !s.receiving && id != s.command
    ensures var moves := [Move.Api, Move.Api, Publish(id, payload), Store(|payload|)] + Repeat(POLLS) + [Move.Api];
            Run(s, moves + Repeat(|s.wanted| + 1)).api
            == Ended(false, Pick(payload + s.memory[|payload|..], s.wanted))
  {
    var two := [Move.Api, Move.Api];
    TwoMoves(s);
    PublishesAndStores(s, two, id, payload, |payload|);
    assert payload[..|payload|] == payload;
    var four := two + [Publish(id, payload), Store(|payload|)];
    assert four == [Move.Api, Move.Api, Publish(id, payload), Store(|payload|)];
    UsesUpPolls(s, four, Run(s, four));
  }

  lemma {:induction false} UsesUpPolls(s: State, moves: seq<Move>, waiting: State)
    requires waiting == Run(s, moves) && waiting.api == Poll(POLLS) && waiting.headerId != waiting.command
    ensures Run(s, moves + Repeat(POLLS) + [Move.Api] + Repeat(|waiting.wanted| + 1)).api
         == Ended(false, Pick(waiting.memory, waiting.wanted))
  {
    RunsAlone(s, moves, POLLS);
    PollsGoOn(waiting, POLLS);
    OneMore(s, moves + Repeat(POLLS), Move.Api);
    var end := ApiStep(ApiSteps(waiting, POLLS));
    ReadsAll(s, moves + Repeat(POLLS) + [Move.Api], end, false);
  }
}
