/** When a reset fails and when it succeeds, read off the history of the two threads. */
module ResetOutcome {
  import opened ResetHandshake

  /** The two shared flags after a history that began with some value of each. */
  predicate WantedBy(log: seq<Mark>, first: bool) {
    if log == [] then first
    else
      match log[|log| - 1]
      case Raised => true
      case Cleared => false
      case _ => WantedBy(log[..|log| - 1], first)
  }

  predicate BootedBy(log: seq<Mark>, first: bool) {
    if log == [] then first
    else
      match log[|log| - 1]
      case Booted => true
      case Off => false
      case _ => BootedBy(log[..|log| - 1], first)
  }

  /** What the API thread saw at mark i is what the history before it says. */
  predicate SawRight(log: seq<Mark>, i: nat, wanted: bool, booted: bool)
    requires i < |log|
  {
    match log[i]
    case StillUp => WantedBy(log[..i], wanted)
    case StillBooted => BootedBy(log[..i], booted)
    case Unbooted => !BootedBy(log[..i], booted)
    case NotYetBooted => !BootedBy(log[..i], booted)
    case NeverBooted => !BootedBy(log[..i], booted)
    case Finished(success) => success ==> BootedBy(log[..i], booted)
    case _ => true
  }

  ghost predicate Truthful(log: seq<Mark>, wanted: bool, booted: bool) {
    forall i :: 0 <= i < |log| ==> SawRight(log, i, wanted, booted)
  }

  /** How often a mark occurs after the last raise. */
  function Since(log: seq<Mark>, mark: Mark): nat {
    if log == [] || log[|log| - 1] == Raised then 0
    else Since(log[..|log| - 1], mark) + if log[|log| - 1] == mark then 1 else 0
  }

  function Raises(log: seq<Mark>): nat {
    if log == [] then 0 else Raises(log[..|log| - 1]) + if log[|log| - 1] == Raised then 1 else 0
  }

  /** The history up to the last raise. */
  function BeforeRaise(log: seq<Mark>): seq<Mark> {
    if log == [] then []
    else if log[|log| - 1] == Raised then log[..|log| - 1]
    else BeforeRaise(log[..|log| - 1])
  }

  /** The attempt that began with the last raise used up its 300 off polls, or found the module booted at the off check,
      or found it unbooted at all 30 boot polls and at the check after them. */
  predicate GaveUp(log: seq<Mark>) {
    || Since(log, StillUp) == 300
    || Since(log, StillBooted) > 0
    || (Since(log, NotYetBooted) == 30 && Since(log, NeverBooted) > 0)
  }

  /** There were exactly n attempts, and each of them gave up. */
  predicate AllGaveUp(log: seq<Mark>, n: nat)
    decreases n
  {
    if n == 0 then Raises(log) == 0
    else Raises(log) > 0 && GaveUp(log) && AllGaveUp(BeforeRaise(log), n - 1)
  }

  /** An attempt is under way behind so many that gave up, and has seen so much. */
  predicate Trying(log: seq<Mark>, tries: nat, offPolls: nat, bootPolls: nat) {
    && Raises(log) > 0 && AllGaveUp(BeforeRaise(log), tries)
    && Since(log, StillUp) + offPolls == 300 && Since(log, NotYetBooted) + bootPolls == 30
    && Since(log, StillBooted) == 0 && Since(log, NeverBooted) == 0
  }

  /** The program counter, the countdowns and the history agree. */
  predicate Counted(s: State) {
    match s.api
    case Begin => AllGaveUp(s.log, s.tries)
    case Raise => AllGaveUp(s.log, s.tries) && s.offPolls == 300 && s.bootPolls == 30
    case AwaitOff => Trying(s.log, s.tries, s.offPolls, s.bootPolls) && s.bootPolls == 30
    case CheckOff => Trying(s.log, s.tries, s.offPolls, s.bootPolls) && s.bootPolls == 30
    case PowerOn => Trying(s.log, s.tries, s.offPolls, s.bootPolls) && s.offPolls > 0
    case AwaitBoot => Trying(s.log, s.tries, s.offPolls, s.bootPolls) && s.offPolls > 0
    case CheckBoot =>
      Trying(s.log, s.tries, s.offPolls, s.bootPolls) && s.offPolls > 0 && (s.booted || s.bootPolls == 0)
    case Ended(success) => if success then Raises(s.log) > 0 && !GaveUp(s.log) else AllGaveUp(s.log, 3)
  }

  lemma {:induction false} FoldsAfter(log: seq<Mark>, mark: Mark)
    ensures Raises(log + [mark]) == Raises(log) + if mark == Raised then 1 else 0
    ensures BeforeRaise(log + [mark]) == if mark == Raised then log else BeforeRaise(log)
  {
    assert (log + [mark])[..|log|] == log;
  }

  lemma {:induction false} SinceAfter(log: seq<Mark>, mark: Mark, counted: Mark)
    ensures Since(log + [mark], counted)
         == if mark == Raised then 0 else Since(log, counted) + if mark == counted then 1 else 0
  {
    assert (log + [mark])[..|log|] == log;
  }

  lemma {:induction false} CountsAfter(log: seq<Mark>, mark: Mark)
    ensures Raises(log + [mark]) == Raises(log) + if mark == Raised then 1 else 0
    ensures BeforeRaise(log + [mark]) == if mark == Raised then log else BeforeRaise(log)
    ensures forall counted :: counted in {StillUp, StillBooted, NotYetBooted, NeverBooted} ==>
              Since(log + [mark], counted)
              == if mark == Raised then 0 else Since(log, counted) + if mark == counted then 1 else 0
  {
    FoldsAfter(log, mark);
    SinceAfter(log, mark, StillUp);
    SinceAfter(log, mark, StillBooted);
    SinceAfter(log, mark, NotYetBooted);
    SinceAfter(log, mark, NeverBooted);
  }

  /** The marks that leave the counts of an attempt alone. */
  lemma {:induction false} UncountedAfter(log: seq<Mark>, mark: Mark)
    requires mark in {Off, Cleared, Booted, Unbooted} || mark.Finished?
    ensures GaveUp(log + [mark]) == GaveUp(log) && Raises(log + [mark]) == Raises(log)
    ensures forall n: nat :: AllGaveUp(log + [mark], n) == AllGaveUp(log, n)
    ensures forall tries: nat, offPolls: nat, bootPolls: nat ::
              Trying(log + [mark], tries, offPolls, bootPolls) == Trying(log, tries, offPolls, bootPolls)
  {
    CountsAfter(log, mark);
  }

  lemma {:induction false} CountedByDriver(s: State, move: Move)
    requires Inv(s) && Counted(s) && move != Api
    ensures Counted(Apply(s, move))
  {
    var s' := Apply(s, move);
    if s'.log != s.log {
      var mark := s'.log[|s.log|];
      assert s'.log == s.log + [mark];
      UncountedAfter(s.log, mark);
    }
  }

  lemma {:induction false} RaiseBegins(log: seq<Mark>, tries: nat)
    requires AllGaveUp(log, tries)
    ensures Trying(log + [Raised], tries, 300, 30)
  {
    CountsAfter(log, Raised);
  }

  lemma {:induction false} PollsCount(log: seq<Mark>, tries: nat, offPolls: nat, bootPolls: nat)
    requires Trying(log, tries, offPolls, bootPolls)
    ensures offPolls > 0 ==> Trying(log + [StillUp], tries, offPolls - 1, bootPolls)
    ensures bootPolls > 0 ==> Trying(log + [NotYetBooted], tries, offPolls, bootPolls - 1)
  {
    CountsAfter(log, StillUp);
    CountsAfter(log, NotYetBooted);
  }

  lemma {:induction false} OneMoreGaveUp(log: seq<Mark>, tries: nat)
    requires Raises(log) > 0 && GaveUp(log) && AllGaveUp(BeforeRaise(log), tries)
    ensures AllGaveUp(log, tries + 1)
  {
  }

  lemma {:induction false} AttemptFails(log: seq<Mark>, tries: nat, offPolls: nat, bootPolls: nat)
    requires Trying(log, tries, offPolls, bootPolls)
    ensures offPolls == 0 ==> AllGaveUp(log, tries + 1)
    ensures AllGaveUp(log + [StillBooted], tries + 1)
    ensures bootPolls == 0 ==> AllGaveUp(log + [NeverBooted], tries + 1)
    ensures offPolls > 0 ==> !GaveUp(log)
  {
    CountsAfter(log, StillBooted);
    CountsAfter(log, NeverBooted);
    OneMoreGaveUp(log + [StillBooted], tries);
    if offPolls == 0 {
      OneMoreGaveUp(log, tries);
    }
    if bootPolls == 0 {
      OneMoreGaveUp(log + [NeverBooted], tries);
    }
  }

  lemma {:induction false} CountedAtBegin(s: State)
    requires Inv(s) && Counted(s) && (s.api.Begin? || s.api.Raise?)
    ensures Counted(ApiStep(s))
  {
    if s.api.Raise? {
      RaiseBegins(s.log, s.tries);
    } else {
      UncountedAfter(s.log, Finished(false));
    }
  }

  lemma {:induction false} CountedAtPoll(s: State)
    requires Counted(s) && (s.api.AwaitOff? || s.api.AwaitBoot?)
    ensures Counted(ApiStep(s))
  {
    PollsCount(s.log, s.tries, s.offPolls, s.bootPolls);
  }

  lemma {:induction false} CountedAtOffCheck(s: State)
    requires Counted(s) && s.api.CheckOff?
    ensures Counted(ApiStep(s))
  {
    AttemptFails(s.log, s.tries, s.offPolls, s.bootPolls);
    UncountedAfter(s.log, Unbooted);
  }

  lemma {:induction false} CountedAtBootCheck(s: State)
    requires Counted(s) && s.api.CheckBoot?
    ensures Counted(ApiStep(s))
  {
    AttemptFails(s.log, s.tries, s.offPolls, s.bootPolls);
    UncountedAfter(s.log, Finished(true));
  }

  lemma {:induction false} CountedByApi(s: State)
    requires Inv(s) && Counted(s)
    ensures Counted(ApiStep(s))
  {
    match s.api
    case Begin => CountedAtBegin(s);
    case Raise => CountedAtBegin(s);
    case AwaitOff => CountedAtPoll(s);
    case AwaitBoot => CountedAtPoll(s);
    case CheckOff => CountedAtOffCheck(s);
    case CheckBoot => CountedAtBootCheck(s);
    case _ =>
  }

  lemma {:induction false} RunCounted(s: State, moves: seq<Move>)
    requires Initial(s)
    ensures Counted(Run(s, moves))
    decreases |moves|
  {
    if moves != [] {
      var front, move := moves[..|moves| - 1], moves[|moves| - 1];
      RunCounted(s, front);
      RunKeeps(s, front);
      if move == Api {
        CountedByApi(Run(s, front));
      } else {
        CountedByDriver(Run(s, front), move);
      }
    }
  }

  // The history is truthful.

  lemma {:induction false} FlagsAfter(log: seq<Mark>, mark: Mark, wanted: bool, booted: bool)
    ensures WantedBy(log + [mark], wanted)
         == if mark == Raised then true else if mark == Cleared then false else WantedBy(log, wanted)
    ensures BootedBy(log + [mark], booted)
         == if mark == Booted then true else if mark == Off then false else BootedBy(log, booted)
  {
    assert (log + [mark])[..|log|] == log;
  }

  lemma {:induction false} TruthfulAfter(log: seq<Mark>, mark: Mark, wanted: bool, booted: bool)
    requires Truthful(log, wanted, booted)
    requires SawRight(log + [mark], |log|, wanted, booted)
    ensures Truthful(log + [mark], wanted, booted)
  {
    var after := log + [mark];
    forall i | 0 <= i < |after| ensures SawRight(after, i, wanted, booted) {
      if i < |log| {
        assert after[..i] == log[..i];
        assert SawRight(log, i, wanted, booted);
      }
    }
  }

  /** The flags are what the history makes of them. */
  ghost predicate Told(s: State, wanted: bool, booted: bool) {
    s.wanted == WantedBy(s.log, wanted) && s.booted == BootedBy(s.log, booted) && Truthful(s.log, wanted, booted)
  }

  lemma {:induction false} ToldStep(s: State, s': State, mark: Mark, wanted: bool, booted: bool)
    requires Told(s, wanted, booted) && s'.log == s.log + [mark]
    requires s'.wanted == if mark == Raised then true else if mark == Cleared then false else s.wanted
    requires s'.booted == if mark == Booted then true else if mark == Off then false else s.booted
    requires match mark
             case StillUp => s.wanted
             case StillBooted => s.booted
             case Unbooted => !s.booted
             case NotYetBooted => !s.booted
             case NeverBooted => !s.booted
             case Finished(success) => success ==> s.booted
             case _ => true
    ensures Told(s', wanted, booted)
  {
    FlagsAfter(s.log, mark, wanted, booted);
    assert s'.log[..|s.log|] == s.log;
    TruthfulAfter(s.log, mark, wanted, booted);
  }

  lemma {:induction false} ToldKept(s: State, move: Move, wanted: bool, booted: bool)
    requires Told(s, wanted, booted)
    ensures Told(Apply(s, move), wanted, booted)
  {
    var s' := Apply(s, move);
    if s'.log != s.log {
      var mark := s'.log[|s.log|];
      assert s'.log == s.log + [mark];
      ToldStep(s, s', mark, wanted, booted);
    } else {
      SameFlags(s, move);
    }
  }

  lemma {:induction false} SameFlags(s: State, move: Move)
    requires Apply(s, move).log == s.log
    ensures Apply(s, move).wanted == s.wanted && Apply(s, move).booted == s.booted
  {
  }

  lemma {:induction false} RunTold(s: State, moves: seq<Move>)
    requires Initial(s)
    ensures Told(Run(s, moves), s.wanted, s.booted)
    decreases |moves|
  {
    if moves != [] {
      RunTold(s, moves[..|moves| - 1]);
      ToldKept(Run(s, moves[..|moves| - 1]), moves[|moves| - 1], s.wanted, s.booted);
    }
  }

  /** Over every interleaving: the call reports failure only after exactly three attempts, each of which used up its 300
      off polls, or found the module booted at the off check, or found it unbooted at all 30 boot polls and at the check
      after them; and what it found is what the driver thread had made of the flags. */
  lemma {:induction false} FailureIsReal(s: State, moves: seq<Move>)
    requires Initial(s)
    requires Run(s, moves).api == Ended(false)
    ensures AllGaveUp(Run(s, moves).log, 3)
    ensures Truthful(Run(s, moves).log, s.wanted, s.booted)
  {
    RunCounted(s, moves);
    RunTold(s, moves);
  }

  /** So a call that has ended has succeeded exactly if its last attempt did not give up. */
  lemma {:induction false} SucceedsIff(s: State, moves: seq<Move>)
    requires Initial(s)
    requires Run(s, moves).api.Ended?
    ensures Raises(Run(s, moves).log) > 0
    ensures Run(s, moves).api == Ended(true) <==> !GaveUp(Run(s, moves).log)
  {
    RunCounted(s, moves);
  }

  /** And a call that is given its 1012 steps ends in success unless its last attempt gave up. */
  lemma {:induction false} EndsInSuccess(s: State, moves: seq<Move>)
    requires Initial(s)
    requires ApiMoves(moves) >= 1012 && !GaveUp(Run(s, moves).log)
    ensures Run(s, moves).api == Ended(true)
  {
    AlwaysEnds(s, moves);
    SucceedsIff(s, moves);
  }

  // Such runs exist.

  lemma {:induction false} OneMove(s: State, moves: seq<Move>, now: State, move: Move)
    requires now == Run(s, moves)
    ensures Run(s, moves + [move]) == Apply(now, move)
  {
    assert (moves + [move])[..|moves|] == moves;
  }

  lemma {:induction false} RunOn(s: State, first: seq<Move>, second: seq<Move>)
    ensures Run(s, first + second) == Run(Run(s, first), second)
    decreases |second|
  {
    if second == [] {
      assert first + second == first;
    } else {
      var front := second[..|second| - 1];
      RunOn(s, first, front);
      assert (first + second)[..|first + second| - 1] == first + front;
    }
  }

  /** The driver thread finishes its reset branch in four steps. */
  lemma {:induction false} DriverFinishes(s: State)
    requires s.driver != Outside ==> s.wanted
    ensures var end := DriverStep(DriverStep(DriverStep(DriverStep(s))));
            && end.driver == Outside && !end.wanted
            && (s.driver == Outside && s.wanted ==> !end.booted)
            && end.api == s.api && end.tries == s.tries && end.offPolls == s.offPolls && end.bootPolls == s.bootPolls
            && Run(s, [Driver, Driver, Driver, Driver]) == end
  {
    var one := [Driver];
    var two := one + [Driver];
    var three := two + [Driver];
    OneMove(s, [], s, Driver);
    assert [] + [Driver] == one;
    OneMove(s, one, DriverStep(s), Driver);
    OneMove(s, two, DriverStep(DriverStep(s)), Driver);
    OneMove(s, three, DriverStep(DriverStep(DriverStep(s))), Driver);
    assert three + [Driver] == [Driver, Driver, Driver, Driver];
  }

  /** The API thread raises the flag. */
  lemma {:induction false} RaisesFlag(s: State)
    requires s.api == Begin && s.tries == 0
    ensures var end := Run(s, [Api, Api]);
            && end.api == AwaitOff && end.wanted && end.driver == s.driver && end.offPolls == 300 && end.bootPolls == 30
  {
    OneMove(s, [], s, Api);
    assert [] + [Api] == [Api] && [Api] + [Api] == [Api, Api];
    OneMove(s, [Api], ApiStep(s), Api);
  }

  /** With the flag cleared and the module off, it switches the module on. */
  lemma {:induction false} SwitchesOn(s: State)
    requires s.api == AwaitOff && !s.wanted && !s.booted && s.driver == Outside && s.offPolls > 0
    ensures Run(s, [Api, Api, Api]) == s.(api := AwaitBoot, log := s.log + [Unbooted])
  {
    var two := [Api] + [Api];
    assert [] + [Api] == [Api];
    OneMove(s, [], s, Api);
    OneMove(s, [Api], ApiStep(s), Api);
    OneMove(s, two, ApiStep(ApiStep(s)), Api);
    assert two + [Api] == [Api, Api, Api];
  }

  /** A boot before its next look is seen. */
  lemma {:induction false} SeesBoot(s: State)
    requires s.api == AwaitBoot && s.driver == Outside
    ensures Run(s, [HandleBoot, Api, Api]).api == Ended(true)
  {
    var two := [HandleBoot] + [Api];
    assert [] + [HandleBoot] == [HandleBoot];
    OneMove(s, [], s, HandleBoot);
    var s1 := Apply(s, HandleBoot);
    OneMove(s, [HandleBoot], s1, Api);
    OneMove(s, two, ApiStep(s1), Api);
    assert two + [Api] == [HandleBoot, Api, Api];
  }

  const FOUR := [Driver, Driver, Driver, Driver]

  /** From every state in which a call may begin there is a run in which it succeeds at the first attempt. */
  lemma {:induction false} SuccessIsPossible(s: State)
    requires Initial(s)
    ensures Run(s, FOUR + [Api, Api] + FOUR + [Api, Api, Api] + [HandleBoot, Api, Api]).api == Ended(true)
  {
    DriverFinishes(s);
    var idle := Run(s, FOUR);
    RaisesFlag(idle);
    RunOn(s, FOUR, [Api, Api]);
    var raised := Run(s, FOUR + [Api, Api]);
    DriverFinishes(raised);
    RunOn(s, FOUR + [Api, Api], FOUR);
    var cleared := Run(s, FOUR + [Api, Api] + FOUR);
    SwitchesOn(cleared);
    RunOn(s, FOUR + [Api, Api] + FOUR, [Api, Api, Api]);
    SeesBoot(Run(s, FOUR + [Api, Api] + FOUR + [Api, Api, Api]));
    RunOn(s, FOUR + [Api, Api] + FOUR + [Api, Api, Api], [HandleBoot, Api, Api]);
  }
}
