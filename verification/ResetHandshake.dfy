/** The reset handshake: the API thread raises a flag and polls, the driver thread carries the reset out and later
    sees the module boot.  Each step below touches at most one of the two shared flags, and a run is any sequence of
    steps of the two threads. */
module ResetHandshake {
  const MAX_TRIES := 3
  const OFF_POLLS := 300
  const BOOT_POLLS := 30

  datatype ApiAt = Begin | Raise | AwaitOff | CheckOff | PowerOn | AwaitBoot | CheckBoot | Ended(success: bool)

  /** The driver thread outside its reset branch, or before each of the three effects of the branch. */
  datatype DriverAt = Outside | SwitchOff | ClearBooted | ClearWanted

  /** Off, Cleared and Booted are what the driver thread does to the flags. The others are the API thread's: it raises
      the flag, sees it still up at an off poll, sees the module booted or unbooted at the off check, sees it unbooted
      at a boot poll, sees it unbooted at the boot check, and returns. */
  datatype Mark =
    | Off | Cleared | Booted
    | Raised | StillUp | StillBooted | Unbooted | NotYetBooted | NeverBooted | Finished(success: bool)

  datatype State = State(
    api: ApiAt, tries: nat, offPolls: nat, bootPolls: nat,
    wanted: bool, booted: bool, driver: DriverAt, log: seq<Mark>)

  /** HandleBoot: the driver thread handles a system boot event, which it can at any time outside the branch. */
  datatype Move = Api | Driver | HandleBoot

  /** One step of silabs_ble_hard_reset. */
  function ApiStep(s: State): State {
    match s.api
    case Begin =>
      if s.tries < MAX_TRIES then s.(api := Raise, offPolls := OFF_POLLS, bootPolls := BOOT_POLLS)
      else s.(api := Ended(false), log := s.log + [Finished(false)])
    case Raise => s.(api := AwaitOff, wanted := true, log := s.log + [Raised])
    case AwaitOff =>
      if s.wanted && s.offPolls > 0 then s.(offPolls := s.offPolls - 1, log := s.log + [StillUp])
      else s.(api := CheckOff)
    case CheckOff =>
      if s.booted then s.(api := Begin, tries := s.tries + 1, log := s.log + [StillBooted])
      else if s.offPolls == 0 then s.(api := Begin, tries := s.tries + 1)
      else s.(api := PowerOn, log := s.log + [Unbooted])
    case PowerOn => s.(api := AwaitBoot)
    case AwaitBoot =>
      if !s.booted && s.bootPolls > 0 then s.(bootPolls := s.bootPolls - 1, log := s.log + [NotYetBooted])
      else s.(api := CheckBoot)
    case CheckBoot =>
      if s.booted then s.(api := Ended(true), log := s.log + [Finished(true)])
      else s.(api := Begin, tries := s.tries + 1, log := s.log + [NeverBooted])
    case Ended(_) => s
  }

  function DriverStep(s: State): State {
    match s.driver
    case Outside => if s.wanted then s.(driver := SwitchOff) else s
    case SwitchOff => s.(driver := ClearBooted)
    case ClearBooted => s.(driver := ClearWanted, booted := false, log := s.log + [Off])
    case ClearWanted => s.(driver := Outside, wanted := false, log := s.log + [Cleared])
  }

  function Apply(s: State, move: Move): State {
    match move
    case Api => ApiStep(s)
    case Driver => DriverStep(s)
    case HandleBoot => if s.driver.Outside? then s.(booted := true, log := s.log + [Booted]) else s
  }

  function Run(s: State, moves: seq<Move>): State {
    if moves == [] then s else Apply(Run(s, moves[..|moves| - 1]), moves[|moves| - 1])
  }

  /** Where an attempt stands, read off the history alone. */
  datatype Phase = NotRaised | IsRaised | IsCleared | SeenUnbooted | BootHandled

  function PhaseOf(log: seq<Mark>): Phase {
    if log == [] then NotRaised
    else
      var before := PhaseOf(log[..|log| - 1]);
      match log[|log| - 1]
      case Raised => IsRaised
      case Cleared => if before == IsRaised then IsCleared else before
      case Unbooted => if before == IsCleared then SeenUnbooted else before
      case Booted => if before == SeenUnbooted then BootHandled else before
      case _ => before
  }

  lemma {:induction false} PhaseAfter(log: seq<Mark>, mark: Mark)
    ensures PhaseOf(log + [mark]) ==
            match mark
            case Raised => IsRaised
            case Cleared => if PhaseOf(log) == IsRaised then IsCleared else PhaseOf(log)
            case Unbooted => if PhaseOf(log) == IsCleared then SeenUnbooted else PhaseOf(log)
            case Booted => if PhaseOf(log) == SeenUnbooted then BootHandled else PhaseOf(log)
            case _ => PhaseOf(log)
  {
    assert (log + [mark])[..|log|] == log;
  }

  /** The module's boot was seen after the API thread had seen it off, and no reset is under way. */
  ghost predicate Cooled(s: State) {
    && !s.wanted
    && (PhaseOf(s.log) == SeenUnbooted || PhaseOf(s.log) == BootHandled)
    && (s.booted <==> PhaseOf(s.log) == BootHandled)
  }

  ghost predicate Inv(s: State) {
    && (!s.driver.Outside? ==> s.wanted)
    && s.tries <= MAX_TRIES && s.offPolls <= OFF_POLLS && s.bootPolls <= BOOT_POLLS
    && (!s.api.Begin? && !s.api.Ended? ==> s.tries < MAX_TRIES)
    && match s.api
       case Begin => true
       case Raise => true
       case AwaitOff => PhaseOf(s.log) == if s.wanted then IsRaised else IsCleared
       case CheckOff => s.offPolls > 0 ==> !s.wanted && PhaseOf(s.log) == IsCleared
       case PowerOn => Cooled(s)
       case AwaitBoot => Cooled(s)
       case CheckBoot => Cooled(s)
       case Ended(success) => success ==> Cooled(s) && s.booted
  }

  lemma {:induction false} ApiStepKeeps(s: State)
    requires Inv(s)
    ensures Inv(ApiStep(s))
  {
    if ApiStep(s).log != s.log {
      var mark := ApiStep(s).log[|s.log|];
      assert ApiStep(s).log == s.log + [mark];
      PhaseAfter(s.log, mark);
    }
  }

  lemma {:induction false} ApplyKeeps(s: State, move: Move)
    requires Inv(s)
    ensures Inv(Apply(s, move))
  {
    if move == Api {
      ApiStepKeeps(s);
    } else {
      PhaseAfter(s.log, Off);
      PhaseAfter(s.log, Cleared);
      PhaseAfter(s.log, Booted);
    }
  }

  lemma {:induction false} RunKeeps(s: State, moves: seq<Move>)
    requires Inv(s)
    ensures Inv(Run(s, moves))
    decreases |moves|
  {
    if moves != [] {
      RunKeeps(s, moves[..|moves| - 1]);
      ApplyKeeps(Run(s, moves[..|moves| - 1]), moves[|moves| - 1]);
    }
  }

  /** A call may begin in any state of the flags in which the driver is in its branch only while a reset is wanted,
      even with a reset still pending from a call that gave up. */
  ghost predicate Initial(s: State) {
    s.api == Begin && s.tries == 0 && s.offPolls == 0 && s.bootPolls == 0 && s.log == []
    && (!s.driver.Outside? ==> s.wanted)
  }

  /** The four marks of one successful attempt: raised, then cleared by the driver thread, then seen unbooted by the
      API thread, then a boot handled by the driver thread, with no second raise in between or after. */
  ghost predicate OneAttempt(log: seq<Mark>, i: nat, j: nat, k: nat, m: nat) {
    && i < j < k < m < |log|
    && log[i] == Raised && log[j] == Cleared && log[k] == Unbooted && log[m] == Booted
    && forall n :: i < n < |log| ==> log[n] != Raised
  }

  /** How far an attempt with mark i raised has come. */
  ghost predicate Reached(log: seq<Mark>, i: nat, j: nat, k: nat, m: nat, phase: Phase) {
    && i < |log| && log[i] == Raised
    && (forall n :: i < n < |log| ==> log[n] != Raised)
    && (phase != IsRaised ==> i < j < |log| && log[j] == Cleared)
    && (phase == SeenUnbooted || phase == BootHandled ==> j < k < |log| && log[k] == Unbooted)
    && (phase == BootHandled ==> k < m < |log| && log[m] == Booted)
  }

  /** What the phase says about the history. */
  lemma {:induction false} PhaseMeans(log: seq<Mark>) returns (i: nat, j: nat, k: nat, m: nat)
    requires PhaseOf(log) != NotRaised
    ensures Reached(log, i, j, k, m, PhaseOf(log))
    decreases |log|
  {
    var last := |log| - 1;
    var front := log[..last];
    if log[last] == Raised {
      return last, 0, 0, 0;
    }
    i, j, k, m := PhaseMeans(front);
    match log[last] {
      case Cleared => if PhaseOf(front) == IsRaised { j := last; }
      case Unbooted => if PhaseOf(front) == IsCleared { k := last; }
      case Booted => if PhaseOf(front) == SeenUnbooted { m := last; }
      case _ =>
    }
  }

  /** Safety over every interleaving: the call succeeds only if, within one attempt, the driver thread cleared the
      flag after it was raised and handled a boot after the API thread saw the module unbooted; then the module is
      booted, no reset is pending and the driver thread is outside its reset branch. */
  lemma {:induction false} SuccessIsReal(s: State, moves: seq<Move>)
    requires Initial(s)
    requires Run(s, moves).api == Ended(true)
    ensures var end := Run(s, moves);
            && end.booted && !end.wanted && end.driver == Outside
            && exists i, j, k, m :: OneAttempt(end.log, i, j, k, m)
  {
    RunKeeps(s, moves);
    var end := Run(s, moves);
    var i, j, k, m := PhaseMeans(end.log);
    assert OneAttempt(end.log, i, j, k, m);
  }

  // The call ends.

  const STEPS_PER_TRY := 337

  /** How many more steps of its own the call can take. */
  ghost function StepsLeft(s: State): int {
    var left := (MAX_TRIES - s.tries) * STEPS_PER_TRY;
    match s.api
    case Begin => left + 1
    case Raise => left
    case AwaitOff => left - 301 + s.offPolls
    case CheckOff => left - 302
    case PowerOn => left - 303
    case AwaitBoot => left - 334 + s.bootPolls
    case CheckBoot => left - 335
    case Ended(_) => 0
  }

  function ApiMoves(moves: seq<Move>): nat {
    if moves == [] then 0
    else ApiMoves(moves[..|moves| - 1]) + if moves[|moves| - 1] == Api then 1 else 0
  }

  lemma {:induction false} StepsCount(s: State, move: Move)
    requires Inv(s)
    ensures StepsLeft(s) >= 0 && (StepsLeft(s) == 0 <==> s.api.Ended?)
    ensures StepsLeft(Apply(s, move)) <= StepsLeft(s)
    ensures move == Api && !s.api.Ended? ==> StepsLeft(Apply(s, move)) < StepsLeft(s)
  {
  }

  /** Whatever the driver thread does, the call has ended after at most 1012 of its own steps. */
  lemma {:induction false} AlwaysEnds(s: State, moves: seq<Move>)
    requires Initial(s)
    ensures Run(s, moves).api.Ended? || ApiMoves(moves) + StepsLeft(Run(s, moves)) <= 1012
    ensures ApiMoves(moves) >= 1012 ==> Run(s, moves).api.Ended?
    decreases |moves|
  {
    if moves != [] {
      var front := moves[..|moves| - 1];
      AlwaysEnds(s, front);
      RunKeeps(s, front);
      StepsCount(Run(s, front), moves[|moves| - 1]);
    }
    RunKeeps(s, moves);
    StepsCount(Run(s, moves), Driver);
  }
}
