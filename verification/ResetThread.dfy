/** The API thread's side of the reset as the code writes it. */
module ResetThread {
  import opened ResetHandshake
  import opened ResetOutcome

  /** silabs_ble_hard_reset as it is written; before each of its steps the driver thread makes the moves that the
      schedule gives it. */
  class HardReset {
    var wanted: bool
    var booted: bool
    var driver: DriverAt
    var log: seq<Mark>
    var schedule: seq<seq<bool>>

    constructor (wanted: bool, booted: bool, schedule: seq<seq<bool>>)
      ensures this.wanted == wanted && this.booted == booted && this.schedule == schedule
      ensures driver == Outside && log == []
    {
      this.wanted, this.booted, this.schedule := wanted, booted, schedule;
      driver, log := Outside, [];
    }

    ghost function Seen(api: ApiAt, tries: nat, offPolls: nat, bootPolls: nat): State
      reads this
    {
      State(api, tries, offPolls, bootPolls, wanted, booted, driver, log)
    }

    /** The driver thread runs for a while: true stands for a boot event, false for its next own step. */
    method DriverRuns(ghost before: State, ghost start: State, ghost moves: seq<Move>)
      returns (ghost moves': seq<Move>)
      requires before == Run(start, moves)
      requires before == Seen(before.api, before.tries, before.offPolls, before.bootPolls)
      modifies this
      ensures Seen(before.api, before.tries, before.offPolls, before.bootPolls) == Run(start, moves')
    {
      moves' := moves;
      if schedule == [] {
        return;
      }
      var now := schedule[0];
      schedule := schedule[1..];
      for i := 0 to |now|
        invariant Seen(before.api, before.tries, before.offPolls, before.bootPolls) == Run(start, moves')
      {
        ghost var move := if now[i] then HandleBoot else Driver;
        assert (moves' + [move])[..|moves'|] == moves';
        if now[i] {
          if driver.Outside? {
            booted := true;
            log := log + [Booted];
          }
        } else {
          match driver {
            case Outside => if wanted { driver := SwitchOff; }
            case SwitchOff => driver := ClearBooted;
            case ClearBooted => driver, booted, log := ClearWanted, false, log + [Off];
            case ClearWanted => driver, wanted, log := Outside, false, log + [Cleared];
          }
        }
        moves' := moves' + [move];
      }
    }

    lemma {:induction false} Stepped(start: State, moves: seq<Move>, after: State)
      requires after == ApiStep(Run(start, moves))
      ensures after == Run(start, moves + [Api])
    {
      assert (moves + [Api])[..|moves|] == moves;
    }

    /** Raise the flag and poll until it is cleared or the polls are used up. */
    method RaiseAndWait(tries: nat, ghost at: State, ghost start: State, ghost before: seq<Move>)
      returns (offPolls: nat, ghost moves: seq<Move>)
      requires tries < MAX_TRIES && at.api == Begin && at.tries == tries
      requires at == Run(start, before) && at == Seen(Begin, tries, at.offPolls, at.bootPolls)
      modifies this
      ensures Seen(CheckOff, tries, offPolls, BOOT_POLLS) == Run(start, moves)
    {
      moves := DriverRuns(at, start, before);
      offPolls := OFF_POLLS;
      Stepped(start, moves, Seen(Raise, tries, offPolls, BOOT_POLLS));
      moves := DriverRuns(Seen(Raise, tries, offPolls, BOOT_POLLS), start, moves + [Api]);
      wanted := true;
      log := log + [Raised];
      Stepped(start, moves, Seen(AwaitOff, tries, offPolls, BOOT_POLLS));
      moves := DriverRuns(Seen(AwaitOff, tries, offPolls, BOOT_POLLS), start, moves + [Api]);
      while wanted && offPolls > 0
        invariant Seen(AwaitOff, tries, offPolls, BOOT_POLLS) == Run(start, moves)
        decreases offPolls
      {
        offPolls, log := offPolls - 1, log + [StillUp];
        Stepped(start, moves, Seen(AwaitOff, tries, offPolls, BOOT_POLLS));
        moves := DriverRuns(Seen(AwaitOff, tries, offPolls, BOOT_POLLS), start, moves + [Api]);
      }
      Stepped(start, moves, Seen(CheckOff, tries, offPolls, BOOT_POLLS));
      moves := moves + [Api];
    }

    /** One attempt up to the check that the module is off. */
    method TurnOff(tries: nat, ghost at: State, ghost start: State, ghost before: seq<Move>)
      returns (off: bool, offPolls: nat, bootPolls: nat, ghost moves: seq<Move>)
      requires tries < MAX_TRIES && at.api == Begin && at.tries == tries
      requires at == Run(start, before) && at == Seen(Begin, tries, at.offPolls, at.bootPolls)
      modifies this
      ensures Seen(if off then PowerOn else Begin, if off then tries else tries + 1, offPolls, bootPolls)
              == Run(start, moves)
      ensures bootPolls == BOOT_POLLS
    {
      bootPolls := BOOT_POLLS;
      offPolls, moves := RaiseAndWait(tries, at, start, before);
      moves := DriverRuns(Seen(CheckOff, tries, offPolls, bootPolls), start, moves);
      off := !booted && offPolls != 0;
      if off {
        log := log + [Unbooted];
        Stepped(start, moves, Seen(PowerOn, tries, offPolls, bootPolls));
      } else {
        if booted {
          log := log + [StillBooted];
        }
        Stepped(start, moves, Seen(Begin, tries + 1, offPolls, bootPolls));
      }
      moves := moves + [Api];
    }

    /** Switch the module on and poll for its boot. */
    method SwitchOnAndWait(ghost at: State, ghost start: State, ghost before: seq<Move>)
      returns (ghost bootPolls: nat, ghost moves: seq<Move>)
      requires at.api == PowerOn && at.bootPolls == BOOT_POLLS
      requires at == Run(start, before) && at == Seen(PowerOn, at.tries, at.offPolls, at.bootPolls)
      modifies this
      ensures Seen(CheckBoot, at.tries, at.offPolls, bootPolls) == Run(start, moves)
    {
      var polls: nat := BOOT_POLLS;
      moves := DriverRuns(at, start, before);
      Stepped(start, moves, Seen(AwaitBoot, at.tries, at.offPolls, polls));
      moves := DriverRuns(Seen(AwaitBoot, at.tries, at.offPolls, polls), start, moves + [Api]);
      while !booted && polls > 0
        invariant Seen(AwaitBoot, at.tries, at.offPolls, polls) == Run(start, moves)
        decreases polls
      {
        polls, log := polls - 1, log + [NotYetBooted];
        Stepped(start, moves, Seen(AwaitBoot, at.tries, at.offPolls, polls));
        moves := DriverRuns(Seen(AwaitBoot, at.tries, at.offPolls, polls), start, moves + [Api]);
      }
      Stepped(start, moves, Seen(CheckBoot, at.tries, at.offPolls, polls));
      bootPolls, moves := polls, moves + [Api];
    }

    /** The rest of the attempt. */
    method TurnOn(ghost at: State, ghost start: State, ghost before: seq<Move>)
      returns (on: bool, ghost bootPolls: nat, ghost moves: seq<Move>)
      requires at.api == PowerOn && at.bootPolls == BOOT_POLLS
      requires at == Run(start, before) && at == Seen(PowerOn, at.tries, at.offPolls, at.bootPolls)
      modifies this
      ensures Seen(if on then Ended(true) else Begin, if on then at.tries else at.tries + 1, at.offPolls, bootPolls)
              == Run(start, moves)
    {
      bootPolls, moves := SwitchOnAndWait(at, start, before);
      moves := DriverRuns(Seen(CheckBoot, at.tries, at.offPolls, bootPolls), start, moves);
      on := booted;
      if on {
        log := log + [Finished(true)];
        Stepped(start, moves, Seen(Ended(true), at.tries, at.offPolls, bootPolls));
      } else {
        log := log + [NeverBooted];
        Stepped(start, moves, Seen(Begin, at.tries + 1, at.offPolls, bootPolls));
      }
      moves := moves + [Api];
    }

    /** Every call is one of the runs of the two threads, so what is proved of those runs holds of it. */
    method Reset() returns (success: bool, ghost end: State, ghost moves: seq<Move>)
      requires Initial(Seen(Begin, 0, 0, 0))
      modifies this
      ensures end == Run(old(Seen(Begin, 0, 0, 0)), moves) && end.api == Ended(success)
      ensures end == Seen(end.api, end.tries, end.offPolls, end.bootPolls)
      ensures success ==> booted && !wanted && driver == Outside
      ensures success ==> exists i, j, k, m :: OneAttempt(log, i, j, k, m)
      ensures success <==> !GaveUp(log)
      ensures !success ==> AllGaveUp(log, 3)
      ensures Truthful(log, old(wanted), old(booted))
    {
      ghost var start := Seen(Begin, 0, 0, 0);
      ghost var at := start;
      moves := [];
      var tries: nat := 0;
      while tries < MAX_TRIES
        invariant tries <= MAX_TRIES && at.api == Begin && at.tries == tries
        invariant at == Run(start, moves) && at == Seen(Begin, tries, at.offPolls, at.bootPolls)
        decreases MAX_TRIES - tries
      {
        ghost var bootPolls: nat;
        var off: bool, polls: nat, boots: nat;
        off, polls, boots, moves := TurnOff(tries, at, start, moves);
        if !off {
          tries := tries + 1;
          at := Seen(Begin, tries, polls, boots);
        } else {
          at := Seen(PowerOn, tries, polls, boots);
          var on: bool;
          on, bootPolls, moves := TurnOn(at, start, moves);
          if on {
            end := Seen(Ended(true), tries, polls, bootPolls);
            SuccessIsReal(start, moves);
            SucceedsIff(start, moves);
            RunTold(start, moves);
            return true, end, moves;
          }
          tries := tries + 1;
          at := Seen(Begin, tries, polls, bootPolls);
        }
      }
      log := log + [Finished(false)];
      end := Seen(Ended(false), tries, at.offPolls, at.bootPolls);
      Stepped(start, moves, end);
      moves := moves + [Api];
      FailureIsReal(start, moves);
      SucceedsIff(start, moves);
      success := false;
    }
  }
}
