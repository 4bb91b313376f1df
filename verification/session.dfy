/** A run of chat commands against the bot's in-memory state (main.py:131-232). */
module Session {
  import opened Wrappers
  import opened Access
  import Monitoring
  import Watchlist

  /** The monitoring switch and the watchlist, the state the commands share. */
  datatype Bot = Bot(monitor: Monitoring.State, pairs: seq<string>)

  /** One command as it arrives: the sender, its words and, for /add, the lookup's answer. */
  datatype Command =
    | Start(user: UserId)
    | End(user: UserId)
    | Add(user: UserId, args: seq<string>, lookup: Option<real>)
    | Delete(user: UserId, args: seq<string>)

  /** The bot state after one command, and whether that command switched monitoring on or off. */
  datatype StepResult = StepResult(bot: Bot, switchedOn: bool, switchedOff: bool)

  /** One command applied to the bot, reporting whether it switched monitoring on or off. */
  function Step(b: Bot, allowed: seq<UserId>, c: Command): (r: StepResult)
    ensures r.switchedOn ==> b.monitor == Monitoring.Stopped && r.bot.monitor == Monitoring.Running
    ensures r.switchedOff ==> b.monitor == Monitoring.Running && r.bot.monitor == Monitoring.Stopped
    ensures !r.switchedOn && !r.switchedOff ==> r.bot.monitor == b.monitor
    ensures r.switchedOn ==> |b.pairs| > 0
    ensures c.Start? ==> (r.switchedOn <==> c.user in allowed && b.monitor == Monitoring.Stopped && |b.pairs| > 0)
    ensures c.End? ==> (r.switchedOff <==> c.user in allowed && b.monitor == Monitoring.Running)
    ensures c.Add? || c.Delete? ==> !r.switchedOn && !r.switchedOff && r.bot.monitor == b.monitor
    ensures c.Start? || c.End? ==> r.bot.pairs == b.pairs
  {
    match c
    case Start(user) =>
      var t := Monitoring.StartCommand(b.monitor, allowed, user, b.pairs);
      StepResult(Bot(t.state, b.pairs), t.reply == Monitoring.MonitoringStarted, false)
    case End(user) =>
      var t := Monitoring.EndCommand(b.monitor, allowed, user);
      StepResult(Bot(t.state, b.pairs), false, t.reply == Monitoring.MonitoringStopped)
    case Add(user, args, lookup) =>
      var a := Watchlist.AddCommand(b.pairs, allowed, user, args, lookup);
      StepResult(Bot(b.monitor, a.pairs), false, false)
    case Delete(user, args) =>
      var d := Watchlist.DeleteCommand(b.pairs, allowed, user, args);
      StepResult(Bot(b.monitor, d.pairs), false, false)
  }

  /** The bot state after a run, with how many commands switched monitoring on and off. */
  datatype RunResult = RunResult(bot: Bot, starts: nat, stops: nat)

  /** The commands applied in order, counting the effective starts and stops. */
  function Run(b: Bot, allowed: seq<UserId>, cs: seq<Command>): (r: RunResult)
    decreases |cs|
  {
    if cs == [] then RunResult(b, 0, 0)
    else
      var s := Step(b, allowed, cs[0]);
      var rest := Run(s.bot, allowed, cs[1..]);
      RunResult(rest.bot, rest.starts + (if s.switchedOn then 1 else 0),
                rest.stops + (if s.switchedOff then 1 else 0))
  }

  /**
   * Starting from a stopped bot, activations and deactivations alternate: at
   * any point the number of effective starts exceeds the number of effective
   * stops by one exactly when monitoring is on, and by zero otherwise. So no
   * sequence of commands switches monitoring on twice without a stop between.
   */
  lemma {:induction false} StartsAndStopsAlternate(b: Bot, allowed: seq<UserId>, cs: seq<Command>)
    ensures var r := Run(b, allowed, cs);
      (if b.monitor == Monitoring.Running then r.starts + 1 else r.starts)
        == r.stops + (if r.bot.monitor == Monitoring.Running then 1 else 0)
    decreases |cs|
  {
    if cs != [] {
      StartsAndStopsAlternate(Step(b, allowed, cs[0]).bot, allowed, cs[1..]);
    }
  }

  /** Every single command keeps the watchlist free of duplicates. */
  lemma StepKeepsNoDuplicates(b: Bot, allowed: seq<UserId>, c: Command)
    requires Watchlist.NoDuplicates(b.pairs)
    ensures Watchlist.NoDuplicates(Step(b, allowed, c).bot.pairs)
  {
    match c
    case Add(user, args, lookup) => Watchlist.AddKeepsNoDuplicates(b.pairs, allowed, user, args, lookup);
    case Delete(user, args) => Watchlist.DeleteKeepsNoDuplicates(b.pairs, allowed, user, args);
    case _ =>
  }

  /** Every run keeps the watchlist free of duplicates. */
  lemma {:induction false} RunKeepsNoDuplicates(b: Bot, allowed: seq<UserId>, cs: seq<Command>)
    requires Watchlist.NoDuplicates(b.pairs)
    ensures Watchlist.NoDuplicates(Run(b, allowed, cs).bot.pairs)
    decreases |cs|
  {
    if cs != [] {
      StepKeepsNoDuplicates(b, allowed, cs[0]);
      RunKeepsNoDuplicates(Step(b, allowed, cs[0]).bot, allowed, cs[1..]);
    }
  }

  /** Commands from a user outside the authorized list change nothing. */
  lemma {:induction false} UnauthorizedRunChangesNothing(b: Bot, allowed: seq<UserId>, cs: seq<Command>)
    requires forall i :: 0 <= i < |cs| ==> cs[i].user !in allowed
    ensures Run(b, allowed, cs) == RunResult(b, 0, 0)
    decreases |cs|
  {
    if cs != [] {
      assert Step(b, allowed, cs[0]).bot == b;
      forall i | 0 <= i < |cs[1..]| ensures cs[1..][i].user !in allowed {
        assert cs[1..][i] == cs[i + 1];
      }
      UnauthorizedRunChangesNothing(b, allowed, cs[1..]);
    }
  }
}
