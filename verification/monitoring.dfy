/** The monitoring on/off switch (main.py, start_command and end_command). */
module Monitoring {
  import opened Access

  /** Whether the polling loop is meant to run. */
  datatype State = Stopped | Running

  /** The reply each command gives, without its wording. */
  datatype Reply =
    | NotAuthorized      // "You are not authorized"
    | AlreadyActive      // start while running
    | NoPairs            // start with an empty watchlist
    | MonitoringStarted  // start took effect
    | AlreadyStopped     // end while stopped
    | MonitoringStopped  // end took effect

  /** The switch after a command, and the reply sent to the user. */
  datatype Transition = Transition(state: State, reply: Reply)

  /**
   * /start: refused for an unauthorized user, a no-op when already running,
   * refused for an empty watchlist, otherwise switches monitoring on.
   */
  function StartCommand(s: State, allowed: seq<UserId>, user: UserId, pairs: seq<string>): (t: Transition)
    ensures !(user in allowed) ==> t == Transition(s, NotAuthorized)
    ensures t.reply == MonitoringStarted <==> user in allowed && s == Stopped && |pairs| > 0
    ensures t.reply == MonitoringStarted ==> t.state == Running
    ensures t.reply != MonitoringStarted ==> t.state == s
    ensures user in allowed && s == Running ==> t.reply == AlreadyActive
    ensures user in allowed && s == Stopped && |pairs| == 0 ==> t.reply == NoPairs
  {
    if !CheckAuth(allowed, user) then Transition(s, NotAuthorized)
    else if s.Running? then Transition(s, AlreadyActive)
    else if |pairs| == 0 then Transition(s, NoPairs)
    else Transition(Running, MonitoringStarted)
  }

  /**
   * /end: refused for an unauthorized user, a no-op when already stopped,
   * otherwise switches monitoring off.
   */
  function EndCommand(s: State, allowed: seq<UserId>, user: UserId): (t: Transition)
    ensures !(user in allowed) ==> t == Transition(s, NotAuthorized)
    ensures t.reply == MonitoringStopped <==> user in allowed && s == Running
    ensures user in allowed ==> t.state == Stopped
    ensures user in allowed && s == Stopped ==> t.reply == AlreadyStopped
  {
    if !CheckAuth(allowed, user) then Transition(s, NotAuthorized)
    else if s.Stopped? then Transition(s, AlreadyStopped)
    else Transition(Stopped, MonitoringStopped)
  }

  /**
   * Two starts in a row, by any two users, switch monitoring on at most once.
   * Once the first sender is authorized, or both starts come from the same
   * user, the second start is refused and leaves the state as the first left it.
   */
  lemma StartTwiceActivatesOnce(s: State, allowed: seq<UserId>, u1: UserId, u2: UserId, pairs: seq<string>)
    ensures var t1 := StartCommand(s, allowed, u1, pairs);
      var t2 := StartCommand(t1.state, allowed, u2, pairs);
      && !(t1.reply == MonitoringStarted && t2.reply == MonitoringStarted)
      && (u1 in allowed || u1 == u2 ==> t2.reply != MonitoringStarted && t2.state == t1.state)
  {
  }

  /**
   * After an authorized end, a second end by anyone leaves monitoring off and
   * stops nothing; from an authorized second sender it is the "already
   * stopped" no-op.
   */
  lemma EndTwiceIsIdempotent(s: State, allowed: seq<UserId>, u1: UserId, u2: UserId)
    requires u1 in allowed
    ensures var t1 := EndCommand(s, allowed, u1);
      var t2 := EndCommand(t1.state, allowed, u2);
      && t2.state == Stopped && t2.reply != MonitoringStopped
      && (u2 in allowed ==> t2 == Transition(Stopped, AlreadyStopped))
  {
  }
}
