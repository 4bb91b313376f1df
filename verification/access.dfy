/** The authorization gate every command passes first (main.py, check_auth). */
module Access {

  /** A chat user's numeric identifier. */
  type UserId = int

  /**
   * Whether `user` may issue commands: the configured list must be non-empty
   * and contain the user.
   */
  function CheckAuth(allowed: seq<UserId>, user: UserId): (ok: bool)
    ensures ok <==> user in allowed
    ensures |allowed| == 0 ==> !ok
  {
    !(|allowed| == 0 || user !in allowed)
  }
}
