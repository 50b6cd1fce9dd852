/** The sliding-expiry session check: a map from user id to the tick of the last
    accepted activity. */
module Authentication {
  import opened Outcomes

  /** Ticks are microseconds; the default session timeout is 30 minutes. */
  const DefaultSessionTimeout: int := 30 * 60 * 1000000

  /** The update delegate: the new last-seen tick, or SessionExpired when strictly more
      than the timeout has elapsed since `lastSeen`. */
  function Renew(lastSeen: int, now: int, timeout: int): (r: Result<int>)
    ensures r.Ok? <==> now - lastSeen <= timeout
    ensures r.Ok? ==> r.value == now
    ensures r.Err? ==> r.error == SessionExpired
  {
    if now - lastSeen > timeout then Err(SessionExpired) else Ok(now)
  }

  /** The activity table after one authentication, and what the caller observes. */
  datatype Check = Check(activity: map<string, int>, result: Result<()>)

  /** AddOrUpdate with the insert value `now` and the update delegate Renew: when the
      delegate throws, the table is left as it was. */
  function Authenticate(activity: map<string, int>, user: string, now: int, timeout: int): (c: Check)
    ensures c.result.Ok? <==> user !in activity || now - activity[user] <= timeout
    ensures c.result.Ok? ==> c.activity == activity[user := now]
    ensures c.result.Err? ==> c.activity == activity && c.result.error == SessionExpired
  {
    if user !in activity then Check(activity[user := now], Ok(()))
    else match Renew(activity[user], now, timeout)
      case Ok(t) => Check(activity[user := t], Ok(()))
      case Err(e) => Check(activity, Err(e))
  }

  /** One authentication: the first call for a user records `now` and succeeds; a later
      call succeeds and slides the record to `now` exactly when at most `timeout` has
      elapsed (so an elapsed time equal to the timeout is accepted), and otherwise fails
      with SessionExpired leaving the table unchanged. No other user's record changes. */
  lemma AuthenticateSpec(activity: map<string, int>, user: string, now: int, timeout: int)
    ensures var c := Authenticate(activity, user, now, timeout);
      && (user !in activity ==> c == Check(activity[user := now], Ok(())))
      && (user in activity && now - activity[user] <= timeout ==> c == Check(activity[user := now], Ok(())))
      && (user in activity && now - activity[user] > timeout ==> c == Check(activity, Err(SessionExpired)))
      && c.activity.Keys == activity.Keys + {user}
      && (forall u :: u in activity && u != user ==> c.activity[u] == activity[u])
  {
  }

  /** Authentications of one user at the ticks `times`, in order: the final table and
      each call's result. */
  function Replay(activity: map<string, int>, user: string, times: seq<int>, timeout: int): (r: (map<string, int>, seq<Result<()>>))
    ensures |r.1| == |times|
    decreases |times|
  {
    if |times| == 0 then (activity, [])
    else
      var c := Authenticate(activity, user, times[0], timeout);
      var rest := Replay(c.activity, user, times[1..], timeout);
      (rest.0, [c.result] + rest.1)
  }

  ghost predicate NonDecreasing(times: seq<int>)
  {
    forall i, j :: 0 <= i < j < |times| ==> times[i] <= times[j]
  }

  /** Once a session has expired it stays expired: with a clock that never goes back,
      every later call fails and the stale tick is never overwritten. */
  lemma {:induction false} ExpiredStaysExpired(activity: map<string, int>, user: string, times: seq<int>, timeout: int)
    requires user in activity
    requires NonDecreasing(times)
    requires |times| > 0 ==> times[0] - activity[user] > timeout
    ensures Replay(activity, user, times, timeout).0 == activity
    ensures forall i :: 0 <= i < |times| ==> Replay(activity, user, times, timeout).1[i] == Err(SessionExpired)
    decreases |times|
  {
    if |times| > 0 {
      assert Authenticate(activity, user, times[0], timeout) == Check(activity, Err(SessionExpired));
      if |times| > 1 {
        assert times[1] >= times[0];
      }
      ExpiredStaysExpired(activity, user, times[1..], timeout);
    }
  }

  /** Activity keeps a session alive: when every call comes within the timeout of the
      previous one (the first within the timeout of the recorded tick, if any), every
      call succeeds and the record ends at the last call's tick, however far that lies
      from the first. */
  lemma {:induction false} SlidingRenewal(activity: map<string, int>, user: string, times: seq<int>, timeout: int)
    requires |times| > 0
    requires user in activity ==> times[0] - activity[user] <= timeout
    requires forall i :: 0 < i < |times| ==> times[i] - times[i - 1] <= timeout
    ensures Replay(activity, user, times, timeout).0 == activity[user := times[|times| - 1]]
    ensures forall i :: 0 <= i < |times| ==> Replay(activity, user, times, timeout).1[i] == Ok(())
    decreases |times|
  {
    var next := activity[user := times[0]];
    assert Authenticate(activity, user, times[0], timeout) == Check(next, Ok(()));
    if |times| > 1 {
      assert times[1..][0] - next[user] <= timeout;
      SlidingRenewal(next, user, times[1..], timeout);
      assert next[user := times[|times| - 1]] == activity[user := times[|times| - 1]];
    }
  }

  /** The two session tests, in microsecond ticks: with a 50 ms timeout, calls at 0, 30 ms
      and 60 ms all succeed although the last lies beyond the first call's window; with a
      10 microsecond timeout, a second call one second and 10 microseconds later fails. */
  lemma SessionTestScenarios(activity: map<string, int>, user: string)
    requires user !in activity
    ensures forall i :: 0 <= i < 3 ==> Replay(activity, user, [0, 30000, 60000], 50000).1[i] == Ok(())
    ensures Replay(activity, user, [0, 1000010], 10).1[1] == Err(SessionExpired)
  {
    SlidingRenewal(activity, user, [0, 30000, 60000], 50000);
    var first := Authenticate(activity, user, 0, 10);
    assert first == Check(activity[user := 0], Ok(()));
    assert [0, 1000010][1..] == [1000010];
    assert Authenticate(first.activity, user, 1000010, 10).result == Err(SessionExpired);
  }

  /** With the default 30-minute timeout, a call exactly 30 minutes after the last one is
      accepted and one a microsecond later is refused. */
  lemma DefaultTimeoutBoundary(activity: map<string, int>, user: string)
    requires user in activity
    ensures Authenticate(activity, user, activity[user] + DefaultSessionTimeout, DefaultSessionTimeout).result == Ok(())
    ensures Authenticate(activity, user, activity[user] + DefaultSessionTimeout + 1, DefaultSessionTimeout).result == Err(SessionExpired)
  {
  }

  /** The authenticator object with its configured timeout. */
  class AuthenticationService {
    const sessionTimeout: int
    var userActivity: map<string, int>

    constructor (sessionTimeout: int)
      ensures this.sessionTimeout == sessionTimeout && userActivity == map[]
    {
      this.sessionTimeout := sessionTimeout;
      userActivity := map[];
    }

    /** Authenticates `user` at tick `now` (the clock reading). */
    method AuthenticateAsync(user: string, now: int) returns (r: Result<()>)
      modifies this`userActivity
      ensures Check(userActivity, r) == Authenticate(old(userActivity), user, now, sessionTimeout)
    {
      if user !in userActivity {
        userActivity := userActivity[user := now];
        return Ok(());
      }
      var lastSeen := userActivity[user];
      if now - lastSeen > sessionTimeout {
        return Err(SessionExpired);
      }
      userActivity := userActivity[user := now];
      r := Ok(());
    }
  }
}
