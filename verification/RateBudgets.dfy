/** Which requests the middleware lets through, told by the complete log (`main.py`). */
module RateBudgets {
  import opened Strings
  import opened RateLimiter

  /** How many requests counted against the key were let through in the minute before. */
  function LastMinute(fingerprint: string -> string, arrivals: seq<Arrival>, key: string, at: real): nat {
    |Keep(TimesOf(Run(_ => WINDOW, Checks(fingerprint, arrivals)).log, key), at - 60.0)|
  }

  /** The middleware passes the request on. */
  predicate Passes(fingerprint: string -> string, arrivals: seq<Arrival>, r: Request, at: real) {
    var config := RateConfig(fingerprint, r);
    config.None?
    || Checked(Run(_ => WINDOW, Checks(fingerprint, arrivals)).windows, config.value.1, config.value.0, WINDOW, at).1
  }

  lemma OneMoreArrival(fingerprint: string -> string, arrivals: seq<Arrival>, r: Request, at: real)
    ensures var all := arrivals + [Incoming(r, at)];
            var config := RateConfig(fingerprint, r);
            Checks(fingerprint, all) == Checks(fingerprint, arrivals)
              + if config.Some? then [Check(config.value.1, config.value.0, at)] else []
  {
    assert (arrivals + [Incoming(r, at)])[..|arrivals|] == arrivals;
  }

  lemma PassesByTheLog(fingerprint: string -> string, arrivals: seq<Arrival>, r: Request, at: real)
    requires Ordered(arrivals + [Incoming(r, at)]) && RateConfig(fingerprint, r).Some?
    ensures var config := RateConfig(fingerprint, r).value;
            Passes(fingerprint, arrivals, r, at) <==> LastMinute(fingerprint, arrivals, config.1, at) < config.0
  {
    var config := RateConfig(fingerprint, r).value;
    OneMoreArrival(fingerprint, arrivals, r, at);
    ChecksAreSteady(fingerprint, arrivals + [Incoming(r, at)], "");
    DecidesAsTheLog(_ => WINDOW, Checks(fingerprint, arrivals), config.1, config.0, at);
  }

  predicate Changing(method_: string) {
    method_ == "POST" || method_ == "PUT" || method_ == "PATCH" || method_ == "DELETE"
  }

  /** Requests a minute for what follows the authentication prefix: 10 for signing in and up, 5 for verification
      codes, 30 for the rest. */
  function AuthenticationBudget(rest: string): int {
    if rest == "login" || rest == "register" || rest == "gquan/login" then 10
    else if rest == "verification-codes" then 5
    else 30
  }

  lemma PathOf(path: string, rest: string)
    requires StartsWith(path, "/api/v1/auth/")
    ensures path[13..] == rest <==> path == "/api/v1/auth/" + rest
  {
    assert |"/api/v1/auth/"| == 13;
    assert path == path[..13] + path[13..];
  }

  lemma AuthenticationConfig(fingerprint: string -> string, r: Request)
    requires StartsWith(r.path, "/api/v1/auth/")
    ensures RateConfig(fingerprint, r) == Some((AuthenticationBudget(r.path[13..]), "ip:" + r.ip))
  {
    PathOf(r.path, "login");
    PathOf(r.path, "register");
    PathOf(r.path, "gquan/login");
    PathOf(r.path, "verification-codes");
    assert "/api/v1/auth/" + "login" == "/api/v1/auth/login";
    assert "/api/v1/auth/" + "register" == "/api/v1/auth/register";
    assert "/api/v1/auth/" + "gquan/login" == "/api/v1/auth/gquan/login";
    assert "/api/v1/auth/" + "verification-codes" == "/api/v1/auth/verification-codes";
  }

  /** Whether the request stays under the budget of its path: changes 100 a minute by token or 20 by address, agents
      1000 by token or 50 by address, and nothing but these and authentication is limited. */
  predicate WithinBudget(fingerprint: string -> string, arrivals: seq<Arrival>, r: Request, at: real) {
    var anonymous := r.authorization == "";
    if StartsWith(r.path, "/api/v1/auth/") then
      LastMinute(fingerprint, arrivals, "ip:" + r.ip, at) < AuthenticationBudget(r.path[13..])
    else if StartsWith(r.path, "/api/v1/") && Changing(r.method_) then
      if anonymous then LastMinute(fingerprint, arrivals, "ip:" + r.ip, at) < 20
      else LastMinute(fingerprint, arrivals, "user:" + fingerprint(r.authorization), at) < 100
    else if StartsWith(r.path, "/agent/v1/") then
      if anonymous then LastMinute(fingerprint, arrivals, "ip:" + r.ip, at) < 50
      else LastMinute(fingerprint, arrivals, "agent:" + fingerprint(r.authorization), at) < 1000
    else true
  }

  /** Whatever has arrived before and whenever cleanup ran, a request passes exactly while the requests let through
      in the last minute stay under its budget. */
  lemma PassesWithinBudget(fingerprint: string -> string, arrivals: seq<Arrival>, r: Request, at: real)
    requires Ordered(arrivals + [Incoming(r, at)])
    ensures Passes(fingerprint, arrivals, r, at) <==> WithinBudget(fingerprint, arrivals, r, at)
  {
    if RateConfig(fingerprint, r).Some? {
      PassesByTheLog(fingerprint, arrivals, r, at);
    }
    if StartsWith(r.path, "/api/v1/auth/") {
      AuthenticationConfig(fingerprint, r);
    }
  }
}
