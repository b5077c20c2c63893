/** One virtual device of the stream pool: its own client id and its own
    per-region cache of start-endpoint answers. */
module Session {
  import opened Wrappers
  import opened Backend

  /** Tokens are reused while younger than four hours (time in seconds). */
  const FOUR_HOURS: int := 4 * 60 * 60

  /** A cached answer for `region` exists and was obtained less than four hours
      before `now`. A region without an issue time never counts as fresh (the
      source falls back to the earliest representable date). */
  predicate Fresh(responses: map<string, BootResponse>, issuedAt: map<string, int>, region: string, now: int)
  {
    region in responses && region in issuedAt && now - issuedAt[region] < FOUR_HOURS
  }

  /** The effect of one `boot`: what it returns, whether it sent a request, and
      the cache afterwards. */
  datatype BootOutcome = BootOutcome(
    result: Result<BootResponse, Error>,
    requested: bool,
    responses: map<string, BootResponse>,
    issuedAt: map<string, int>)

  /** A fresh cached answer is returned without a request; otherwise exactly
      one request is sent, and only an accepted answer is cached, stamped with
      `now`, under `region` alone. */
  function BootStep(
    responses: map<string, BootResponse>, issuedAt: map<string, int>,
    region: string, now: int, attempt: Fetch<BootResponse>): (s: BootOutcome)
    ensures s.requested <==> !Fresh(responses, issuedAt, region, now)
    ensures !s.requested ==> s.result == Ok(responses[region])
    ensures s.requested ==> s.result == Authenticate(attempt)
    ensures s.result.Err? || !s.requested ==> s.responses == responses && s.issuedAt == issuedAt
    ensures s.requested && s.result.Ok? ==>
      s.responses == responses[region := s.result.value] && s.issuedAt == issuedAt[region := now]
  {
    if Fresh(responses, issuedAt, region, now) then
      BootOutcome(Ok(responses[region]), false, responses, issuedAt)
    else
      match Authenticate(attempt)
      case Err(e) => BootOutcome(Err(e), true, responses, issuedAt)
      case Ok(resp) => BootOutcome(Ok(resp), true, responses[region := resp], issuedAt[region := now])
  }

  /** After a successful request at `t`, every boot for the same region before
      `t` + 4 h returns that answer without a request and leaves the cache as it is. */
  lemma ReusedWithinFourHours(
    responses: map<string, BootResponse>, issuedAt: map<string, int>,
    region: string, t: int, t': int, first: Fetch<BootResponse>, second: Fetch<BootResponse>)
    requires BootStep(responses, issuedAt, region, t, first).requested
    requires BootStep(responses, issuedAt, region, t, first).result.Ok?
    requires t <= t' < t + FOUR_HOURS
    ensures var s1 := BootStep(responses, issuedAt, region, t, first);
      var s2 := BootStep(s1.responses, s1.issuedAt, region, t', second);
      !s2.requested && s2.result == s1.result && s2.responses == s1.responses && s2.issuedAt == s1.issuedAt
  {
  }

  /** Once four hours have passed since the answer was cached, the next boot
      for that region sends exactly one request. */
  lemma RefreshedAfterFourHours(
    responses: map<string, BootResponse>, issuedAt: map<string, int>,
    region: string, t: int, t': int, first: Fetch<BootResponse>, second: Fetch<BootResponse>)
    requires BootStep(responses, issuedAt, region, t, first).requested
    requires BootStep(responses, issuedAt, region, t, first).result.Ok?
    requires t' >= t + FOUR_HOURS
    ensures var s1 := BootStep(responses, issuedAt, region, t, first);
      BootStep(s1.responses, s1.issuedAt, region, t', second).requested
  {
  }

  /** A boot for one region neither adds, drops, nor re-dates the cached answer
      of any other region. */
  lemma OtherRegionsUntouched(
    responses: map<string, BootResponse>, issuedAt: map<string, int>,
    region: string, other: string, now: int, later: int, attempt: Fetch<BootResponse>)
    requires other != region
    ensures var s := BootStep(responses, issuedAt, region, now, attempt);
      Lookup(s.responses, other) == Lookup(responses, other)
      && Lookup(s.issuedAt, other) == Lookup(issuedAt, other)
      && (Fresh(s.responses, s.issuedAt, other, later) <==> Fresh(responses, issuedAt, other, later))
  {
  }

  class StreamSession {
    /** The device identity presented to the service (a random UUID in the source). */
    const clientId: string
    const username: Option<string>
    const password: Option<string>
    /** Region -> last accepted start answer. */
    var responseList: map<string, BootResponse>
    /** Region -> time that answer was obtained. */
    var sessionAt: map<string, int>

    constructor (clientId: string, username: Option<string>, password: Option<string>)
      ensures this.clientId == clientId && this.username == username && this.password == password
      ensures responseList == map[] && sessionAt == map[]
    {
      this.clientId := clientId;
      this.username := username;
      this.password := password;
      responseList := map[];
      sessionAt := map[];
    }

    /** Authenticate, or reuse this device's fresh token, for `region`;
        `attempt` is what the start endpoint does if it is asked. */
    method Boot(region: string, now: int, attempt: Fetch<BootResponse>)
      returns (r: Result<BootResponse, Error>, requested: bool)
      modifies this
      ensures var s := BootStep(old(responseList), old(sessionAt), region, now, attempt);
        r == s.result && requested == s.requested
        && responseList == s.responses && sessionAt == s.issuedAt
    {
      if region in responseList && region in sessionAt && now - sessionAt[region] < FOUR_HOURS {
        return Ok(responseList[region]), false;
      }
      requested := true;
      match attempt {
        case Raised(name) =>
          return Err(ExceptionRaised(name)), requested;
        case Replied(status, text, body) =>
          if !(200 <= status <= 201) {
            return Err(HttpFailure(status, text)), requested;
          }
          responseList := responseList[region := body];
          sessionAt := sessionAt[region := now];
          r := Ok(body);
      }
    }
  }
}
