/** Calling an outside service with retries and alerting on failure: GitHub, an MCP server, the LLM.
    Three loops, written separately, with one contract. Time is counted in seconds. */
module Retry {
  import opened Options
  import opened Text
  import opened TextLaws

  type UserId = nat

  const MAX_ATTEMPTS := 3
  const RETRY_DELAYS := [1, 3]
  const ATTEMPT_TIMEOUT := 20

  datatype FailureType = ServiceTimeout | AuthenticationFailure | RateLimitExceeded

  // ---------------------------------------------------------------- what one attempt brings

  /** `Failed` may be retried, `Rejected` may not. `Escapes` is an exception the loop does not handle. */
  datatype Verdict = Succeeds | Escapes | Rejected(kind: FailureType) | Failed(kind: FailureType)

  datatype GithubReply = Responded(status: nat) | GithubTimedOut | TransportError | GithubCrash

  /** An unusable address ends the loop as a timeout, never as an authentication failure. Every status
      outside 200 to 299 raises. */
  function GithubVerdict(urlValid: bool, reply: GithubReply): Verdict {
    if !urlValid then Rejected(ServiceTimeout)
    else
      match reply
      case Responded(status) =>
        if 200 <= status < 300 then Succeeds
        else if status == 401 || status == 403 then Rejected(AuthenticationFailure)
        else Failed(ServiceTimeout)
      case GithubTimedOut => Failed(ServiceTimeout)
      case TransportError => Failed(ServiceTimeout)
      case GithubCrash => Escapes
  }

  datatype McpReply = Listed | McpTimedOut | ClientError(text: string) | McpCrash

  const AUTH_FAILURE_MARKERS := ["401", "403", "unauthorized", "forbidden", "authentication"]

  predicate Contains(text: string, marker: string) {
    marker <= text || (text != "" && Contains(text[1..], marker))
  }

  function ClassifyMcpError(text: string): FailureType {
    if exists k :: 0 <= k < |AUTH_FAILURE_MARKERS| && Contains(Lower(text), AUTH_FAILURE_MARKERS[k])
    then AuthenticationFailure
    else ServiceTimeout
  }

  function McpVerdict(reply: McpReply): Verdict {
    match reply
    case Listed => Succeeds
    case McpTimedOut => Failed(ServiceTimeout)
    case ClientError(text) =>
      if ClassifyMcpError(text) == AuthenticationFailure then Rejected(AuthenticationFailure) else Failed(ServiceTimeout)
    case McpCrash => Escapes
  }

  /** The exception a transport error was raised from. */
  datatype Cause = HttpStatus(status: nat) | HttpTimeout | OtherCause

  datatype LlmReply =
    | Completed(text: string)
    | KeyUnavailable
    | LlmTimedOut
    | LlmError(cause: Cause)
    | LlmCrash

  function ClassifyLlmError(cause: Cause): FailureType {
    match cause
    case HttpStatus(status) =>
      if status == 429 then RateLimitExceeded
      else if status == 401 || status == 403 then AuthenticationFailure
      else ServiceTimeout
    case HttpTimeout => ServiceTimeout
    case OtherCause => ServiceTimeout
  }

  function LlmVerdict(reply: LlmReply): Verdict {
    match reply
    case Completed(_) => Succeeds
    case KeyUnavailable => Escapes
    case LlmTimedOut => Failed(ServiceTimeout)
    case LlmError(cause) =>
      var kind := ClassifyLlmError(cause);
      if kind == AuthenticationFailure then Rejected(kind) else Failed(kind)
    case LlmCrash => Escapes
  }

  // ---------------------------------------------------------------- what stops a loop, and as what

  /** A usable address: 200 to 299 ends the loop well, 401 and 403 end it as an authentication failure, an
      unknown exception escapes, and all else is tried again as a timeout. An unusable address ends it. */
  lemma GithubStops(urlValid: bool, reply: GithubReply)
    ensures var v := GithubVerdict(urlValid, reply);
            && (v.Succeeds? <==> urlValid && reply.Responded? && reply.status / 100 == 2)
            && (v == Rejected(AuthenticationFailure) <==> urlValid && reply.Responded? && reply.status in {401, 403})
            && (v == Rejected(ServiceTimeout) <==> !urlValid)
            && (v.Escapes? <==> urlValid && reply.GithubCrash?)
            && (v.Failed? ==> v.kind == ServiceTimeout) && v != Rejected(RateLimitExceeded)
  {
  }

  lemma {:induction false} ContainsExact(text: string, marker: string)
    ensures Contains(text, marker) <==> exists before, behind :: text == before + marker + behind
  {
    if Contains(text, marker) {
      if marker <= text {
        assert text == "" + marker + text[|marker|..];
      } else {
        ContainsExact(text[1..], marker);
        var before, behind :| text[1..] == before + marker + behind;
        assert text == ([text[0]] + before) + marker + behind;
      }
    }
    if before, behind :| text == before + marker + behind {
      if before != "" {
        assert text[1..] == before[1..] + marker + behind;
        ContainsExact(text[1..], marker);
      }
    }
  }

  /** The error text holds one of the five markers, without regard to case. */
  ghost predicate Marked(text: string) {
    exists low, marker, before, behind ::
      && SmallLetters(text, low) && low == before + marker + behind
      && marker in ["401", "403", "unauthorized", "forbidden", "authentication"]
  }

  lemma MarkedExact(text: string)
    ensures ClassifyMcpError(text) == (if Marked(text) then AuthenticationFailure else ServiceTimeout)
  {
    hide SmallLetters, Lower, Contains;
    var low := Lower(text);
    var markers := ["401", "403", "unauthorized", "forbidden", "authentication"];
    SmallLettersExact(text, low);
    if Marked(text) {
      var low', marker, before, behind :|
        SmallLetters(text, low') && low' == before + marker + behind
        && marker in ["401", "403", "unauthorized", "forbidden", "authentication"];
      SmallLettersExact(text, low');
      ContainsExact(low, marker);
      var k :| 0 <= k < |markers| && markers[k] == marker;
      assert AUTH_FAILURE_MARKERS[k] == marker;
    }
    if k :| 0 <= k < |AUTH_FAILURE_MARKERS| && Contains(low, AUTH_FAILURE_MARKERS[k]) {
      ContainsExact(low, AUTH_FAILURE_MARKERS[k]);
      assert AUTH_FAILURE_MARKERS[k] in markers;
    }
  }

  lemma McpStops(reply: McpReply)
    ensures var v := McpVerdict(reply);
            && (v.Succeeds? <==> reply.Listed?) && (v.Escapes? <==> reply.McpCrash?)
            && (v == Rejected(AuthenticationFailure) <==> reply.ClientError? && Marked(reply.text))
            && (v.Rejected? ==> v.kind == AuthenticationFailure) && (v.Failed? ==> v.kind == ServiceTimeout)
  {
    hide Marked, ClassifyMcpError;
    if reply.ClientError? {
      MarkedExact(reply.text);
    }
  }

  /** A completion ends the loop well; a missing key and an unknown exception escape; 401 and 403 end it as
      an authentication failure; 429 is tried again as a rate limit, all else as a timeout. */
  lemma LlmStops(reply: LlmReply)
    ensures var v := LlmVerdict(reply);
            && (v.Succeeds? <==> reply.Completed?) && (v.Escapes? <==> reply.KeyUnavailable? || reply.LlmCrash?)
            && (v == Rejected(AuthenticationFailure) <==>
                  reply.LlmError? && reply.cause.HttpStatus? && reply.cause.status in {401, 403})
            && (v == Failed(RateLimitExceeded) <==> reply == LlmError(HttpStatus(429)))
            && (v.Rejected? ==> v.kind == AuthenticationFailure) && v != Failed(AuthenticationFailure)
  {
  }

  // ---------------------------------------------------------------- the one contract

  datatype Outcome = Returned | Propagated | Raised(kind: FailureType)

  /** How many attempts are made when the k-th would bring `verdicts[k]`. */
  function Attempts(verdicts: seq<Verdict>): nat {
    if verdicts == [] then 0
    else if verdicts[0].Failed? then 1 + Attempts(verdicts[1..])
    else 1
  }

  lemma {:induction false} AttemptsExact(verdicts: seq<Verdict>)
    ensures var n := Attempts(verdicts);
            && n <= |verdicts| && (verdicts != [] ==> n > 0)
            && (forall k :: 0 <= k < n - 1 ==> verdicts[k].Failed?)
            && (0 < n < |verdicts| ==> !verdicts[n - 1].Failed?)
  {
    if verdicts != [] && verdicts[0].Failed? {
      AttemptsExact(verdicts[1..]);
    }
  }

  function OutcomeOf(last: Verdict): Outcome {
    match last
    case Succeeds => Returned
    case Escapes => Propagated
    case Rejected(kind) => Raised(kind)
    case Failed(kind) => Raised(kind)
  }

  function Alerts(outcome: Outcome): seq<FailureType> {
    if outcome.Raised? then [outcome.kind] else []
  }

  /** What a whole call leaves behind. */
  datatype Trace = Trace(attempts: nat, sleeps: seq<nat>, outcome: Outcome, alerts: seq<FailureType>)

  function Expected(verdicts: seq<Verdict>): Trace
    requires |verdicts| == MAX_ATTEMPTS
  {
    AttemptsExact(verdicts);
    var n := Attempts(verdicts);
    var outcome := OutcomeOf(verdicts[n - 1]);
    Trace(n, RETRY_DELAYS[..n - 1], outcome, Alerts(outcome))
  }

  // ---------------------------------------------------------------- recipients of an alert

  /** The users, each once, in the order they first turn up. */
  function AddAll(recipients: seq<UserId>, users: seq<UserId>): seq<UserId>
    decreases |users|
  {
    if users == [] then recipients
    else AddAll(if users[0] in recipients then recipients else recipients + [users[0]], users[1..])
  }

  predicate Distinct(users: seq<UserId>) {
    forall i, j :: 0 <= i < j < |users| ==> users[i] != users[j]
  }

  lemma {:induction false} AddAllExact(recipients: seq<UserId>, users: seq<UserId>)
    requires Distinct(recipients)
    ensures Distinct(AddAll(recipients, users))
    ensures forall u :: u in AddAll(recipients, users) <==> u in recipients || u in users
    decreases |users|
  {
    if users != [] {
      AddAllExact(if users[0] in recipients then recipients else recipients + [users[0]], users[1..]);
    }
  }

  function Recipients(orgAdmins: seq<UserId>, superusers: seq<UserId>): seq<UserId> {
    AddAll(AddAll([], orgAdmins), superusers)
  }

  /** Everybody who must be told is told once: the administrators of the organisation and those of the
      platform, and nobody else. */
  lemma RecipientsExact(orgAdmins: seq<UserId>, superusers: seq<UserId>)
    ensures var all := Recipients(orgAdmins, superusers); forall i, j :: 0 <= i < j < |all| ==> all[i] != all[j]
    ensures forall u :: u in Recipients(orgAdmins, superusers) <==> u in orgAdmins || u in superusers
  {
    hide AddAll;
    AddAllExact([], orgAdmins);
    AddAllExact(AddAll([], orgAdmins), superusers);
  }

  /** The users a notification could be stored for. */
  function Delivered(recipients: seq<UserId>, unreachable: set<UserId>): seq<UserId> {
    if recipients == [] then []
    else (if recipients[0] in unreachable then [] else [recipients[0]]) + Delivered(recipients[1..], unreachable)
  }

  lemma DeliveredExact(recipients: seq<UserId>, unreachable: set<UserId>)
    requires Distinct(recipients)
    ensures var told := Delivered(recipients, unreachable); forall i, j :: 0 <= i < j < |told| ==> told[i] != told[j]
    ensures forall u :: u in Delivered(recipients, unreachable) <==> u in recipients && u !in unreachable
  {
    hide Delivered;
    DeliveredFacts(recipients, unreachable);
  }

  lemma {:induction false} DeliveredFacts(recipients: seq<UserId>, unreachable: set<UserId>)
    requires Distinct(recipients)
    ensures Distinct(Delivered(recipients, unreachable))
    ensures forall u :: u in Delivered(recipients, unreachable) <==> u in recipients && u !in unreachable
  {
    if recipients != [] {
      DeliveredFacts(recipients[1..], unreachable);
    }
  }

  lemma NobodyDelivered(unreachable: set<UserId>)
    ensures Delivered([], unreachable) == []
  {
  }

  lemma {:induction false} DeliveredAppend(recipients: seq<UserId>, user: UserId, unreachable: set<UserId>)
    ensures Delivered(recipients + [user], unreachable)
         == Delivered(recipients, unreachable) + (if user in unreachable then [] else [user])
  {
    if recipients == [] {
      assert [] + [user] == [user] && [user][1..] == [];
    } else {
      DeliveredAppend(recipients[1..], user, unreachable);
      assert (recipients + [user])[1..] == recipients[1..] + [user];
    }
  }

  // ---------------------------------------------------------------- the loops

  /** What a call does to the outside: it sleeps, tries, and notifies. `orgAdmins` and `superusers` are
      the rows of the two queries, `unreachable` the users whose notification raises. */
  class World {
    const orgAdmins: seq<UserId>
    const superusers: seq<UserId>
    const unreachable: set<UserId>
    var attempts: nat
    var sleeps: seq<nat>
    var alerts: seq<FailureType>
    var notified: seq<UserId>

    constructor (orgAdmins: seq<UserId>, superusers: seq<UserId>, unreachable: set<UserId>)
      ensures this.orgAdmins == orgAdmins && this.superusers == superusers && this.unreachable == unreachable
      ensures attempts == 0 && sleeps == [] && alerts == [] && notified == []
    {
      this.orgAdmins, this.superusers, this.unreachable := orgAdmins, superusers, unreachable;
      attempts, sleeps, alerts, notified := 0, [], [], [];
    }

    method ResolveOrgAndPlatformAdmins() returns (recipients: seq<UserId>)
      ensures recipients == Recipients(orgAdmins, superusers)
    {
      recipients := [];
      for k := 0 to |orgAdmins|
        invariant AddAll(recipients, orgAdmins[k..]) == AddAll([], orgAdmins)
      {
        if orgAdmins[k] !in recipients {
          recipients := recipients + [orgAdmins[k]];
        }
      }
      for k := 0 to |superusers|
        invariant AddAll(recipients, superusers[k..]) == Recipients(orgAdmins, superusers)
      {
        if superusers[k] !in recipients {
          recipients := recipients + [superusers[k]];
        }
      }
    }

    /** One failed notification never blocks the others. */
    method DispatchAdminAlert(kind: FailureType)
      modifies this
      ensures attempts == old(attempts) && sleeps == old(sleeps) && alerts == old(alerts) + [kind]
      ensures notified == old(notified) + Delivered(Recipients(orgAdmins, superusers), unreachable)
    {
      hide Delivered, Recipients;
      var recipients := ResolveOrgAndPlatformAdmins();
      NobodyDelivered(unreachable);
      for k := 0 to |recipients|
        invariant attempts == old(attempts) && sleeps == old(sleeps) && alerts == old(alerts)
        invariant notified == old(notified) + Delivered(recipients[..k], unreachable)
      {
        DeliveredAppend(recipients[..k], recipients[k], unreachable);
        assert recipients[..k + 1] == recipients[..k] + [recipients[k]];
        if recipients[k] !in unreachable {
          notified := notified + [recipients[k]];
        }
      }
      assert recipients[..|recipients|] == recipients;
      alerts := alerts + [kind];
    }

    method Attempt()
      modifies this
      ensures attempts == old(attempts) + 1
      ensures sleeps == old(sleeps) && alerts == old(alerts) && notified == old(notified)
    {
      attempts := attempts + 1;
    }

    method Sleep(attempt: nat)
      requires 1 <= attempt < MAX_ATTEMPTS
      modifies this
      ensures sleeps == old(sleeps) + [RETRY_DELAYS[attempt - 1]]
      ensures attempts == old(attempts) && alerts == old(alerts) && notified == old(notified)
    {
      sleeps := sleeps + [RETRY_DELAYS[attempt - 1]];
    }

    /** What the call may leave behind, besides its outcome: the trace of the one contract, and for
        every alert the notifications of its recipients. */
    twostate predicate Leaves(trace: Trace)
      reads this
    {
      && attempts == old(attempts) + trace.attempts
      && sleeps == old(sleeps) + trace.sleeps
      && alerts == old(alerts) + trace.alerts
      && notified == old(notified)
           + if trace.alerts == [] then [] else Delivered(Recipients(orgAdmins, superusers), unreachable)
    }
  }

  /** `replies(k)` is what GitHub would answer to attempt `k`. */
  method VerifyGithubAccessWithRetry(world: World, urlValid: bool, replies: nat -> GithubReply)
    returns (outcome: Outcome)
    modifies world
    ensures var trace := Expected([GithubVerdict(urlValid, replies(1)), GithubVerdict(urlValid, replies(2)),
                                   GithubVerdict(urlValid, replies(3))]);
            outcome == trace.outcome && world.Leaves(trace)
  {
    ghost var verdicts := [GithubVerdict(urlValid, replies(1)), GithubVerdict(urlValid, replies(2)),
                           GithubVerdict(urlValid, replies(3))];
    AttemptsExact(verdicts);
    var lastFailureType := ServiceTimeout;
    var attempt := 1;
    while attempt <= MAX_ATTEMPTS
      invariant 1 <= attempt <= MAX_ATTEMPTS + 1
      invariant forall k :: 0 <= k < attempt - 1 ==> verdicts[k] == Failed(ServiceTimeout)
      invariant lastFailureType == ServiceTimeout
      invariant world.attempts == old(world.attempts) + attempt - 1
      invariant world.sleeps == old(world.sleeps) + RETRY_DELAYS[..if attempt <= MAX_ATTEMPTS then attempt - 1 else 2]
      invariant world.alerts == old(world.alerts) && world.notified == old(world.notified)
    {
      world.Attempt();
      if !urlValid {
        break;
      }
      match replies(attempt) {
        case Responded(status) =>
          if 200 <= status < 300 {
            return Returned;
          }
          if status == 401 || status == 403 {
            lastFailureType := AuthenticationFailure;
            break;
          }
          lastFailureType := ServiceTimeout;
        case GithubTimedOut => lastFailureType := ServiceTimeout;
        case TransportError => lastFailureType := ServiceTimeout;
        case GithubCrash => return Propagated;
      }
      if attempt < MAX_ATTEMPTS {
        world.Sleep(attempt);
      }
      attempt := attempt + 1;
    }
    world.DispatchAdminAlert(lastFailureType);
    outcome := Raised(lastFailureType);
  }

  method VerifyMcpConnectivityWithRetry(world: World, replies: nat -> McpReply) returns (outcome: Outcome)
    modifies world
    ensures var trace := Expected([McpVerdict(replies(1)), McpVerdict(replies(2)), McpVerdict(replies(3))]);
            outcome == trace.outcome && world.Leaves(trace)
  {
    ghost var verdicts := [McpVerdict(replies(1)), McpVerdict(replies(2)), McpVerdict(replies(3))];
    AttemptsExact(verdicts);
    var lastFailureType := ServiceTimeout;
    var attempt := 1;
    while attempt <= MAX_ATTEMPTS
      invariant 1 <= attempt <= MAX_ATTEMPTS + 1
      invariant forall k :: 0 <= k < attempt - 1 ==> verdicts[k] == Failed(ServiceTimeout)
      invariant lastFailureType == ServiceTimeout
      invariant world.attempts == old(world.attempts) + attempt - 1
      invariant world.sleeps == old(world.sleeps) + RETRY_DELAYS[..if attempt <= MAX_ATTEMPTS then attempt - 1 else 2]
      invariant world.alerts == old(world.alerts) && world.notified == old(world.notified)
    {
      world.Attempt();
      match replies(attempt) {
        case Listed => return Returned;
        case McpTimedOut => lastFailureType := ServiceTimeout;
        case ClientError(text) =>
          lastFailureType := ClassifyMcpError(text);
          if lastFailureType == AuthenticationFailure {
            break;
          }
        case McpCrash => return Propagated;
      }
      if attempt < MAX_ATTEMPTS {
        world.Sleep(attempt);
      }
      attempt := attempt + 1;
    }
    world.DispatchAdminAlert(lastFailureType);
    outcome := Raised(lastFailureType);
  }

  /** Of the three only this loop returns something, the completion, and only this one can end in a
      rate limit. Without a key it neither retries nor alerts. */
  method CallLlmApiWithRetry(world: World, replies: nat -> LlmReply) returns (outcome: Outcome, answer: Option<string>)
    modifies world
    ensures var trace := Expected([LlmVerdict(replies(1)), LlmVerdict(replies(2)), LlmVerdict(replies(3))]);
            && outcome == trace.outcome && world.Leaves(trace)
            && (outcome == Returned <==> answer.Some?)
            && (answer.Some? ==> replies(trace.attempts) == Completed(answer.value))
  {
    ghost var verdicts := [LlmVerdict(replies(1)), LlmVerdict(replies(2)), LlmVerdict(replies(3))];
    AttemptsExact(verdicts);
    answer := None;
    var lastFailureType := ServiceTimeout;
    var attempt := 1;
    while attempt <= MAX_ATTEMPTS
      invariant 1 <= attempt <= MAX_ATTEMPTS + 1
      invariant forall k :: 0 <= k < attempt - 1 ==> verdicts[k].Failed?
      invariant attempt > 1 ==> verdicts[attempt - 2] == Failed(lastFailureType)
      invariant world.attempts == old(world.attempts) + attempt - 1
      invariant world.sleeps == old(world.sleeps) + RETRY_DELAYS[..if attempt <= MAX_ATTEMPTS then attempt - 1 else 2]
      invariant world.alerts == old(world.alerts) && world.notified == old(world.notified)
      invariant answer.None?
    {
      world.Attempt();
      match replies(attempt) {
        case Completed(text) => return Returned, Some(text);
        case KeyUnavailable => return Propagated, None;
        case LlmCrash => return Propagated, None;
        case LlmTimedOut => lastFailureType := ServiceTimeout;
        case LlmError(cause) => lastFailureType := ClassifyLlmError(cause);
      }
      if lastFailureType == AuthenticationFailure {
        break;
      }
      if attempt < MAX_ATTEMPTS {
        world.Sleep(attempt);
      }
      attempt := attempt + 1;
    }
    world.DispatchAdminAlert(lastFailureType);
    outcome := Raised(lastFailureType);
  }

  // ---------------------------------------------------------------- what the contract promises

  function Sum(xs: seq<nat>): nat {
    if xs == [] then 0 else xs[0] + Sum(xs[1..])
  }

  lemma {:induction false} SumBound(xs: seq<nat>, bound: nat)
    requires forall k :: 0 <= k < |xs| ==> xs[k] <= bound
    ensures Sum(xs) <= bound * |xs|
  {
    if xs != [] {
      SumBound(xs[1..], bound);
    }
  }

  /** A call takes at most 64 seconds, the alert aside: every attempt is cut off after twenty seconds,
      and the delays come in their order, one before each further attempt. It takes that long exactly if
      three attempts are made and each lasts to its end. */
  lemma TimeBudget(verdicts: seq<Verdict>, durations: seq<nat>)
    requires |verdicts| == MAX_ATTEMPTS && |durations| == Expected(verdicts).attempts
    requires forall k :: 0 <= k < |durations| ==> durations[k] <= 20
    ensures Expected(verdicts).attempts <= 3 && Expected(verdicts).sleeps <= [1, 3]
    ensures |Expected(verdicts).sleeps| == Expected(verdicts).attempts - 1
    ensures Sum(durations) + Sum(Expected(verdicts).sleeps) <= 64
    ensures Sum(durations) + Sum(Expected(verdicts).sleeps) == 64 <==> durations == [20, 20, 20]
  {
    hide Sum, Attempts;
    AttemptsExact(verdicts);
    SumBound(durations, ATTEMPT_TIMEOUT);
    if |durations| == 3 {
      SumThree(durations[0], durations[1], durations[2]);
      assert durations == [durations[0], durations[1], durations[2]];
    }
    var sleeps := Expected(verdicts).sleeps;
    SleepTimes();
    assert sleeps == [] || sleeps == [1] || sleeps == [1, 3];
  }

  /** Three timeouts in a row do make a call last that long. */
  lemma TimeBudgetIsReached()
    ensures var timeouts := [Failed(ServiceTimeout), Failed(ServiceTimeout), Failed(ServiceTimeout)];
            Expected(timeouts).attempts == 3 && Sum([20, 20, 20]) + Sum(Expected(timeouts).sleeps) == 64
  {
    var timeouts := [Failed(ServiceTimeout), Failed(ServiceTimeout), Failed(ServiceTimeout)];
    ExhaustedReportsTheLast(timeouts);
    TimeBudget(timeouts, [20, 20, 20]);
  }

  lemma SumThree(x: nat, y: nat, z: nat)
    ensures Sum([x, y, z]) == x + y + z
  {
    assert [x, y, z][1..] == [y, z] && [y, z][1..] == [z] && [z][1..] == [];
    assert Sum([z]) == z && Sum([y, z]) == y + z;
  }

  lemma SleepTimes()
    ensures Sum([]) == 0 && Sum([1]) == 1 && Sum([1, 3]) == 4
  {
    assert [1, 3][1..] == [3] && [3][1..] == [] && [1][1..] == [];
  }

  /** The first attempt that does not merely fail decides: nothing is tried after it, everything before
      it was retried, and an authentication failure in particular stops the loop at once and is what
      is reported. */
  lemma FirstDecisiveAttempt(verdicts: seq<Verdict>, k: nat)
    requires |verdicts| == MAX_ATTEMPTS && k < MAX_ATTEMPTS && !verdicts[k].Failed?
    requires forall j :: 0 <= j < k ==> verdicts[j].Failed?
    ensures Expected(verdicts).attempts == k + 1 && Expected(verdicts).outcome == OutcomeOf(verdicts[k])
  {
    hide Attempts;
    AttemptsExact(verdicts);
  }

  /** If every attempt merely fails, all three are made and the type of the last one is reported. */
  lemma ExhaustedReportsTheLast(verdicts: seq<Verdict>)
    requires |verdicts| == MAX_ATTEMPTS && forall j :: 0 <= j < MAX_ATTEMPTS ==> verdicts[j].Failed?
    ensures Expected(verdicts).attempts == 3 && Expected(verdicts).outcome == Raised(verdicts[2].kind)
  {
    hide Attempts;
    AttemptsExact(verdicts);
  }

  /** One alert exactly when the call ends in a failure of the service, none when it succeeds or an
      unhandled exception passes through. */
  lemma OneAlertPerFailure(verdicts: seq<Verdict>)
    requires |verdicts| == MAX_ATTEMPTS
    ensures Expected(verdicts).attempts <= 3
    ensures Expected(verdicts).alerts != [] <==>
              (forall k :: 0 <= k < Expected(verdicts).attempts ==> verdicts[k].Failed? || verdicts[k].Rejected?)
    ensures |Expected(verdicts).alerts| <= 1
    ensures Expected(verdicts).alerts != [] ==> Expected(verdicts).outcome == Raised(Expected(verdicts).alerts[0])
  {
    hide Attempts;
    AttemptsExact(verdicts);
    var n := Attempts(verdicts);
    assert verdicts[n - 1].Failed? || verdicts[n - 1].Rejected? || verdicts[n - 1].Succeeds? || verdicts[n - 1].Escapes?;
  }
}
