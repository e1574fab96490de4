/** Account lockout (NIST SP 800-53 control AC-7): the per-user clock machine inside `authenticate`.

    Time is counted in microseconds, the resolution of the stored timestamps. */
module Lockout {
  import opened Options

  const THRESHOLD_ATTEMPTS := 3
  const WINDOW := 900_000_000
  const DURATION := 1_800_000_000

  /** The length of `n` windows of fifteen minutes. */
  function Windows(n: int): int {
    900_000_000 * n
  }

  /** The three columns of the user row that the lockout keeps. */
  datatype Status = Status(failures: nat, lastFailure: Option<int>, lockedUntil: Option<int>)

  const FRESH := Status(0, None, None)

  datatype Outcome =
    | LoggedIn
    | InvalidCredentials
    | AccountLocked(retryAfterSeconds: int)

  predicate Locked(s: Status, now: int) {
    s.lockedUntil.Some? && s.lockedUntil.value > now
  }

  /** A failure counts from one again when the previous one lies before the window. */
  predicate OutsideWindow(s: Status, now: int) {
    s.lastFailure.None? || s.lastFailure.value < now - WINDOW
  }

  function AfterFailure(s: Status, now: int): Status {
    var failures := if OutsideWindow(s, now) then 1 else s.failures + 1;
    Status(failures, Some(now), if failures >= THRESHOLD_ATTEMPTS then Some(now + DURATION) else s.lockedUntil)
  }

  /** What one attempt at time `now` does to the row of an active user; `matches` is the password check. */
  function Attempted(s: Status, now: int, matches: bool): Status {
    if Locked(s, now) then s
    else if !matches then AfterFailure(s, now)
    else if s.failures != 0 || s.lockedUntil.Some? then FRESH
    else s
  }

  /** A row of the users table, updated in place. */
  class User {
    var isActive: bool
    var failedLoginAttempts: nat
    var lastFailedLoginAt: Option<int>
    var lockedUntil: Option<int>

    function Current(): Status
      reads this
    {
      Status(failedLoginAttempts, lastFailedLoginAt, lockedUntil)
    }

    constructor ()
      ensures isActive && Current() == FRESH
    {
      isActive := true;
      failedLoginAttempts := 0;
      lastFailedLoginAt := None;
      lockedUntil := None;
    }
  }

  /** `user` is null when no row has the given email. `compared` reports whether the password
      was hashed and compared at all. */
  method Authenticate(user: User?, now: int, matches: bool) returns (outcome: Outcome, compared: bool)
    modifies user
    ensures user == null ==> outcome == InvalidCredentials && !compared
    ensures user != null ==> user.isActive == old(user.isActive)
    ensures user != null && !old(user.isActive) ==>
              outcome == InvalidCredentials && !compared && user.Current() == old(user.Current())
    ensures user != null && old(user.isActive) ==>
              && user.Current() == Attempted(old(user.Current()), now, matches)
              && compared == !Locked(old(user.Current()), now)
              && (outcome == LoggedIn <==> compared && matches)
              && (!compared ==> outcome.AccountLocked? && 0 <= outcome.retryAfterSeconds
                                && outcome.retryAfterSeconds * 1_000_000 <= user.lockedUntil.value - now
                                                 < (outcome.retryAfterSeconds + 1) * 1_000_000)
              && (compared && !matches ==>
                    (Locked(user.Current(), now) <==> outcome == AccountLocked(30 * 60))
                    && (!Locked(user.Current(), now) <==> outcome == InvalidCredentials))
  {
    if user == null || !user.isActive {
      return InvalidCredentials, false;
    }
    if user.lockedUntil.Some? && user.lockedUntil.value > now {
      return AccountLocked((user.lockedUntil.value - now) / 1_000_000), false;
    }
    compared := true;
    if !matches {
      var windowStart := now - WINDOW;
      if user.lastFailedLoginAt.None? || user.lastFailedLoginAt.value < windowStart {
        user.failedLoginAttempts := 1;
      } else {
        user.failedLoginAttempts := user.failedLoginAttempts + 1;
      }
      user.lastFailedLoginAt := Some(now);
      if user.failedLoginAttempts >= THRESHOLD_ATTEMPTS {
        user.lockedUntil := Some(now + DURATION);
        return AccountLocked(30 * 60), true;
      }
      return InvalidCredentials, true;
    }
    if user.failedLoginAttempts != 0 || user.lockedUntil.Some? {
      user.failedLoginAttempts := 0;
      user.lockedUntil := None;
      user.lastFailedLoginAt := None;
    }
    return LoggedIn, true;
  }

  // ---------------------------------------------------------------- runs

  /** One call of `authenticate` against one account. */
  datatype Attempt = Attempt(at: int, matches: bool, active: bool)

  /** The clock never runs backwards, and no attempt precedes `start`. */
  predicate Ordered(run: seq<Attempt>, start: int) {
    && (forall i :: 0 <= i < |run| ==> start <= run[i].at)
    && (forall i, j :: 0 <= i < j < |run| ==> run[i].at <= run[j].at)
  }

  function Step(s: Status, a: Attempt): Status {
    if a.active then Attempted(s, a.at, a.matches) else s
  }

  function After(s: Status, run: seq<Attempt>): Status {
    if run == [] then s else Step(After(s, run[..|run| - 1]), run[|run| - 1])
  }

  predicate Compares(s: Status, a: Attempt) {
    a.active && !Locked(s, a.at)
  }

  /** How many of the attempts reached the password comparison and failed it. */
  function FailedGuesses(s: Status, run: seq<Attempt>): nat {
    if run == [] then 0
    else
      var before := run[..|run| - 1];
      var last := run[|run| - 1];
      FailedGuesses(s, before) + if Compares(After(s, before), last) && !last.matches then 1 else 0
  }

  predicate NoSuccess(s: Status, run: seq<Attempt>) {
    forall k :: 0 <= k < |run| ==> !(Compares(After(s, run[..k]), run[k]) && run[k].matches)
  }

  /** The invariant of every reachable row, `now` being no earlier than its last change. */
  predicate Invariant(s: Status, now: int) {
    && s.failures <= THRESHOLD_ATTEMPTS
    && (s.failures == 0 <==> s.lastFailure.None?)
    && (s.lastFailure.Some? ==> s.lastFailure.value <= now)
    && (s.lockedUntil.Some? ==> s.lastFailure.Some?)
    && (s.failures == THRESHOLD_ATTEMPTS ==> s.lockedUntil == Some(s.lastFailure.value + DURATION))
    && (s.lockedUntil.Some? && s.failures < THRESHOLD_ATTEMPTS ==> s.lockedUntil.value <= s.lastFailure.value)
  }

  lemma {:induction false} ReachableInvariant(s: Status, start: int, run: seq<Attempt>, now: int)
    requires Invariant(s, start) && start <= now
    requires Ordered(run, start) && (run != [] ==> run[|run| - 1].at <= now)
    ensures Invariant(After(s, run), now)
  {
    if run != [] {
      var before := run[..|run| - 1];
      ReachableInvariant(s, start, before, run[|run| - 1].at);
    }
  }

  /** The account is locked exactly during the half hour after the third failure; an attempt made
      then neither compares nor changes anything; the first failure afterwards counts as one. */
  lemma LockWindow(start: int, run: seq<Attempt>, a: Attempt)
    requires Ordered(run + [a], start) && a.active
    ensures var s := After(FRESH, run);
            && (Locked(s, a.at) <==>
                  s.failures == THRESHOLD_ATTEMPTS && s.lastFailure.Some? && a.at < s.lastFailure.value + DURATION)
            && (Locked(s, a.at) ==> !Compares(s, a) && Step(s, a) == s)
            && (s.failures == THRESHOLD_ATTEMPTS && !Locked(s, a.at) && !a.matches ==> Step(s, a).failures == 1)
  {
    var whole := run + [a];
    assert whole[|run|] == a;
    forall i | 0 <= i < |run| ensures start <= run[i].at <= a.at {
      assert whole[i] == run[i];
    }
    assert Ordered(run, start) by {
      forall i, j | 0 <= i < j < |run| ensures run[i].at <= run[j].at {
        assert whole[i] == run[i] && whole[j] == run[j];
      }
    }
    ReachableInvariant(FRESH, start, run, a.at);
  }

  // ---------------------------------------------------------------- the row, read off the attempts alone

  /** How many of the last of these attempts are failures that follow each other within 15 minutes. */
  function Streak(seen: seq<Attempt>): (n: nat)
    ensures n <= |seen|
  {
    var k := |seen|;
    if k == 0 || seen[k - 1].matches then 0
    else if k >= 2 && seen[k - 2].at >= seen[k - 1].at - 900_000_000 then 1 + Streak(seen[..k - 1])
    else 1
  }

  /** Three failures shut the account for 30 minutes after the third. */
  predicate ShutAfter(seen: seq<Attempt>, now: int) {
    Streak(seen) >= 3 && now < seen[|seen| - 1].at + 1_800_000_000
  }

  /** The attempts that reach the comparison: those for an active account that is not shut. */
  function Seen(run: seq<Attempt>): seq<Attempt> {
    if run == [] then []
    else
      var before, last := Seen(run[..|run| - 1]), run[|run| - 1];
      if last.active && !ShutAfter(before, last.at) then before + [last] else before
  }

  predicate Together(seen: seq<Attempt>, from: nat) {
    && (forall i :: from <= i < |seen| ==> !seen[i].matches)
    && forall i :: from < i < |seen| ==> seen[i - 1].at >= seen[i].at - 900_000_000
  }

  /** The streak is the longest run of failures at the end without a success or a longer gap. */
  lemma {:induction false} StreakIsLongest(seen: seq<Attempt>, n: nat)
    requires n <= |seen|
    ensures n <= Streak(seen) <==> Together(seen, |seen| - n)
  {
    hide Streak;
    var k := |seen|;
    if n > 0 {
      var before, last := seen[..k - 1], seen[k - 1];
      assert seen == before + [last];
      StreakAppend(before, last);
      StreakIsLongest(before, n - 1);
      if before != [] && before[k - 2].at >= last.at - 900_000_000 {
        assert Together(seen, k - n) <==> !last.matches && Together(before, k - n);
      } else {
        assert n >= 2 ==> !Together(seen, k - n);
      }
    }
  }

  lemma OrderedBefore(run: seq<Attempt>, start: int)
    requires run != [] && Ordered(run, start)
    ensures Ordered(run[..|run| - 1], start)
  {
  }

  /** The row says what the attempts that were compared say: the counter is the length of the streak, the
      last failure its end. */
  predicate Tallies(s: Status, seen: seq<Attempt>) {
    && s.failures == Streak(seen)
    && s.lastFailure == (if Streak(seen) == 0 then None else Some(seen[|seen| - 1].at))
  }

  lemma LockedIsShut(s: Status, seen: seq<Attempt>, now: int)
    requires Tallies(s, seen) && Invariant(s, now)
    ensures Locked(s, now) <==> ShutAfter(seen, now)
  {
    hide Streak;
  }

  lemma TalliesStep(s: Status, seen: seq<Attempt>, a: Attempt)
    requires Tallies(s, seen) && Invariant(s, a.at)
    ensures Tallies(Step(s, a), if a.active && !ShutAfter(seen, a.at) then seen + [a] else seen)
  {
    LockedIsShut(s, seen, a.at);
    StreakAppend(seen, a);
  }

  lemma StreakAppend(seen: seq<Attempt>, a: Attempt)
    ensures Streak(seen + [a])
         == if a.matches then 0
            else if seen != [] && seen[|seen| - 1].at >= a.at - 900_000_000 then 1 + Streak(seen)
            else 1
  {
    assert (seen + [a])[..|seen|] == seen;
  }

  /** Over every run the counter is the length of the streak, the last failure its end, and the account
      is locked exactly while the streak shuts it. */
  lemma {:induction false} CounterIsStreak(start: int, run: seq<Attempt>, now: int)
    requires Ordered(run, start) && start <= now && (run != [] ==> run[|run| - 1].at <= now)
    ensures Tallies(After(FRESH, run), Seen(run))
    ensures Locked(After(FRESH, run), now) <==> ShutAfter(Seen(run), now)
  {
    hide Streak, Invariant, Tallies, ShutAfter, Step, Locked;
    StartTallied();
    ReachableInvariant(FRESH, start, run, now);
    if run != [] {
      var before, last := run[..|run| - 1], run[|run| - 1];
      CounterIsStreak(start, before, last.at);
      ReachableInvariant(FRESH, start, before, last.at);
      TalliesStep(After(FRESH, before), Seen(before), last);
    }
    LockedIsShut(After(FRESH, run), Seen(run), now);
  }

  lemma StartTallied()
    ensures Tallies(FRESH, []) && forall now :: Invariant(FRESH, now)
  {
  }

  /** A right password that is compared leaves no failure, no time of one and no lock, whatever came
      before. */
  lemma SuccessClears(start: int, run: seq<Attempt>, a: Attempt)
    requires Ordered(run + [a], start) && a.active && a.matches && !ShutAfter(Seen(run), a.at)
    ensures After(FRESH, run + [a]) == Status(0, None, None)
  {
    OrderedBefore(run + [a], start);
    assert (run + [a])[..|run|] == run && (run + [a])[|run|] == a;
    if run != [] {
      assert (run + [a])[|run| - 1] == run[|run| - 1];
    }
    CounterIsStreak(start, run, a.at);
    ReachableInvariant(FRESH, start, run, a.at);
  }

  /** Amortisation: of `n` failures since `start`, those beyond the running counter have been paid
      for at the rate of two per window. */
  predicate Paid(s: Status, n: nat, start: int) {
    n == 0 || (s.failures >= 1 && s.lastFailure.Some? && start <= s.lastFailure.value
               && Windows(n - s.failures) <= 2 * (s.lastFailure.value - start))
  }

  lemma PaidAfterFailure(s: Status, n: nat, start: int, now: int)
    requires Invariant(s, now) && start <= now && Paid(s, n, start) && !Locked(s, now)
    ensures Paid(AfterFailure(s, now), n + 1, start)
  {
    if n > 0 && OutsideWindow(s, now) {
      if s.failures == THRESHOLD_ATTEMPTS {
        assert Windows(n) == Windows(n - 3) + 2_700_000_000;
      } else {
        assert Windows(n) <= Windows(n - s.failures) + 1_800_000_000;
      }
    }
  }

  lemma NoSuccessBefore(s: Status, run: seq<Attempt>)
    requires run != [] && NoSuccess(s, run)
    ensures NoSuccess(s, run[..|run| - 1])
    ensures !(Compares(After(s, run[..|run| - 1]), run[|run| - 1]) && run[|run| - 1].matches)
  {
    var before := run[..|run| - 1];
    forall k | 0 <= k < |before| ensures !(Compares(After(s, before[..k]), before[k]) && before[k].matches) {
      assert before[..k] == run[..k];
    }
  }

  lemma {:induction false} Amortised(s: Status, start: int, run: seq<Attempt>)
    requires Invariant(s, start) && Ordered(run, start) && NoSuccess(s, run)
    ensures Paid(After(s, run), FailedGuesses(s, run), start)
  {
    if run != [] {
      var before := run[..|run| - 1];
      var last := run[|run| - 1];
      NoSuccessBefore(s, run);
      Amortised(s, start, before);
      ReachableInvariant(s, start, before, last.at);
      if Compares(After(s, before), last) {
        PaidAfterFailure(After(s, before), FailedGuesses(s, before), start, last.at);
      }
    }
  }

  /** The guessing bound: from any reachable row, N failed comparisons within L microseconds
      without a success satisfy 15 minutes * (N - 3) <= 2 * L. */
  lemma GuessingBound(s: Status, start: int, run: seq<Attempt>, end: int)
    requires Invariant(s, start) && Ordered(run, start) && NoSuccess(s, run)
    requires start <= end && (run != [] ==> run[|run| - 1].at <= end)
    ensures Windows(FailedGuesses(s, run) - 3) <= 2 * (end - start)
  {
    Amortised(s, start, run);
    ReachableInvariant(s, start, run, end);
  }

  /** Within one window nothing resets the counter, so the policy's "three attempts in fifteen
      minutes" holds exactly, and the third one locks the account. */
  lemma {:induction false} ThreePerWindow(s: Status, start: int, run: seq<Attempt>, end: int)
    requires Invariant(s, start) && Ordered(run, start) && NoSuccess(s, run)
    requires start <= end <= start + WINDOW && (run != [] ==> run[|run| - 1].at <= end)
    ensures FailedGuesses(s, run) <= After(s, run).failures <= 3 || FailedGuesses(s, run) == 0
    ensures FailedGuesses(s, run) == 3 ==> Locked(After(s, run), end)
    ensures FailedGuesses(s, run) > 0 ==>
              var e := After(s, run); e.lastFailure.Some? && start <= e.lastFailure.value <= end
  {
    ReachableInvariant(s, start, run, end);
    if run != [] {
      var before := run[..|run| - 1];
      NoSuccessBefore(s, run);
      ThreePerWindow(s, start, before, run[|run| - 1].at);
    }
  }

  // ---------------------------------------------------------------- the bound cannot be improved

  /** Each round starts one clock tick after the window of the previous one has closed. */
  function Start(round: int): int {
    900_000_001 * round
  }

  /** Two wrong guesses at the start of each of `rounds` windows. */
  function Pairs(rounds: nat): seq<Attempt> {
    if rounds == 0 then []
    else Pairs(rounds - 1) + [Attempt(Start(rounds - 1), false, true)] + [Attempt(Start(rounds - 1), false, true)]
  }

  /** ... and three at the end. */
  function Fastest(rounds: nat): seq<Attempt> {
    var a := Attempt(Start(rounds), false, true);
    Pairs(rounds) + [a] + [a] + [a]
  }

  /** A run of wrong guesses, the latest at `last`, of which `guesses` were compared, ending in row `s`. */
  predicate Guessing(run: seq<Attempt>, last: int, guesses: nat, s: Status) {
    && Ordered(run, 0)
    && (forall i :: 0 <= i < |run| ==> !run[i].matches && run[i].at <= last)
    && FailedGuesses(FRESH, run) == guesses
    && After(FRESH, run) == s
  }

  lemma AfterOneMore(s: Status, run: seq<Attempt>, a: Attempt)
    ensures After(s, run + [a]) == Step(After(s, run), a)
    ensures FailedGuesses(s, run + [a]) ==
            FailedGuesses(s, run) + if Compares(After(s, run), a) && !a.matches then 1 else 0
  {
    assert (run + [a])[..|run|] == run;
  }

  lemma OrderedOneMore(run: seq<Attempt>, a: Attempt, start: int)
    requires Ordered(run, start) && start <= a.at && forall i :: 0 <= i < |run| ==> run[i].at <= a.at
    ensures Ordered(run + [a], start)
  {
    var whole := run + [a];
    forall i, j | 0 <= i < j < |whole| ensures whole[i].at <= whole[j].at {
      assert whole[i] == run[i];
    }
  }

  lemma OneMoreGuess(run: seq<Attempt>, last: int, guesses: nat, s: Status, now: int)
    requires Guessing(run, last, guesses, s) && last <= now && 0 <= now && !Locked(s, now)
    ensures Guessing(run + [Attempt(now, false, true)], now, guesses + 1, AfterFailure(s, now))
  {
    var a := Attempt(now, false, true);
    AfterOneMore(FRESH, run, a);
    OrderedOneMore(run, a, 0);
  }

  lemma {:induction false} PairsRun(rounds: nat)
    ensures rounds == 0 ==> Guessing(Pairs(rounds), 0, 0, FRESH)
    ensures rounds != 0 ==> Guessing(Pairs(rounds), Start(rounds - 1), 2 * rounds, Status(2, Some(Start(rounds - 1)), None))
  {
    if rounds != 0 {
      var now := Start(rounds - 1);
      PairsRun(rounds - 1);
      var last := if rounds == 1 then 0 else Start(rounds - 2);
      var s := if rounds == 1 then FRESH else Status(2, Some(last), None);
      OneMoreGuess(Pairs(rounds - 1), last, 2 * (rounds - 1), s, now);
      OneMoreGuess(Pairs(rounds - 1) + [Attempt(now, false, true)], now, 2 * (rounds - 1) + 1, AfterFailure(s, now), now);
    }
  }

  lemma FastestRun(rounds: nat) returns (end: Status)
    ensures Guessing(Fastest(rounds), Start(rounds), 2 * rounds + 3, end)
  {
    hide Guessing, Pairs, Streak, Seen;
    var now := Start(rounds);
    PairsRun(rounds);
    var last := if rounds == 0 then 0 else Start(rounds - 1);
    var s := if rounds == 0 then FRESH else Status(2, Some(last), None);
    var p, a := Pairs(rounds), Attempt(now, false, true);
    OneMoreGuess(p, last, 2 * rounds, s, now);
    OneMoreGuess(p + [a], now, 2 * rounds + 1, Status(1, Some(now), None), now);
    OneMoreGuess(p + [a] + [a], now, 2 * rounds + 2, Status(2, Some(now), None), now);
    end := AfterFailure(Status(2, Some(now), None), now);
  }

  /** For every number of rounds some success-free run meets the bound up to two clock ticks a round. */
  lemma GuessingBoundIsTight(rounds: nat)
    ensures Ordered(Fastest(rounds), 0) && NoSuccess(FRESH, Fastest(rounds))
    ensures Fastest(rounds)[|Fastest(rounds)| - 1].at == Start(rounds)
    ensures Windows(FailedGuesses(FRESH, Fastest(rounds)) - 3) == 2 * Start(rounds) - 2 * rounds
  {
    var end := FastestRun(rounds);
  }
}
