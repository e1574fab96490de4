/** What overlapping logins do to two bounds that hold for logins one after another: how often an account
    can be guessed at, and how often a backup code is accepted. Neither login locks the rows it reads. */
module OverlappingLogins {
  import opened Options
  import L = Lockout
  import B = BackupCodes

  // ---------------------------------------------------------------- guessing a password

  /** A login that has loaded the user row at a time when it was not locked. */
  datatype Loaded = Loaded(row: L.Status, at: int)

  /** The stored row, the logins that are open, and how many wrong passwords have been compared. */
  datatype Guessing = Guessing(row: L.Status, open: map<nat, Loaded>, compared: nat)

  /** Every password is wrong. `Save` compares it and stores the columns that differ from those loaded. */
  datatype Guess = Load(call: nat, at: int) | Save(call: nat)

  function Written(row: L.Status, loaded: Loaded): L.Status {
    var was, s := loaded.row, L.AfterFailure(loaded.row, loaded.at);
    L.Status(if s.failures == was.failures then row.failures else s.failures,
             if s.lastFailure == was.lastFailure then row.lastFailure else s.lastFailure,
             if s.lockedUntil == was.lockedUntil then row.lockedUntil else s.lockedUntil)
  }

  function Guessed(g: Guessing, m: Guess): Guessing {
    match m
    case Load(call, at) =>
      if call in g.open || L.Locked(g.row, at) then g else g.(open := g.open[call := Loaded(g.row, at)])
    case Save(call) =>
      if call !in g.open then g else Guessing(Written(g.row, g.open[call]), g.open - {call}, g.compared + 1)
  }

  function AllGuessed(g: Guessing, moves: seq<Guess>): Guessing
    decreases |moves|
  {
    if moves == [] then g else AllGuessed(Guessed(g, moves[0]), moves[1..])
  }

  /** Between a login's load and its save no other login has changed the row. */
  predicate AsLoaded(g: Guessing, moves: seq<Guess>)
    decreases |moves|
  {
    moves == []
    || ((moves[0].Save? && moves[0].call in g.open ==> g.open[moves[0].call].row == g.row)
        && AsLoaded(Guessed(g, moves[0]), moves[1..]))
  }

  /** The rows are loaded from `clock` to `end`, by a clock that never runs backwards. */
  predicate LoadedInOrder(moves: seq<Guess>, clock: int, end: int)
    decreases |moves|
  {
    if moves == [] then clock <= end
    else if moves[0].Load? then clock <= moves[0].at && LoadedInOrder(moves[1..], moves[0].at, end)
    else LoadedInOrder(moves[1..], clock, end)
  }

  ghost predicate LoadedOk(l: Loaded, start: int, clock: int) {
    start <= l.at <= clock && L.Invariant(l.row, l.at) && !L.Locked(l.row, l.at)
  }

  ghost predicate GuessingOk(g: Guessing, start: int, clock: int) {
    && start <= clock && L.Invariant(g.row, clock) && L.Paid(g.row, g.compared, start)
    && forall call :: call in g.open ==> LoadedOk(g.open[call], start, clock)
  }

  lemma SavedAsLoaded(l: Loaded, compared: nat, start: int, clock: int)
    requires LoadedOk(l, start, clock) && L.Paid(l.row, compared, start)
    ensures Written(l.row, l) == L.AfterFailure(l.row, l.at)
    ensures L.Invariant(Written(l.row, l), clock) && L.Paid(Written(l.row, l), compared + 1, start)
  {
    L.PaidAfterFailure(l.row, compared, start, l.at);
  }

  lemma {:induction false} BoundRun(g: Guessing, start: int, moves: seq<Guess>, clock: int, end: int)
    requires GuessingOk(g, start, clock) && AsLoaded(g, moves) && LoadedInOrder(moves, clock, end)
    ensures L.Windows(AllGuessed(g, moves).compared - 3) <= 2 * (end - start)
    decreases |moves|
  {
    hide L.AfterFailure, Written;
    if moves != [] {
      var m := moves[0];
      if m.Save? && m.call in g.open {
        SavedAsLoaded(g.open[m.call], g.compared, start, clock);
      }
      BoundRun(Guessed(g, m), start, moves[1..], if m.Load? then m.at else clock, end);
    }
  }

  /** The guessing bound survives every overlap in which each login finds the row as it loaded it. */
  lemma GuessingBoundIfAsLoaded(s: L.Status, start: int, moves: seq<Guess>, end: int)
    requires L.Invariant(s, start) && LoadedInOrder(moves, start, end)
    requires AsLoaded(Guessing(s, map[], 0), moves)
    ensures L.Windows(AllGuessed(Guessing(s, map[], 0), moves).compared - 3) <= 2 * (end - start)
  {
    BoundRun(Guessing(s, map[], 0), start, moves, start, end);
  }

  /** `n` logins load the row at the same moment, then each compares and saves. */
  function Loads(n: nat, from: nat): seq<Guess>
    decreases n
  {
    if n == 0 then [] else [Load(from, 0)] + Loads(n - 1, from + 1)
  }

  function Saves(n: nat, from: nat): seq<Guess>
    decreases n
  {
    if n == 0 then [] else [Save(from)] + Saves(n - 1, from + 1)
  }

  lemma {:induction false} AllGuessedConcat(g: Guessing, a: seq<Guess>, b: seq<Guess>)
    ensures AllGuessed(g, a + b) == AllGuessed(AllGuessed(g, a), b)
    decreases |a|
  {
    hide Guessed;
    if a == [] {
      assert a + b == b;
    } else {
      AllGuessedConcat(Guessed(g, a[0]), a[1..], b);
      assert (a + b)[1..] == a[1..] + b;
    }
  }

  lemma {:induction false} AllLoad(g: Guessing, n: nat, from: nat)
    requires g.row == L.FRESH && forall call :: call in g.open ==> call < from && g.open[call] == Loaded(L.FRESH, 0)
    ensures var g' := AllGuessed(g, Loads(n, from));
            && g'.row == L.FRESH && g'.compared == g.compared
            && forall call :: call in g'.open <==> call in g.open || from <= call < from + n
    ensures forall call :: call in AllGuessed(g, Loads(n, from)).open ==>
              AllGuessed(g, Loads(n, from)).open[call] == Loaded(L.FRESH, 0)
    decreases n
  {
    if n > 0 {
      AllLoad(Guessed(g, Load(from, 0)), n - 1, from + 1);
      assert Loads(n, from)[1..] == Loads(n - 1, from + 1);
    }
  }

  lemma {:induction false} AllSave(g: Guessing, n: nat, from: nat)
    requires g.row == L.FRESH || g.row == L.Status(1, Some(0), None)
    requires forall call :: from <= call < from + n ==> call in g.open && g.open[call] == Loaded(L.FRESH, 0)
    ensures AllGuessed(g, Saves(n, from)).compared == g.compared + n
    ensures n > 0 ==> AllGuessed(g, Saves(n, from)).row == L.Status(1, Some(0), None)
    ensures n == 0 ==> AllGuessed(g, Saves(n, from)) == g
    decreases n
  {
    if n > 0 {
      AllSave(Guessed(g, Save(from)), n - 1, from + 1);
      assert Saves(n, from)[1..] == Saves(n - 1, from + 1);
    }
  }

  /** Without that condition there is no bound: any number of logins that load the row together all have
      their password compared, in no time at all, and the row counts one failure and is not locked. */
  lemma GuessesAtOnce(n: nat)
    requires n > 0
    ensures var g := AllGuessed(Guessing(L.FRESH, map[], 0), Loads(n, 0) + Saves(n, 0));
            g.compared == n && g.row == L.Status(1, Some(0), None) && !L.Locked(g.row, 0)
  {
    hide AllGuessed, Loads, Saves;
    var none := Guessing(L.FRESH, map[], 0);
    AllGuessedConcat(none, Loads(n, 0), Saves(n, 0));
    AllLoad(none, n, 0);
    AllSave(AllGuessed(none, Loads(n, 0)), n, 0);
  }

  // ---------------------------------------------------------------- spending a backup code

  /** A login that has found an unused row, `at` a position among the user's rows, and has yet to mark it. */
  datatype Finding = Finding(at: nat, code: string)

  /** The rows of one user, and the user's logins that are open. */
  datatype Batch = Batch(rows: seq<B.Row>, open: map<nat, Finding>)

  /** `Find` runs a login up to the row it finds, `Spend` marks that row and accepts. `Issue` replaces the
      batch, by an empty one when MFA is disabled; a login that holds a row of the old one then fails. */
  datatype Move = Find(call: nat, code: string) | Spend(call: nat) | Issue(codes: seq<string>)

  function Moved(b: Batch, m: Move, user: B.UserId): Batch {
    match m
    case Find(call, code) =>
      var i := B.FirstOpening(b.rows, user, code);
      if call in b.open || i == |b.rows| then b else b.(open := b.open[call := Finding(i, code)])
    case Spend(call) =>
      if call !in b.open || b.open[call].at >= |b.rows| then b
      else
        var i := b.open[call].at;
        Batch(b.rows[i := b.rows[i].(used := true)], b.open - {call})
    case Issue(codes) => Batch(B.NewRows(user, codes), map[])
  }

  predicate Spends(b: Batch, m: Move) {
    m.Spend? && m.call in b.open && b.open[m.call].at < |b.rows|
  }

  /** What has been issued, and accepted since. */
  function Noted(b: Batch, m: Move, t: B.Tally): B.Tally {
    if Spends(b, m) then t.(accepted := t.accepted + multiset{b.open[m.call].code})
    else if m.Issue? then B.Tally(multiset(m.codes), multiset{})
    else t
  }

  /** The open logins that have been overtaken: another login has spent their row since they found it. */
  function Overtaken(b: Batch, m: Move, overtaken: set<nat>): set<nat> {
    if Spends(b, m) then
      (overtaken + set call | call in b.open && b.open[call].at == b.open[m.call].at) - {m.call}
    else if m.Issue? then {}
    else overtaken
  }

  predicate SpendsOvertaken(b: Batch, m: Move, overtaken: set<nat>) {
    Spends(b, m) && m.call in overtaken
  }

  /** No overtaken login goes on to spend its row. */
  predicate NoneSpendsOvertaken(b: Batch, overtaken: set<nat>, moves: seq<Move>, user: B.UserId)
    decreases |moves|
  {
    moves == []
    || (!SpendsOvertaken(b, moves[0], overtaken)
        && NoneSpendsOvertaken(Moved(b, moves[0], user), Overtaken(b, moves[0], overtaken), moves[1..], user))
  }

  /** All along, the used rows hold exactly the codes accepted. */
  predicate UsedIsAccepted(b: Batch, t: B.Tally, moves: seq<Move>, user: B.UserId)
    decreases |moves|
  {
    && B.CodesOf(b.rows, user, true) == t.accepted
    && (moves == [] || UsedIsAccepted(Moved(b, moves[0], user), Noted(b, moves[0], t), moves[1..], user))
  }

  /** All along, no code has been accepted more often than it was issued. */
  predicate WithinIssued(b: Batch, t: B.Tally, moves: seq<Move>, user: B.UserId)
    decreases |moves|
  {
    && t.accepted <= t.issued
    && (moves == [] || WithinIssued(Moved(b, moves[0], user), Noted(b, moves[0], t), moves[1..], user))
  }

  ghost predicate FindingOk(b: Batch, call: nat, user: B.UserId, overtaken: set<nat>)
    requires call in b.open
  {
    var f := b.open[call];
    f.at < |b.rows| && b.rows[f.at].user == user && b.rows[f.at].code == f.code
    && (b.rows[f.at].used <==> call in overtaken)
  }

  ghost predicate FindingsOk(b: Batch, user: B.UserId, overtaken: set<nat>) {
    && (forall call :: call in b.open ==> FindingOk(b, call, user, overtaken))
    && forall call :: call in overtaken ==> call in b.open
  }

  /** What holds however logins overlap. */
  ghost predicate BatchOk(b: Batch, t: B.Tally, user: B.UserId, overtaken: set<nat>) {
    && B.CodesOf(b.rows, user, false) + B.CodesOf(b.rows, user, true) == t.issued
    && B.CodesOf(b.rows, user, true) <= t.accepted
    && FindingsOk(b, user, overtaken)
  }

  /** Marking a row moves its code from the unused to the used ones, if it was unused. */
  lemma CodesMarked(rows: seq<B.Row>, i: nat, user: B.UserId)
    requires i < |rows| && rows[i].user == user
    ensures var rows' := rows[i := rows[i].(used := true)];
            var moved := if rows[i].used then multiset{} else multiset{rows[i].code};
            && B.CodesOf(rows', user, true) == B.CodesOf(rows, user, true) + moved
            && B.CodesOf(rows', user, false) + moved == B.CodesOf(rows, user, false)
  {
    hide B.CodesOf;
    var rows' := rows[i := rows[i].(used := true)];
    assert rows'[..i] == rows[..i] && rows'[i + 1..] == rows[i + 1..];
    B.CodesSplit(rows, i, user, true);
    B.CodesSplit(rows', i, user, true);
    B.CodesSplit(rows, i, user, false);
    B.CodesSplit(rows', i, user, false);
  }

  lemma FindingsKept(b: Batch, m: Move, user: B.UserId, overtaken: set<nat>)
    requires FindingsOk(b, user, overtaken)
    ensures FindingsOk(Moved(b, m, user), user, Overtaken(b, m, overtaken))
  {
    hide B.NewRows;
  }

  /** A move keeps used and accepted codes equal exactly if it spends no row that is used already. */
  lemma BatchKept(b: Batch, t: B.Tally, m: Move, user: B.UserId, overtaken: set<nat>)
    requires BatchOk(b, t, user, overtaken)
    ensures BatchOk(Moved(b, m, user), Noted(b, m, t), user, Overtaken(b, m, overtaken))
    ensures B.CodesOf(b.rows, user, true) == t.accepted ==>
              (B.CodesOf(Moved(b, m, user).rows, user, true) == Noted(b, m, t).accepted
               <==> !SpendsOvertaken(b, m, overtaken))
    ensures SpendsOvertaken(b, m, overtaken) ==>
              Noted(b, m, t).accepted[b.open[m.call].code] > t.accepted[b.open[m.call].code] > 0
  {
    hide B.CodesOf, B.NewRows, FindingsOk;
    FindingsKept(b, m, user, overtaken);
    match m
    case Find(_, _) =>
    case Spend(call) =>
      if Spends(b, m) {
        SpendKept(b, t, call, user, overtaken);
      }
    case Issue(codes) =>
      B.CodesNew(user, codes, user, true);
      B.CodesNew(user, codes, user, false);
  }

  lemma SpendKept(b: Batch, t: B.Tally, call: nat, user: B.UserId, overtaken: set<nat>)
    requires BatchOk(b, t, user, overtaken) && Spends(b, Spend(call))
    ensures var rows', code := Moved(b, Spend(call), user).rows, b.open[call].code;
            var used, accepted := B.CodesOf(rows', user, true), t.accepted + multiset{code};
            && B.CodesOf(rows', user, false) + used == t.issued && used <= accepted
            && (B.CodesOf(b.rows, user, true) == t.accepted ==> (used == accepted <==> call !in overtaken))
            && (call in overtaken ==> accepted[code] > t.accepted[code] > 0)
  {
    hide B.CodesOf;
    var i, code := b.open[call].at, b.open[call].code;
    assert FindingOk(b, call, user, overtaken);
    CodesMarked(b.rows, i, user);
    B.CodesSplit(b.rows, i, user, true);
    assert (t.accepted + multiset{code})[code] == t.accepted[code] + 1;
    var moved := if b.rows[i].used then multiset{} else multiset{code};
    Moving(B.CodesOf(b.rows, user, false), B.CodesOf(Moved(b, Spend(call), user).rows, user, false), moved,
           B.CodesOf(b.rows, user, true));
  }

  lemma Moving(unused: multiset<string>, left: multiset<string>, moved: multiset<string>, used: multiset<string>)
    requires left + moved == unused
    ensures left + (used + moved) == unused + used
  {
  }

  lemma {:induction false} UsedIsAcceptedRun(b: Batch, t: B.Tally, moves: seq<Move>, user: B.UserId, overtaken: set<nat>)
    requires BatchOk(b, t, user, overtaken) && B.CodesOf(b.rows, user, true) == t.accepted
    ensures UsedIsAccepted(b, t, moves, user) <==> NoneSpendsOvertaken(b, overtaken, moves, user)
    decreases |moves|
  {
    hide B.CodesOf, Moved, Noted, SpendsOvertaken, Overtaken, BatchOk;
    if moves != [] {
      BatchKept(b, t, moves[0], user, overtaken);
      if !SpendsOvertaken(b, moves[0], overtaken) {
        UsedIsAcceptedRun(Moved(b, moves[0], user), Noted(b, moves[0], t), moves[1..], user,
                          Overtaken(b, moves[0], overtaken));
      }
    }
  }

  const NO_BATCH := Batch([], map[])

  /** However logins overlap, every accepted code has a row of its own all along exactly if no login
      spends a row that another has spent since the login found it. */
  lemma OneRowPerAcceptedExactly(moves: seq<Move>, user: B.UserId)
    ensures UsedIsAccepted(NO_BATCH, B.NOTHING, moves, user) <==> NoneSpendsOvertaken(NO_BATCH, {}, moves, user)
  {
    UsedIsAcceptedRun(NO_BATCH, B.NOTHING, moves, user, {});
  }

  /** The codes of a batch differ from each other. */
  ghost predicate NoCodeTwice(codes: multiset<string>) {
    forall code :: codes[code] <= 1
  }

  ghost predicate BatchesDiffer(moves: seq<Move>) {
    forall i :: 0 <= i < |moves| && moves[i].Issue? ==> NoCodeTwice(multiset(moves[i].codes))
  }

  lemma WithinNow(b: Batch, t: B.Tally, user: B.UserId, overtaken: set<nat>)
    requires BatchOk(b, t, user, overtaken) && B.CodesOf(b.rows, user, true) == t.accepted
    ensures t.accepted <= t.issued
  {
    hide B.CodesOf;
  }

  lemma {:induction false} WithinIssuedRun(b: Batch, t: B.Tally, moves: seq<Move>, user: B.UserId, overtaken: set<nat>)
    requires BatchOk(b, t, user, overtaken) && B.CodesOf(b.rows, user, true) == t.accepted
    requires NoCodeTwice(t.issued) && BatchesDiffer(moves)
    ensures WithinIssued(b, t, moves, user) <==> NoneSpendsOvertaken(b, overtaken, moves, user)
    decreases |moves|
  {
    hide B.CodesOf, Moved, Overtaken, BatchOk;
    WithinNow(b, t, user, overtaken);
    if moves != [] {
      var m := moves[0];
      BatchKept(b, t, m, user, overtaken);
      if !SpendsOvertaken(b, m, overtaken) {
        WithinIssuedRun(Moved(b, m, user), Noted(b, m, t), moves[1..], user, Overtaken(b, m, overtaken));
      }
    }
  }

  /** Where the codes of a batch differ, that is also exactly when no code is ever accepted more often
      than the last batch contains it. */
  lemma AcceptedWithinIssuedExactly(moves: seq<Move>, user: B.UserId)
    requires BatchesDiffer(moves)
    ensures WithinIssued(NO_BATCH, B.NOTHING, moves, user) <==> NoneSpendsOvertaken(NO_BATCH, {}, moves, user)
  {
    WithinIssuedRun(NO_BATCH, B.NOTHING, moves, user, {});
  }

  /** Two logins that both find the row of a code before either marks it. */
  function FoundTwice(user: B.UserId, code: string): Batch {
    Moved(Moved(Moved(NO_BATCH, Issue([code]), user), Find(1, code), user), Find(2, code), user)
  }

  function SpentTwice(user: B.UserId, code: string): B.Tally {
    var found := FoundTwice(user, code);
    Noted(Moved(found, Spend(1), user), Spend(2), Noted(found, Spend(1), Noted(NO_BATCH, Issue([code]), B.NOTHING)))
  }

  /** One code, issued once and accepted twice. */
  lemma AcceptedTwice(user: B.UserId, code: string)
    ensures SpentTwice(user, code).issued[code] == 1 && SpentTwice(user, code).accepted[code] == 2
  {
  }
}
