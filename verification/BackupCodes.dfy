/** Multi-factor enrolment and the batches of one-time backup codes. Hashing is ideal: a code verifies
    against the hash of itself only. Whether a code is a live TOTP value is an input. */
module BackupCodes {
  import opened Options

  type UserId = nat

  datatype Account = Account(enabled: bool, secret: Option<string>)

  datatype Row = Row(user: UserId, code: string, used: bool)

  datatype Result =
    | Done
    | BackupCodes(codes: seq<string>)
    | AlreadyEnrolled
    | NotStarted
    | NotEnrolled
    | InvalidCode

  // ---------------------------------------------------------------- the code table as a value

  function WithoutUser(rows: seq<Row>, user: UserId): seq<Row> {
    if rows == [] then []
    else (if rows[0].user == user then [] else [rows[0]]) + WithoutUser(rows[1..], user)
  }

  function NewRows(user: UserId, codes: seq<string>): seq<Row> {
    if codes == [] then [] else [Row(user, codes[0], false)] + NewRows(user, codes[1..])
  }

  function Reissued(rows: seq<Row>, user: UserId, codes: seq<string>): seq<Row> {
    WithoutUser(rows, user) + NewRows(user, codes)
  }

  predicate Opens(row: Row, user: UserId, code: string) {
    row.user == user && !row.used && row.code == code
  }

  /** The position of the first unused row of the user that holds the code; the end if there is none. */
  function FirstOpening(rows: seq<Row>, user: UserId, code: string): (i: nat)
    ensures i <= |rows| && (i < |rows| ==> Opens(rows[i], user, code))
    ensures forall j :: 0 <= j < i ==> !Opens(rows[j], user, code)
  {
    if rows == [] || Opens(rows[0], user, code) then 0 else 1 + FirstOpening(rows[1..], user, code)
  }

  function Spent(rows: seq<Row>, user: UserId, code: string): seq<Row> {
    var i := FirstOpening(rows, user, code);
    if i == |rows| then rows else rows[i := rows[i].(used := true)]
  }

  // ---------------------------------------------------------------- the service, row by row

  class User {
    const id: UserId
    var mfaEnabled: bool
    var mfaSecret: Option<string>

    constructor (id: UserId)
      ensures this.id == id && Current() == Account(false, None)
    {
      this.id := id;
      mfaEnabled, mfaSecret := false, None;
    }

    function Current(): Account
      reads this
    {
      Account(mfaEnabled, mfaSecret)
    }
  }

  class MFABackupCode {
    const userId: UserId
    const code: string
    var used: bool

    constructor (userId: UserId, code: string)
      ensures Current() == Row(userId, code, false)
    {
      this.userId, this.code := userId, code;
      used := false;
    }

    function Current(): Row
      reads this
    {
      Row(userId, code, used)
    }
  }

  function RowsOf(codes: seq<MFABackupCode>): seq<Row>
    reads codes
  {
    if codes == [] then [] else [codes[0].Current()] + RowsOf(codes[1..])
  }

  lemma {:induction false} RowsAt(codes: seq<MFABackupCode>)
    ensures |RowsOf(codes)| == |codes| && forall i :: 0 <= i < |codes| ==> RowsOf(codes)[i] == codes[i].Current()
  {
    if codes != [] {
      RowsAt(codes[1..]);
    }
  }

  lemma RowsConcat(a: seq<MFABackupCode>, b: seq<MFABackupCode>)
    ensures RowsOf(a + b) == RowsOf(a) + RowsOf(b)
  {
    hide RowsOf;
    RowsAt(a);
    RowsAt(b);
    RowsAt(a + b);
  }

  predicate AllDistinct(codes: seq<MFABackupCode>) {
    forall i, j :: 0 <= i < j < |codes| ==> codes[i] != codes[j]
  }

  lemma DistinctConcat(a: seq<MFABackupCode>, b: seq<MFABackupCode>)
    requires AllDistinct(a) && AllDistinct(b) && forall c :: c in b ==> c !in a
    ensures AllDistinct(a + b)
  {
    forall i, j | 0 <= i < j < |a + b| ensures (a + b)[i] != (a + b)[j] {
      if i < |a| <= j {
        assert b[j - |a|] in b;
      }
    }
  }

  /** The codes are what the random source handed out. */
  predicate Drawn(codes: seq<string>, count: nat, draw: nat -> string) {
    |codes| == count && forall i :: 0 <= i < count ==> codes[i] == draw(i)
  }

  class MfaService {
    var codes: seq<MFABackupCode>

    ghost predicate Valid()
      reads this
    {
      AllDistinct(codes)
    }

    constructor ()
      ensures Valid() && RowsOf(codes) == []
    {
      codes := [];
    }

    /** The pending secret is overwritten by every further call until enrolment is confirmed. */
    method StartEnrollment(user: User, rawSecret: string) returns (result: Result)
      modifies user
      ensures result == if old(user.mfaEnabled) then AlreadyEnrolled else Done
      ensures user.Current() == if old(user.mfaEnabled) then old(user.Current()) else Account(false, Some(rawSecret))
    {
      if user.mfaEnabled {
        return AlreadyEnrolled;
      }
      user.mfaSecret := Some(rawSecret);
      result := Done;
    }

    method DeleteCodes(user: UserId)
      requires Valid()
      modifies this
      ensures Valid() && RowsOf(codes) == WithoutUser(old(RowsOf(codes)), user)
      ensures forall c :: c in codes ==> c in old(codes)
    {
      hide RowsOf, WithoutUser;
      var kept: seq<MFABackupCode> := [];
      NoRows(user);
      for k := 0 to |codes|
        invariant codes == old(codes) && AllDistinct(kept)
        invariant forall c :: c in kept ==> exists j :: 0 <= j < k && codes[j] == c
        invariant RowsOf(kept) == WithoutUser(RowsOf(codes[..k]), user)
      {
        assert codes[..k + 1] == codes[..k] + [codes[k]];
        RowsConcat(codes[..k], [codes[k]]);
        RowsAt([codes[k]]);
        assert RowsOf([codes[k]]) == [codes[k].Current()];
        WithoutUserAppend(RowsOf(codes[..k]), codes[k].Current(), user);
        if codes[k].userId != user {
          RowsConcat(kept, [codes[k]]);
          assert codes[k] !in kept;
          DistinctConcat(kept, [codes[k]]);
          kept := kept + [codes[k]];
        }
      }
      assert codes[..|codes|] == codes;
      codes := kept;
    }

    /** `count` fresh codes replace all codes of the user; `draw` is the random source. */
    method Regenerate(user: UserId, count: nat, draw: nat -> string) returns (plaintext: seq<string>)
      requires Valid()
      modifies this
      ensures Valid() && Drawn(plaintext, count, draw)
      ensures RowsOf(codes) == Reissued(old(RowsOf(codes)), user, plaintext)
      ensures forall c :: c in codes ==> c in old(codes) || fresh(c)
    {
      hide RowsOf, WithoutUser, NewRows;
      DeleteCodes(user);
      plaintext := [];
      var rows: seq<MFABackupCode> := [];
      ghost var left := codes;
      NoRows(user);
      for k := 0 to count
        invariant codes == left && Drawn(plaintext, k, draw)
        invariant AllDistinct(rows) && forall c :: c in rows ==> fresh(c) && c !in left
        invariant RowsOf(rows) == NewRows(user, plaintext)
        invariant RowsOf(left) == WithoutUser(old(RowsOf(codes)), user)
      {
        var code := draw(k);
        plaintext := plaintext + [code];
        var row := new MFABackupCode(user, code);
        RowsConcat(rows, [row]);
        RowsAt([row]);
        assert RowsOf([row]) == [row.Current()];
        NewRowsAppend(user, plaintext[..k], code);
        assert plaintext == plaintext[..k] + [code];
        DistinctConcat(rows, [row]);
        rows := rows + [row];
      }
      RowsConcat(codes, rows);
      DistinctConcat(codes, rows);
      codes := codes + rows;
    }

    /** `live`: the code is a live TOTP value of the stored secret. Whether enrolment is confirmed
        already is not asked. */
    method ConfirmEnrollment(user: User, live: bool, count: nat, draw: nat -> string) returns (result: Result)
      requires Valid()
      modifies this, user
      ensures Valid()
      ensures old(user.mfaSecret).None? ==> result == NotStarted
      ensures old(user.mfaSecret).Some? && !live ==> result == InvalidCode
      ensures result.BackupCodes? <==> old(user.mfaSecret).Some? && live
      ensures !result.BackupCodes? ==> user.Current() == old(user.Current()) && codes == old(codes)
      ensures result.BackupCodes? ==>
                && user.Current() == Account(true, old(user.mfaSecret))
                && Drawn(result.codes, count, draw)
                && RowsOf(codes) == Reissued(old(RowsOf(codes)), user.id, result.codes)
    {
      if user.mfaSecret.None? {
        return NotStarted;
      }
      if !live {
        return InvalidCode;
      }
      user.mfaEnabled := true;
      var plaintext := Regenerate(user.id, count, draw);
      result := BackupCodes(plaintext);
    }

    method DisableMfa(user: User)
      requires Valid()
      modifies this, user
      ensures Valid() && user.Current() == Account(false, None)
      ensures RowsOf(codes) == WithoutUser(old(RowsOf(codes)), user.id)
    {
      user.mfaEnabled := false;
      user.mfaSecret := None;
      DeleteCodes(user.id);
    }

    method RegenerateBackupCodes(user: User, count: nat, draw: nat -> string) returns (result: Result)
      requires Valid()
      modifies this
      ensures Valid() && if user.mfaEnabled then result.BackupCodes? else result == NotEnrolled
      ensures !user.mfaEnabled ==> codes == old(codes)
      ensures user.mfaEnabled ==>
                Drawn(result.codes, count, draw) && RowsOf(codes) == Reissued(old(RowsOf(codes)), user.id, result.codes)
    {
      if !user.mfaEnabled {
        return NotEnrolled;
      }
      var plaintext := Regenerate(user.id, count, draw);
      result := BackupCodes(plaintext);
    }

    /** A live TOTP value passes without touching a row; otherwise the first unused row that holds the
        code is used up. */
    method VerifyLoginCode(user: User, code: string, live: bool) returns (result: Result)
      requires Valid()
      modifies codes
      ensures user.mfaEnabled && user.mfaSecret.Some? && !live ==>
                && RowsOf(codes) == Spent(old(RowsOf(codes)), user.id, code)
                && result == if exists row :: row in old(RowsOf(codes)) && Opens(row, user.id, code) then Done else InvalidCode
      ensures !(user.mfaEnabled && user.mfaSecret.Some?) ==> result == NotEnrolled && RowsOf(codes) == old(RowsOf(codes))
      ensures user.mfaEnabled && user.mfaSecret.Some? && live ==> result == Done && RowsOf(codes) == old(RowsOf(codes))
    {
      hide RowsOf;
      if !user.mfaEnabled || user.mfaSecret.None? {
        return NotEnrolled;
      }
      if live {
        return Done;
      }
      ghost var before := RowsOf(codes);
      RowsAt(codes);
      for k := 0 to |codes|
        invariant RowsOf(codes) == before
        invariant forall j :: 0 <= j < k ==> !Opens(before[j], user.id, code)
      {
        if codes[k].userId == user.id && !codes[k].used && codes[k].code == code {
          assert FirstOpening(before, user.id, code) == k;
          codes[k].used := true;
          RowsAt(codes);
          assert RowsOf(codes) == before[k := before[k].(used := true)];
          assert before[k] in before;
          return Done;
        }
      }
      assert FirstOpening(before, user.id, code) == |before|;
      result := InvalidCode;
    }
  }

  lemma NoRows(user: UserId)
    ensures RowsOf([]) == [] && WithoutUser([], user) == [] && NewRows(user, []) == []
  {
  }

  lemma {:induction false} WithoutUserAppend(rows: seq<Row>, row: Row, user: UserId)
    ensures WithoutUser(rows + [row], user) == WithoutUser(rows, user) + if row.user == user then [] else [row]
  {
    if rows == [] {
      assert [] + [row] == [row] && [row][1..] == [];
    } else {
      WithoutUserAppend(rows[1..], row, user);
      assert (rows + [row])[1..] == rows[1..] + [row];
    }
  }

  lemma {:induction false} NewRowsAppend(user: UserId, codes: seq<string>, code: string)
    ensures NewRows(user, codes + [code]) == NewRows(user, codes) + [Row(user, code, false)]
  {
    if codes == [] {
      assert [] + [code] == [code] && [code][1..] == [];
    } else {
      NewRowsAppend(user, codes[1..], code);
      assert (codes + [code])[1..] == codes[1..] + [code];
    }
  }

  // ---------------------------------------------------------------- runs over all users

  datatype State = State(accounts: map<UserId, Account>, rows: seq<Row>)

  const START := State(map[], [])

  /** The result of the enclosing request is part of the event only where the request draws codes. */
  datatype Op =
    | Start(user: UserId, secret: string)
    | Confirm(user: UserId, live: bool, codes: seq<string>)
    | Disable(user: UserId)
    | RegenerateCodes(user: UserId, codes: seq<string>)
    | Login(user: UserId, code: string, live: bool)

  function AccountOf(s: State, user: UserId): Account {
    if user in s.accounts then s.accounts[user] else Account(false, None)
  }

  function ResultOf(s: State, op: Op): Result {
    var a := AccountOf(s, op.user);
    match op
    case Start(_, _) => if a.enabled then AlreadyEnrolled else Done
    case Confirm(_, live, codes) => if a.secret.None? then NotStarted else if !live then InvalidCode else BackupCodes(codes)
    case Disable(_) => Done
    case RegenerateCodes(_, codes) => if a.enabled then BackupCodes(codes) else NotEnrolled
    case Login(user, code, live) =>
      if !a.enabled || a.secret.None? then NotEnrolled
      else if live || FirstOpening(s.rows, user, code) < |s.rows| then Done
      else InvalidCode
  }

  function Apply(s: State, op: Op): State {
    var u := op.user;
    var a := AccountOf(s, u);
    var result := ResultOf(s, op);
    match op
    case Start(_, secret) => if result.Done? then s.(accounts := s.accounts[u := Account(false, Some(secret))]) else s
    case Confirm(_, _, codes) =>
      if result.BackupCodes? then State(s.accounts[u := Account(true, a.secret)], Reissued(s.rows, u, codes)) else s
    case Disable(_) => State(s.accounts[u := Account(false, None)], WithoutUser(s.rows, u))
    case RegenerateCodes(_, codes) => if result.BackupCodes? then s.(rows := Reissued(s.rows, u, codes)) else s
    case Login(_, code, live) => if result.Done? && !live then s.(rows := Spent(s.rows, u, code)) else s
  }

  function After(s: State, ops: seq<Op>): State
    decreases |ops|
  {
    if ops == [] then s else After(Apply(s, ops[0]), ops[1..])
  }

  /** From this start of an enrolment on, MFA has not been disabled. */
  ghost predicate Lasting(ops: seq<Op>, start: nat, user: UserId) {
    && start < |ops| && ops[start].Start? && ops[start].user == user
    && forall j :: start < j < |ops| ==> ops[j] != Disable(user)
  }

  ghost predicate Enrolling(ops: seq<Op>, user: UserId) {
    exists start: nat :: Lasting(ops, start, user)
  }

  /** An enrolment that lasts has been confirmed with a live code. */
  ghost predicate Confirmed(ops: seq<Op>, user: UserId) {
    exists start: nat, i: nat :: Lasting(ops, start, user) && ConfirmsAt(ops, i, user) && start < i
  }

  predicate ConfirmsAt(ops: seq<Op>, i: nat, user: UserId) {
    i < |ops| && ops[i].Confirm? && ops[i].user == user && ops[i].live
  }

  lemma {:induction false} AfterAppend(s: State, ops: seq<Op>, op: Op)
    ensures After(s, ops + [op]) == Apply(After(s, ops), op)
    decreases |ops|
  {
    hide Apply;
    if ops == [] {
      assert [] + [op] == [op] && [op][1..] == [];
    } else {
      AfterAppend(Apply(s, ops[0]), ops[1..], op);
      assert (ops + [op])[1..] == ops[1..] + [op];
    }
  }

  lemma LastingAppend(ops: seq<Op>, op: Op, start: nat, user: UserId)
    ensures Lasting(ops + [op], start, user) <==>
            if start == |ops| then op.Start? && op.user == user else Lasting(ops, start, user) && op != Disable(user)
  {
    assert forall j :: 0 <= j < |ops| ==> (ops + [op])[j] == ops[j];
    assert (ops + [op])[|ops|] == op;
  }

  lemma EnrolledAppend(ops: seq<Op>, op: Op, user: UserId)
    ensures Enrolling(ops + [op], user) <==> (op.Start? && op.user == user) || (Enrolling(ops, user) && op != Disable(user))
    ensures Confirmed(ops + [op], user) <==>
            || (Confirmed(ops, user) && op != Disable(user))
            || (Enrolling(ops, user) && op.Confirm? && op.user == user && op.live)
  {
    hide Lasting;
    var ops' := ops + [op];
    forall i: nat ensures ConfirmsAt(ops', i, user) <==>
                          if i == |ops| then op.Confirm? && op.user == user && op.live else ConfirmsAt(ops, i, user)
    {
    }
    forall start: nat ensures Lasting(ops', start, user) <==>
                              if start == |ops| then op.Start? && op.user == user
                              else Lasting(ops, start, user) && op != Disable(user)
    {
      LastingAppend(ops, op, start, user);
    }
    forall start: nat ensures Lasting(ops, start, user) ==> start < |ops| {
      if Lasting(ops, start, user) {
        LastingBound(ops, start, user);
      }
    }
    if Enrolling(ops, user) && op != Disable(user) {
      var start: nat :| Lasting(ops, start, user);
      assert Lasting(ops', start, user);
      assert op.Confirm? && op.user == user && op.live ==> ConfirmsAt(ops', |ops|, user);
    }
    if op.Start? && op.user == user {
      assert Lasting(ops', |ops|, user);
    }
    if Confirmed(ops, user) && op != Disable(user) {
      var start: nat, i: nat :| Lasting(ops, start, user) && ConfirmsAt(ops, i, user) && start < i;
      assert Lasting(ops', start, user) && ConfirmsAt(ops', i, user);
    }
  }

  lemma LastingBound(ops: seq<Op>, start: nat, user: UserId)
    requires Lasting(ops, start, user)
    ensures start < |ops|
  {
  }

  /** Over every run, read off the requests alone: a user has a secret exactly if an enrolment was started
      and MFA not disabled since, and MFA is on exactly if a live code has confirmed it since. */
  lemma {:induction false} EnabledExactly(ops: seq<Op>, user: UserId)
    ensures AccountOf(After(START, ops), user).secret.Some? <==> Enrolling(ops, user)
    ensures AccountOf(After(START, ops), user).enabled <==> Confirmed(ops, user)
  {
    hide After, Enrolling, Confirmed, Apply, AccountOf;
    if ops == [] {
      NobodyEnrolled(user);
    } else {
      var before, last := ops[..|ops| - 1], ops[|ops| - 1];
      assert ops == before + [last];
      EnabledExactly(before, user);
      AfterAppend(START, before, last);
      EnrolledAppend(before, last, user);
      ConfirmedEnrols(before, user);
      AccountMoves(After(START, before), last, user);
    }
  }

  lemma ConfirmedEnrols(ops: seq<Op>, user: UserId)
    ensures Confirmed(ops, user) ==> Enrolling(ops, user)
  {
    hide Lasting;
  }

  lemma NobodyEnrolled(user: UserId)
    ensures !Enrolling([], user) && !Confirmed([], user) && AccountOf(After(START, []), user) == Account(false, None)
  {
  }

  lemma AccountMoves(s: State, op: Op, user: UserId)
    requires AccountOf(s, user).enabled ==> AccountOf(s, user).secret.Some?
    ensures var a, a' := AccountOf(s, user), AccountOf(Apply(s, op), user);
            && (a'.secret.Some? <==> (op.Start? && op.user == user) || (a.secret.Some? && op != Disable(user)))
            && (a'.enabled <==> || (a.enabled && op != Disable(user))
                                || (a.secret.Some? && op.Confirm? && op.user == user && op.live))
  {
    hide FirstOpening, Reissued, Spent, WithoutUser;
  }

  /** What one user has been given and has used, read off the requests alone: the codes of the last
      batch, and the backup-code logins accepted since. */
  datatype Tally = Tally(issued: multiset<string>, accepted: multiset<string>)

  const NOTHING := Tally(multiset{}, multiset{})

  function Noted(s: State, op: Op, user: UserId, t: Tally): Tally {
    if op.user != user then t
    else if op.Disable? then NOTHING
    else if ResultOf(s, op).BackupCodes? then Tally(multiset(ResultOf(s, op).codes), multiset{})
    else if op.Login? && !op.live && ResultOf(s, op).Done? then t.(accepted := t.accepted + multiset{op.code})
    else t
  }

  function TallyOf(s: State, ops: seq<Op>, user: UserId, t: Tally): Tally
    decreases |ops|
  {
    if ops == [] then t else TallyOf(Apply(s, ops[0]), ops[1..], user, Noted(s, ops[0], user, t))
  }

  /** The codes in a user's used, or unused, rows, with multiplicity. */
  function CodesOf(rows: seq<Row>, user: UserId, used: bool): multiset<string> {
    if rows == [] then multiset{} else One(rows[0], user, used) + CodesOf(rows[1..], user, used)
  }

  function One(row: Row, user: UserId, used: bool): multiset<string> {
    if row.user == user && row.used == used then multiset{row.code} else multiset{}
  }

  function RowCount(rows: seq<Row>, user: UserId): nat {
    if rows == [] then 0 else (if rows[0].user == user then 1 else 0) + RowCount(rows[1..], user)
  }

  lemma {:induction false} CodesConcat(a: seq<Row>, b: seq<Row>, user: UserId, used: bool)
    ensures CodesOf(a + b, user, used) == CodesOf(a, user, used) + CodesOf(b, user, used)
  {
    hide One;
    if a == [] {
      assert a + b == b;
    } else {
      CodesConcat(a[1..], b, user, used);
      assert (a + b)[1..] == a[1..] + b;
    }
  }

  lemma {:induction false} CodesWithout(rows: seq<Row>, gone: UserId, user: UserId, used: bool)
    ensures CodesOf(WithoutUser(rows, gone), user, used) == if user == gone then multiset{} else CodesOf(rows, user, used)
  {
    if rows != [] {
      CodesWithout(rows[1..], gone, user, used);
      if rows[0].user == gone {
        assert [] + WithoutUser(rows[1..], gone) == WithoutUser(rows[1..], gone);
      } else {
        assert WithoutUser(rows, gone)[1..] == WithoutUser(rows[1..], gone);
      }
    }
  }

  lemma {:induction false} CodesNew(owner: UserId, codes: seq<string>, user: UserId, used: bool)
    ensures CodesOf(NewRows(owner, codes), user, used) == if user == owner && !used then multiset(codes) else multiset{}
  {
    if codes != [] {
      CodesNew(owner, codes[1..], user, used);
      assert NewRows(owner, codes)[1..] == NewRows(owner, codes[1..]);
      assert codes == [codes[0]] + codes[1..];
    }
  }

  lemma CodesReissued(rows: seq<Row>, owner: UserId, codes: seq<string>, user: UserId, used: bool)
    ensures CodesOf(Reissued(rows, owner, codes), user, used)
         == if user != owner then CodesOf(rows, user, used) else if used then multiset{} else multiset(codes)
  {
    hide CodesOf, WithoutUser, NewRows;
    CodesConcat(WithoutUser(rows, owner), NewRows(owner, codes), user, used);
    CodesWithout(rows, owner, user, used);
    CodesNew(owner, codes, user, used);
  }

  lemma CodesSplit(rows: seq<Row>, i: nat, user: UserId, used: bool)
    requires i < |rows|
    ensures CodesOf(rows, user, used)
         == CodesOf(rows[..i], user, used)
            + One(rows[i], user, used)
            + CodesOf(rows[i + 1..], user, used)
  {
    assert rows == rows[..i] + rows[i..];
    CodesConcat(rows[..i], rows[i..], user, used);
    assert rows[i..][1..] == rows[i + 1..];
  }

  /** Using up a code moves one occurrence of it from the unused to the used rows of its owner. */
  lemma CodesSpent(rows: seq<Row>, owner: UserId, code: string, user: UserId)
    requires FirstOpening(rows, owner, code) < |rows|
    ensures CodesOf(Spent(rows, owner, code), user, true)
         == CodesOf(rows, user, true) + if user == owner then multiset{code} else multiset{}
    ensures CodesOf(Spent(rows, owner, code), user, false) + (if user == owner then multiset{code} else multiset{})
         == CodesOf(rows, user, false)
  {
    hide CodesOf;
    var i := FirstOpening(rows, owner, code);
    var spent := Spent(rows, owner, code);
    assert spent[..i] == rows[..i] && spent[i + 1..] == rows[i + 1..];
    CodesSplit(rows, i, user, true);
    CodesSplit(spent, i, user, true);
    CodesSplit(rows, i, user, false);
    CodesSplit(spent, i, user, false);
  }

  lemma {:induction false} OpeningIffUnused(rows: seq<Row>, user: UserId, code: string)
    ensures FirstOpening(rows, user, code) < |rows| <==> CodesOf(rows, user, false)[code] > 0
  {
    if rows != [] && !Opens(rows[0], user, code) {
      OpeningIffUnused(rows[1..], user, code);
    }
  }

  lemma {:induction false} CountIsCodes(rows: seq<Row>, user: UserId)
    ensures RowCount(rows, user) == |CodesOf(rows, user, true)| + |CodesOf(rows, user, false)|
  {
    if rows != [] {
      CountIsCodes(rows[1..], user);
    }
  }

  /** The rows of a user and the tally of the user's requests agree. */
  ghost predicate Conserved(s: State, user: UserId, t: Tally) {
    && CodesOf(s.rows, user, true) == t.accepted
    && CodesOf(s.rows, user, false) + t.accepted == t.issued
    && (AccountOf(s, user).enabled ==> AccountOf(s, user).secret.Some?)
    && (!AccountOf(s, user).enabled ==> t.issued == multiset{})
  }

  /** What a step does to the used and unused codes of one user. */
  lemma CodesStep(s: State, op: Op, user: UserId)
    ensures var s' := Apply(s, op);
            var result := ResultOf(s, op);
            if op.user != user then
              && CodesOf(s'.rows, user, true) == CodesOf(s.rows, user, true)
              && CodesOf(s'.rows, user, false) == CodesOf(s.rows, user, false)
            else if op.Disable? then CodesOf(s'.rows, user, true) == multiset{} && CodesOf(s'.rows, user, false) == multiset{}
            else if result.BackupCodes? then
              CodesOf(s'.rows, user, true) == multiset{} && CodesOf(s'.rows, user, false) == multiset(result.codes)
            else if op.Login? && !op.live && result.Done? then
              && CodesOf(s'.rows, user, true) == CodesOf(s.rows, user, true) + multiset{op.code}
              && CodesOf(s'.rows, user, false) + multiset{op.code} == CodesOf(s.rows, user, false)
            else s'.rows == s.rows
  {
    hide CodesOf, WithoutUser, Reissued, Spent, FirstOpening, AccountOf;
    match op
    case Start(_, _) =>
    case Confirm(u, _, codes) =>
      CodesReissued(s.rows, u, codes, user, true);
      CodesReissued(s.rows, u, codes, user, false);
    case Disable(u) =>
      CodesWithout(s.rows, u, user, true);
      CodesWithout(s.rows, u, user, false);
    case RegenerateCodes(u, codes) =>
      CodesReissued(s.rows, u, codes, user, true);
      CodesReissued(s.rows, u, codes, user, false);
    case Login(u, code, live) =>
      if ResultOf(s, op).Done? && !live {
        CodesSpent(s.rows, u, code, user);
      }
  }

  lemma AccountStep(s: State, op: Op, user: UserId)
    requires AccountOf(s, user).enabled ==> AccountOf(s, user).secret.Some?
    ensures AccountOf(Apply(s, op), user).enabled ==> AccountOf(Apply(s, op), user).secret.Some?
    ensures AccountOf(Apply(s, op), user).enabled ==
            if op.user == user && op.Disable? then false
            else AccountOf(s, user).enabled || (op.user == user && op.Confirm? && ResultOf(s, op).BackupCodes?)
    ensures op.user == user && (ResultOf(s, op).BackupCodes? || (op.Login? && ResultOf(s, op).Done?)) ==>
              AccountOf(Apply(s, op), user).enabled
  {
    hide FirstOpening, Reissued, Spent, WithoutUser;
  }

  lemma Moved(unused: multiset<string>, left: multiset<string>, accepted: multiset<string>, code: string)
    requires left + multiset{code} == unused
    ensures left + (accepted + multiset{code}) == unused + accepted
  {
  }

  lemma ConservedStep(s: State, op: Op, user: UserId, t: Tally)
    requires Conserved(s, user, t)
    ensures Conserved(Apply(s, op), user, Noted(s, op, user, t))
  {
    hide CodesOf, Apply, ResultOf, AccountOf;
    CodesStep(s, op, user);
    AccountStep(s, op, user);
    if op.user == user && op.Login? && !op.live && ResultOf(s, op).Done? {
      Moved(CodesOf(s.rows, user, false), CodesOf(Apply(s, op).rows, user, false), t.accepted, op.code);
    }
  }

  lemma {:induction false} ConservedRun(s: State, ops: seq<Op>, user: UserId, t: Tally)
    requires Conserved(s, user, t)
    ensures Conserved(After(s, ops), user, TallyOf(s, ops, user, t))
    decreases |ops|
  {
    hide Conserved, Apply, Noted;
    if ops != [] {
      ConservedStep(s, ops[0], user, t);
      ConservedRun(Apply(s, ops[0]), ops[1..], user, Noted(s, ops[0], user, t));
    }
  }

  lemma NothingConserved(user: UserId)
    ensures Conserved(START, user, NOTHING)
  {
  }

  predicate HasBatch(op: Op, size: nat) {
    op.Confirm? || op.RegenerateCodes? ==> |op.codes| == size
  }

  /** All requests that draw codes draw `size` of them, as one configuration makes them. */
  predicate BatchSize(ops: seq<Op>, size: nat) {
    forall i :: 0 <= i < |ops| ==> HasBatch(ops[i], size)
  }

  lemma FullBatchStep(s: State, op: Op, user: UserId, t: Tally, size: nat)
    requires Conserved(s, user, t) && HasBatch(op, size)
    requires AccountOf(s, user).enabled ==> |t.issued| == size
    ensures AccountOf(Apply(s, op), user).enabled ==> |Noted(s, op, user, t).issued| == size
  {
    hide Apply, CodesOf, AccountOf, FirstOpening;
    AccountStep(s, op, user);
  }

  /** While MFA is on, what was issued last is a whole batch. */
  lemma {:induction false} FullBatch(s: State, ops: seq<Op>, user: UserId, t: Tally, size: nat)
    requires Conserved(s, user, t) && BatchSize(ops, size)
    requires AccountOf(s, user).enabled ==> |t.issued| == size
    ensures AccountOf(After(s, ops), user).enabled ==> |TallyOf(s, ops, user, t).issued| == size
    decreases |ops|
  {
    hide Conserved, Apply, Noted, AccountOf, HasBatch;
    if ops != [] {
      ConservedStep(s, ops[0], user, t);
      FullBatchStep(s, ops[0], user, t, size);
      FullBatch(Apply(s, ops[0]), ops[1..], user, Noted(s, ops[0], user, t), size);
    }
  }

  /** Over every run and for every user, whatever the others do: the user's rows are the last batch, as
      many as its configured size while MFA is on and none while it is off; the used ones are exactly the
      backup codes accepted since; and MFA is never on without a secret. */
  lemma BatchIsConserved(ops: seq<Op>, user: UserId)
    ensures var s, t := After(START, ops), TallyOf(START, ops, user, NOTHING);
            && RowCount(s.rows, user) == |t.issued|
            && CodesOf(s.rows, user, true) == t.accepted <= t.issued
            && (forall size :: BatchSize(ops, size) && AccountOf(s, user).enabled ==> RowCount(s.rows, user) == size)
            && (!AccountOf(s, user).enabled ==> RowCount(s.rows, user) == 0)
            && (AccountOf(s, user).enabled ==> AccountOf(s, user).secret.Some?)
  {
    hide After, TallyOf, RowCount, BatchSize;
    NothingConserved(user);
    ConservedRun(START, ops, user, NOTHING);
    CountIsCodes(After(START, ops).rows, user);
    forall size | BatchSize(ops, size) && AccountOf(After(START, ops), user).enabled
      ensures RowCount(After(START, ops).rows, user) == size
    {
      FullBatch(START, ops, user, NOTHING, size);
    }
  }

  /** A code is accepted as a backup code exactly as long as it has been accepted less often than the
      last batch contains it. */
  lemma AcceptedAsOftenAsIssued(ops: seq<Op>, user: UserId, code: string)
    ensures var s, t := After(START, ops), TallyOf(START, ops, user, NOTHING);
            ResultOf(s, Login(user, code, false)) == Done <==> AccountOf(s, user).enabled && t.accepted[code] < t.issued[code]
  {
    hide CodesOf, FirstOpening, TallyOf, After;
    NothingConserved(user);
    ConservedRun(START, ops, user, NOTHING);
    OpeningIffUnused(After(START, ops).rows, user, code);
  }

  /** An enrolled user is never told that enrolment was not started. Confirming again is refused exactly
      if the code is not live, as for anybody; with a live one it goes through and replaces the batch. */
  lemma ConfirmingAgainReplacesBatch(ops: seq<Op>, user: UserId, live: bool, codes: seq<string>)
    requires AccountOf(After(START, ops), user).enabled
    ensures var s, again := After(START, ops), Confirm(user, live, codes);
            && ResultOf(s, again) == (if live then BackupCodes(codes) else InvalidCode)
            && (!live ==> Apply(s, again) == s)
            && (live ==> CodesOf(Apply(s, again).rows, user, false) == multiset(codes)
                         && CodesOf(Apply(s, again).rows, user, true) == multiset{})
  {
    hide CodesOf, TallyOf, After, Reissued;
    NothingConserved(user);
    ConservedRun(START, ops, user, NOTHING);
    CodesReissued(After(START, ops).rows, user, codes, user, true);
    CodesReissued(After(START, ops).rows, user, codes, user, false);
  }
}
