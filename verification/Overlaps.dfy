/** What overlapping calls do to two promises that hold for calls one after another: one default
    membership per user, and one active key per scope and provider. In both services other calls can run
    between a look at the table and the insert that relies on it. */
module Overlaps {
  import opened Options
  import opened Text
  import M = Memberships
  import K = KeyStore

  // ---------------------------------------------------------------- creating organisations

  /** A creation that has made its organisation and has looked for earlier memberships of the user. */
  datatype Creation = Creation(user: M.UserId, org: M.OrgId, sawNone: bool)

  datatype Joining = Joining(directory: M.Directory, open: map<nat, Creation>)

  /** `Look` runs a creation up to its look at the memberships, `Join` inserts the row. Every other call
      is `Whole`: a new user has no earlier memberships to look at, and the two updates of a switch are one
      step because the first of them locks the user's rows until the switch commits. */
  datatype Move = Look(call: nat, user: M.UserId, slug: string) | Join(call: nat) | Whole(op: M.Op)

  function Moved(j: Joining, m: Move): Joining {
    var d := j.directory;
    match m
    case Look(call, user, slug) =>
      if call in j.open || !M.ResultOf(d, M.CreateOrg(user, slug)).CreatedOrg? then j
      else Joining(d.(slugs := d.slugs[slug := d.nextOrg], nextOrg := d.nextOrg + 1),
                   j.open[call := Creation(user, d.nextOrg, !M.HasMembership(d.rows, user))])
    case Join(call) =>
      if call !in j.open then j
      else
        var c := j.open[call];
        Joining(d.(rows := d.rows + [M.Row(c.user, c.org, c.sawNone)]), j.open - {call})
    case Whole(op) => j.(directory := M.Apply(d, op))
  }

  predicate OneDefault(d: M.Directory, user: M.UserId) {
    M.Defaults(d.rows, user) == if M.Count(d.rows, user) > 0 then 1 else 0
  }

  /** The move inserts no membership of the user, or one whose look at the table is still true. */
  predicate StillTrue(j: Joining, m: Move, user: M.UserId) {
    m.Join? && m.call in j.open && j.open[m.call].user == user ==>
      (j.open[m.call].sawNone <==> !M.HasMembership(j.directory.rows, user))
  }

  ghost predicate CreationOk(d: M.Directory, c: Creation) {
    && c.user < d.nextUser && c.org < d.nextOrg && M.CountIn(d.rows, c.user, c.org) == 0
    && (!c.sawNone ==> M.Count(d.rows, c.user) > 0)
  }

  /** What holds of one user however these moves alternate. */
  ghost predicate JoiningOk(j: Joining, user: M.UserId) {
    var d := j.directory;
    && (forall org: M.OrgId :: M.CountIn(d.rows, user, org) <= if org < d.nextOrg then 1 else 0)
    && (user >= d.nextUser ==> M.Count(d.rows, user) == 0)
    && (forall call :: call in j.open && j.open[call].user == user ==> CreationOk(d, j.open[call]))
    && (forall c, c' :: c in j.open && c' in j.open && c != c' ==> j.open[c].org != j.open[c'].org)
    && (forall c :: c in j.open ==> j.open[c].org < d.nextOrg)
  }

  /** How the counts of one user change in a move. */
  lemma CountsMoved(j: Joining, m: Move, user: M.UserId, org: M.OrgId)
    requires JoiningOk(j, user)
    ensures M.Count(Moved(j, m).directory.rows, user) >= M.Count(j.directory.rows, user)
    ensures user >= Moved(j, m).directory.nextUser ==> M.Count(Moved(j, m).directory.rows, user) == 0
    ensures M.CountIn(Moved(j, m).directory.rows, user, org) <= if org < Moved(j, m).directory.nextOrg then 1 else 0
    ensures M.CountIn(Moved(j, m).directory.rows, user, org) > M.CountIn(j.directory.rows, user, org) ==>
              || (m.Join? && m.call in j.open && j.open[m.call].user == user && j.open[m.call].org == org)
              || (m.Whole? && ((m.op.CreateUser? && user == j.directory.nextUser) || org == j.directory.nextOrg))
  {
    hide M.Count, M.CountIn, M.Defaults, M.Redirected, M.HasMembership, M.IsMember;
    var d := j.directory;
    M.CountsMembers(d.rows, user, org);
    match m
    case Look(_, _, _) =>
    case Join(call) =>
      if call in j.open {
        var c := j.open[call];
        M.CountsAppend(d.rows, M.Row(c.user, c.org, c.sawNone), user, org);
      }
    case Whole(op) => CountsApplied(d, op, user, org);
  }

  lemma CountsApplied(d: M.Directory, op: M.Op, user: M.UserId, org: M.OrgId)
    ensures var rows, rows' := d.rows, M.Apply(d, op).rows;
            var added := (op.CreateOrg? && op.user == user && M.ResultOf(d, op).CreatedOrg?)
                         || (op.CreateUser? && M.ResultOf(d, op) == M.CreatedUser(user) && op.org.Some?);
            var where := if op.CreateOrg? then d.nextOrg else if op.CreateUser? && op.org.Some? then op.org.value else 0;
            && M.Count(rows', user) == M.Count(rows, user) + (if added then 1 else 0)
            && M.CountIn(rows', user, org) == M.CountIn(rows, user, org) + (if added && where == org then 1 else 0)
            && M.Defaults(rows', user)
               == if op.Switch? && op.user == user && M.ResultOf(d, op).Switched? then M.CountIn(rows, user, op.target)
                  else M.Defaults(rows, user)
                       + (if added && (op.CreateUser? || M.Count(rows, user) == 0) then 1 else 0)
  {
    hide M.Count, M.CountIn, M.Defaults, M.Redirected, M.HasMembership, M.IsMember;
    match op
    case CreateOrg(owner, _) =>
      M.CountsMembers(d.rows, owner, org);
      M.CountsAppend(d.rows, M.Row(owner, d.nextOrg, !M.HasMembership(d.rows, owner)), user, org);
    case CreateUser(_, _, joined) =>
      assert d.rows + [] == d.rows;
      if joined.Some? {
        M.CountsAppend(d.rows, M.Row(d.nextUser, joined.value, true), user, org);
      }
    case Switch(mover, target) => M.CountsRedirected(d.rows, mover, target, user, org);
  }

  lemma JoiningKept(j: Joining, m: Move, user: M.UserId)
    requires JoiningOk(j, user)
    ensures JoiningOk(Moved(j, m), user)
  {
    hide M.Count, M.CountIn, M.Defaults, M.Redirected, M.HasMembership, M.IsMember;
    var d' := Moved(j, m).directory;
    CountsMoved(j, m, user, 0);
    forall org: M.OrgId ensures M.CountIn(d'.rows, user, org) <= if org < d'.nextOrg then 1 else 0 {
      CountsMoved(j, m, user, org);
    }
    forall call | call in Moved(j, m).open && Moved(j, m).open[call].user == user
      ensures CreationOk(d', Moved(j, m).open[call])
    {
      var c := Moved(j, m).open[call];
      CountsMoved(j, m, user, c.org);
      M.CountsMembers(j.directory.rows, user, c.org);
    }
  }

  /** A user with one default keeps exactly one in a move exactly if the move's look is still true. */
  lemma OneDefaultMoved(j: Joining, m: Move, user: M.UserId)
    requires JoiningOk(j, user) && OneDefault(j.directory, user)
    ensures OneDefault(Moved(j, m).directory, user) <==> StillTrue(j, m, user)
  {
    hide M.Count, M.CountIn, M.Defaults, M.Redirected, M.HasMembership, M.IsMember;
    var d := j.directory;
    M.CountsMembers(d.rows, user, 0);
    match m
    case Look(_, _, _) =>
    case Join(call) =>
      if call in j.open {
        var c := j.open[call];
        M.CountsAppend(d.rows, M.Row(c.user, c.org, c.sawNone), user, 0);
      }
    case Whole(op) =>
      CountsApplied(d, op, user, 0);
      if op.Switch? && op.user == user {
        M.CountsMembers(d.rows, user, op.target);
      }
  }

  predicate OneDefaultThroughout(j: Joining, moves: seq<Move>, user: M.UserId)
    decreases |moves|
  {
    OneDefault(j.directory, user) && (moves == [] || OneDefaultThroughout(Moved(j, moves[0]), moves[1..], user))
  }

  predicate LooksStillTrue(j: Joining, moves: seq<Move>, user: M.UserId)
    decreases |moves|
  {
    moves == [] || (StillTrue(j, moves[0], user) && LooksStillTrue(Moved(j, moves[0]), moves[1..], user))
  }

  lemma {:induction false} OneDefaultRun(j: Joining, moves: seq<Move>, user: M.UserId)
    requires JoiningOk(j, user) && OneDefault(j.directory, user)
    ensures OneDefaultThroughout(j, moves, user) <==> LooksStillTrue(j, moves, user)
    decreases |moves|
  {
    hide JoiningOk, OneDefault, Moved, StillTrue;
    if moves != [] {
      OneDefaultMoved(j, moves[0], user);
      if StillTrue(j, moves[0], user) {
        JoiningKept(j, moves[0], user);
        OneDefaultRun(Moved(j, moves[0]), moves[1..], user);
      } else {
        NotThroughout(Moved(j, moves[0]), moves[1..], user);
      }
    }
  }

  lemma NotThroughout(j: Joining, moves: seq<Move>, user: M.UserId)
    requires !OneDefault(j.directory, user)
    ensures !OneDefaultThroughout(j, moves, user)
  {
  }

  const NOBODY := Joining(M.EMPTY, map[])

  /** However these moves alternate, a user has exactly one default membership all along exactly if whenever one
      of the user's memberships is inserted, what its creation saw of earlier ones is still true. */
  lemma OneDefaultExactly(moves: seq<Move>, user: M.UserId)
    ensures OneDefaultThroughout(NOBODY, moves, user) <==> LooksStillTrue(NOBODY, moves, user)
  {
    OneDefaultRun(NOBODY, moves, user);
  }

  /** Two first organisations created at the same time: the second look comes before the first insert. */
  function TwoFirstOrgs(): seq<Move> {
    [Whole(M.CreateUser("u@a.gov", true, None)), Look(1, 0, "one"), Look(2, 0, "two"), Join(1), Join(2)]
  }

  function AllMoved(j: Joining, moves: seq<Move>): Joining
    decreases |moves|
  {
    if moves == [] then j else AllMoved(Moved(j, moves[0]), moves[1..])
  }

  lemma TwoDefaults()
    ensures M.Defaults(AllMoved(NOBODY, TwoFirstOrgs()).directory.rows, 0) == 2
  {
    var m := TwoFirstOrgs();
    var j1 := Joining(M.Directory(map[], map["u@a.gov" := 0], [], 0, 1), map[]);
    var j2 := Joining(M.Directory(map["one" := 0], map["u@a.gov" := 0], [], 1, 1), map[1 := Creation(0, 0, true)]);
    var j3 := Joining(M.Directory(map["one" := 0, "two" := 1], map["u@a.gov" := 0], [], 2, 1),
                      map[1 := Creation(0, 0, true), 2 := Creation(0, 1, true)]);
    var j4 := Moved(j3, m[3]);
    assert M.EMPTY.rows + [] == [];
    assert Moved(NOBODY, m[0]) == j1 && Moved(j1, m[1]) == j2 && Moved(j2, m[2]) == j3;
    assert j4.directory.rows == [M.Row(0, 0, true)] && 2 in j4.open;
    assert Moved(j4, m[4]).directory.rows == [M.Row(0, 0, true), M.Row(0, 1, true)];
    FiveMoves(NOBODY, m);
    TwoRows(M.Row(0, 0, true), M.Row(0, 1, true), 0);
  }

  lemma MovesStep(j: Joining, moves: seq<Move>)
    requires moves != []
    ensures AllMoved(j, moves) == AllMoved(Moved(j, moves[0]), moves[1..])
    ensures AllMoved(j, []) == j
  {
    hide Moved;
  }

  lemma FiveMoves(j: Joining, m: seq<Move>)
    requires |m| == 5
    ensures AllMoved(j, m) == Moved(Moved(Moved(Moved(Moved(j, m[0]), m[1]), m[2]), m[3]), m[4])
  {
    hide Moved, AllMoved;
    assert m[1..][1..] == m[2..] && m[2..][1..] == m[3..] && m[3..][1..] == m[4..] && m[4..][1..] == [];
    var j2 := Moved(Moved(j, m[0]), m[1]);
    var j4 := Moved(Moved(j2, m[2]), m[3]);
    MovesStep(j, m);
    MovesStep(Moved(j, m[0]), m[1..]);
    MovesStep(j2, m[2..]);
    MovesStep(Moved(j2, m[2]), m[3..]);
    MovesStep(j4, m[4..]);
    MovesStep(Moved(j4, m[4]), m);
  }

  lemma TwoRows(a: M.Row, b: M.Row, user: M.UserId)
    requires a.user == user && a.isDefault && b.user == user && b.isDefault
    ensures M.Defaults([a, b], user) == 2
  {
    assert [a, b][1..] == [b] && [b][1..] == [];
    assert M.Defaults([b], user) == 1;
  }

  // ---------------------------------------------------------------- setting keys

  /** A call that has retired the keys of its slot and has yet to store the new one. */
  datatype Setting = Setting(scope: K.Scope, provider: string, secret: string)

  datatype Keys = Keys(store: K.Store, open: map<nat, Setting>)

  datatype KeyMove =
    | Retire(call: nat, provider: string, plaintext: string, scope: K.Scope)
    | Store(call: nat)
    | WholeCall(op: K.Op)

  function KeysMoved(k: Keys, m: KeyMove): Keys {
    var s := k.store;
    match m
    case Retire(call, provider, plaintext, scope) =>
      if call in k.open || !K.Accepted(provider, plaintext) then k
      else
        var name := K.Normalize(provider);
        Keys(s.(rows := K.Deactivated(s.rows, name, scope)), k.open[call := Setting(scope, name, Strip(plaintext))])
    case Store(call) =>
      if call !in k.open then k
      else
        var c := k.open[call];
        Keys(s.(rows := s.rows + [K.KeyRow(s.nextId, c.scope, c.provider, K.Encrypt(c.secret), true)], nextId := s.nextId + 1),
             k.open - {call})
    case WholeCall(op) => k.(store := K.Apply(s, op))
  }

  /** How many keys of a slot are active. */
  function Actives(rows: seq<K.KeyRow>, scope: K.Scope, provider: string): nat {
    if rows == [] then 0
    else (if K.Fits(rows[0], scope, Some(provider)) then 1 else 0) + Actives(rows[1..], scope, provider)
  }

  lemma {:induction false} ActivesAppend(rows: seq<K.KeyRow>, row: K.KeyRow, scope: K.Scope, provider: string)
    ensures Actives(rows + [row], scope, provider)
         == Actives(rows, scope, provider) + if K.Fits(row, scope, Some(provider)) then 1 else 0
  {
    hide K.Fits;
    if rows == [] {
      assert [] + [row] == [row] && [row][1..] == [];
    } else {
      ActivesAppend(rows[1..], row, scope, provider);
      assert (rows + [row])[1..] == rows[1..] + [row];
    }
  }

  lemma {:induction false} ActivesRetired(rows: seq<K.KeyRow>, name: string, from: K.Scope, scope: K.Scope, provider: string)
    ensures Actives(K.Deactivated(rows, name, from), scope, provider)
         == if scope == from && provider == name then 0 else Actives(rows, scope, provider)
  {
    if rows != [] {
      ActivesRetired(rows[1..], name, from, scope, provider);
      assert K.Deactivated(rows, name, from)[1..] == K.Deactivated(rows[1..], name, from);
    }
  }

  lemma {:induction false} ActivesWithout(rows: seq<K.KeyRow>, id: nat, scope: K.Scope, provider: string)
    ensures Actives(K.WithoutKey(rows, id), scope, provider) <= Actives(rows, scope, provider)
  {
    if rows != [] {
      ActivesWithout(rows[1..], id, scope, provider);
      assert K.WithoutKey(rows, id)[1..] == K.WithoutKey(rows[1..], id);
    }
  }

  predicate AtMostOne(s: K.Store, scope: K.Scope, provider: string) {
    Actives(s.rows, scope, provider) <= 1
  }

  /** The move stores no key of the slot, or finds none active in it. */
  predicate StillRetired(k: Keys, m: KeyMove, scope: K.Scope, provider: string) {
    m.Store? && m.call in k.open && k.open[m.call].scope == scope && k.open[m.call].provider == provider ==>
      Actives(k.store.rows, scope, provider) == 0
  }

  lemma AtMostOneMoved(k: Keys, m: KeyMove, scope: K.Scope, provider: string)
    requires AtMostOne(k.store, scope, provider)
    ensures AtMostOne(KeysMoved(k, m).store, scope, provider) <==> StillRetired(k, m, scope, provider)
  {
    hide Actives, K.Deactivated, K.WithoutKey, K.Normalize, Strip;
    var s := k.store;
    match m
    case Retire(_, name, _, from) => ActivesRetired(s.rows, K.Normalize(name), from, scope, provider);
    case Store(call) =>
      if call in k.open {
        var c := k.open[call];
        ActivesAppend(s.rows, K.KeyRow(s.nextId, c.scope, c.provider, K.Encrypt(c.secret), true), scope, provider);
      }
    case WholeCall(op) =>
      match op
      case SetKey(name, plaintext, from) =>
        var p := K.Normalize(name);
        ActivesRetired(s.rows, p, from, scope, provider);
        ActivesAppend(K.Deactivated(s.rows, p, from), K.KeyRow(s.nextId, from, p, K.Encrypt(Strip(plaintext)), true), scope, provider);
      case DeactivateKey(id) => ActivesWithout(s.rows, id, scope, provider);
      case SetSharedAccess(_, _) =>
  }

  predicate AtMostOneThroughout(k: Keys, moves: seq<KeyMove>, scope: K.Scope, provider: string)
    decreases |moves|
  {
    && AtMostOne(k.store, scope, provider)
    && (moves == [] || AtMostOneThroughout(KeysMoved(k, moves[0]), moves[1..], scope, provider))
  }

  predicate RetiredThroughout(k: Keys, moves: seq<KeyMove>, scope: K.Scope, provider: string)
    decreases |moves|
  {
    moves == []
    || (StillRetired(k, moves[0], scope, provider)
        && RetiredThroughout(KeysMoved(k, moves[0]), moves[1..], scope, provider))
  }

  lemma {:induction false} AtMostOneRun(k: Keys, moves: seq<KeyMove>, scope: K.Scope, provider: string)
    requires AtMostOne(k.store, scope, provider)
    ensures AtMostOneThroughout(k, moves, scope, provider) <==> RetiredThroughout(k, moves, scope, provider)
    decreases |moves|
  {
    hide AtMostOne, KeysMoved, StillRetired;
    if moves != [] {
      AtMostOneMoved(k, moves[0], scope, provider);
      if StillRetired(k, moves[0], scope, provider) {
        AtMostOneRun(KeysMoved(k, moves[0]), moves[1..], scope, provider);
      } else {
        TooMany(KeysMoved(k, moves[0]), moves[1..], scope, provider);
      }
    }
  }

  lemma TooMany(k: Keys, moves: seq<KeyMove>, scope: K.Scope, provider: string)
    requires !AtMostOne(k.store, scope, provider)
    ensures !AtMostOneThroughout(k, moves, scope, provider)
  {
  }

  const NO_KEYS := Keys(K.EMPTY, map[])

  /** What the calls alone say of a slot: which of them are open, the number of the next key, and the key
      last stored in the slot, until a call retires it. */
  datatype CallRecord = CallRecord(open: map<nat, Setting>, nextId: nat, held: Option<nat>)

  const NO_CALLS := CallRecord(map[], 1, None)

  predicate InSlot(c: Setting, scope: K.Scope, provider: string) {
    c.scope == scope && c.provider == provider
  }

  function Recorded(n: CallRecord, m: KeyMove, scope: K.Scope, provider: string): CallRecord {
    match m
    case Retire(call, name, plaintext, from) =>
      if call in n.open || !K.Accepted(name, plaintext) then n
      else
        var c := Setting(from, K.Normalize(name), Strip(plaintext));
        n.(open := n.open[call := c], held := if InSlot(c, scope, provider) then None else n.held)
    case Store(call) =>
      if call !in n.open then n
      else
        CallRecord(n.open - {call}, n.nextId + 1, if InSlot(n.open[call], scope, provider) then Some(n.nextId) else n.held)
    case WholeCall(SetKey(name, plaintext, from)) =>
      if !K.Accepted(name, plaintext) then n
      else
        var c := Setting(from, K.Normalize(name), Strip(plaintext));
        n.(nextId := n.nextId + 1, held := if InSlot(c, scope, provider) then Some(n.nextId) else n.held)
    case WholeCall(DeactivateKey(id)) => n.(held := if n.held == Some(id) then None else n.held)
    case WholeCall(SetSharedAccess(_, _)) => n
  }

  predicate StoresIn(n: CallRecord, m: KeyMove, scope: K.Scope, provider: string) {
    m.Store? && m.call in n.open && InSlot(n.open[m.call], scope, provider)
  }

  /** Whenever a call stores its key in the slot, the one stored there before has been retired. */
  predicate NothingHeld(n: CallRecord, moves: seq<KeyMove>, scope: K.Scope, provider: string)
    decreases |moves|
  {
    moves == []
    || ((StoresIn(n, moves[0], scope, provider) ==> n.held.None?)
        && NothingHeld(Recorded(n, moves[0], scope, provider), moves[1..], scope, provider))
  }

  /** The active rows of the slot are those with the held key. */
  ghost predicate Holds(rows: seq<K.KeyRow>, held: Option<nat>, nextId: nat, scope: K.Scope, provider: string) {
    && (forall i :: 0 <= i < |rows| ==> rows[i].id < nextId)
    && (forall i, j :: 0 <= i < j < |rows| ==> rows[i].id < rows[j].id)
    && (forall i :: 0 <= i < |rows| ==> (K.Fits(rows[i], scope, Some(provider)) <==> held == Some(rows[i].id)))
    && (held.Some? ==> exists i :: 0 <= i < |rows| && rows[i].id == held.value)
  }

  /** The table and the record of the calls agree. */
  ghost predicate Agree(k: Keys, n: CallRecord, scope: K.Scope, provider: string) {
    k.open == n.open && k.store.nextId == n.nextId && Holds(k.store.rows, n.held, n.nextId, scope, provider)
  }

  lemma HoldsAppended(rows: seq<K.KeyRow>, held: Option<nat>, row: K.KeyRow, scope: K.Scope, provider: string)
    requires Holds(rows, held, row.id, scope, provider)
    requires K.Fits(row, scope, Some(provider)) ==> held.None?
    ensures Holds(rows + [row], if K.Fits(row, scope, Some(provider)) then Some(row.id) else held, row.id + 1, scope, provider)
  {
    hide K.Fits;
    var rows' := rows + [row];
    assert forall i :: 0 <= i < |rows| ==> rows'[i] == rows[i];
    assert rows'[|rows|] == row;
  }

  lemma HoldsDeactivated(rows: seq<K.KeyRow>, held: Option<nat>, nextId: nat, name: string, from: K.Scope,
                         scope: K.Scope, provider: string)
    requires Holds(rows, held, nextId, scope, provider)
    ensures Holds(K.Deactivated(rows, name, from), if from == scope && name == provider then None else held,
                  nextId, scope, provider)
  {
    hide K.Deactivated;
    K.DeactivatedAt(rows, name, from);
  }

  lemma HoldsWithout(rows: seq<K.KeyRow>, held: Option<nat>, nextId: nat, id: nat, scope: K.Scope, provider: string)
    requires Holds(rows, held, nextId, scope, provider)
    ensures Holds(K.WithoutKey(rows, id), if held == Some(id) then None else held, nextId, scope, provider)
  {
    hide K.WithoutKey;
    K.WithoutKeyAt(rows, id);
  }

  lemma {:induction false} NoneActive(rows: seq<K.KeyRow>, scope: K.Scope, provider: string)
    ensures Actives(rows, scope, provider) == 0 <==> forall i :: 0 <= i < |rows| ==> !K.Fits(rows[i], scope, Some(provider))
  {
    hide K.Fits;
    if rows != [] {
      NoneActive(rows[1..], scope, provider);
      assert forall i :: 0 < i < |rows| ==> rows[i] == rows[1..][i - 1];
    }
  }

  lemma RetiredIsNotHeld(k: Keys, n: CallRecord, m: KeyMove, scope: K.Scope, provider: string)
    requires Agree(k, n, scope, provider)
    ensures StillRetired(k, m, scope, provider) <==> (StoresIn(n, m, scope, provider) ==> n.held.None?)
  {
    hide Actives, K.Fits;
    NoneActive(k.store.rows, scope, provider);
  }

  lemma AgreementKept(k: Keys, n: CallRecord, m: KeyMove, scope: K.Scope, provider: string)
    requires Agree(k, n, scope, provider) && (StoresIn(n, m, scope, provider) ==> n.held.None?)
    ensures Agree(KeysMoved(k, m), Recorded(n, m, scope, provider), scope, provider)
  {
    hide Holds, K.Deactivated, K.WithoutKey, K.Normalize, Strip, K.Encrypt;
    var s := k.store;
    match m
    case Retire(_, name, _, from) => HoldsDeactivated(s.rows, n.held, s.nextId, K.Normalize(name), from, scope, provider);
    case Store(call) =>
      if call in k.open {
        var c := k.open[call];
        HoldsAppended(s.rows, n.held, K.KeyRow(s.nextId, c.scope, c.provider, K.Encrypt(c.secret), true), scope, provider);
      }
    case WholeCall(SetKey(name, plaintext, from)) =>
      var p := K.Normalize(name);
      HoldsDeactivated(s.rows, n.held, s.nextId, p, from, scope, provider);
      HoldsAppended(K.Deactivated(s.rows, p, from), if from == scope && p == provider then None else n.held,
                    K.KeyRow(s.nextId, from, p, K.Encrypt(Strip(plaintext)), true), scope, provider);
    case WholeCall(DeactivateKey(id)) => HoldsWithout(s.rows, n.held, s.nextId, id, scope, provider);
    case WholeCall(SetSharedAccess(_, _)) =>
  }

  lemma {:induction false} RetiredRun(k: Keys, n: CallRecord, moves: seq<KeyMove>, scope: K.Scope, provider: string)
    requires Agree(k, n, scope, provider)
    ensures RetiredThroughout(k, moves, scope, provider) <==> NothingHeld(n, moves, scope, provider)
    decreases |moves|
  {
    hide Agree, KeysMoved, Recorded, StillRetired, StoresIn;
    if moves != [] {
      RetiredIsNotHeld(k, n, moves[0], scope, provider);
      if StillRetired(k, moves[0], scope, provider) {
        AgreementKept(k, n, moves[0], scope, provider);
        RetiredRun(KeysMoved(k, moves[0]), Recorded(n, moves[0], scope, provider), moves[1..], scope, provider);
      }
    }
  }

  /** However calls overlap, a slot has at most one active key all along exactly if whenever a call stores
      its key there, the key stored there before has been retired: no other call has stored one since
      this call retired them, or else that one has been retired as well. */
  lemma OneActiveExactly(moves: seq<KeyMove>, scope: K.Scope, provider: string)
    ensures AtMostOneThroughout(NO_KEYS, moves, scope, provider) <==> NothingHeld(NO_CALLS, moves, scope, provider)
  {
    AtMostOneRun(NO_KEYS, moves, scope, provider);
    RetiredRun(NO_KEYS, NO_CALLS, moves, scope, provider);
  }

  /** The slot after two calls that both retire before either stores, starting from no keys at all. */
  function TwoStored(name: string, first: string, second: string): K.Store {
    K.Store([K.KeyRow(1, None, name, K.Encrypt(first), true), K.KeyRow(2, None, name, K.Encrypt(second), true)], map[], 3)
  }

  function AfterOverlap(provider: string, first: string, second: string): Keys {
    KeysMoved(KeysMoved(KeysMoved(KeysMoved(NO_KEYS, Retire(1, provider, first, None)), Retire(2, provider, second, None)),
                        Store(1)), Store(2))
  }

  /** Two calls for one slot at the same time leave two keys active, and retiring the newer one brings
      the older one back. */
  lemma OlderKeyComesBack(provider: string, first: string, second: string)
    requires K.Accepted(provider, first) && K.Accepted(provider, second)
    ensures var name := K.Normalize(provider);
            var s := AfterOverlap(provider, first, second).store;
            && Actives(s.rows, None, name) == 2
            && K.ResolveApiKey(s, name, None) == Some(Strip(second))
            && K.ResolveApiKey(K.Apply(s, K.DeactivateKey(2)), name, None) == Some(Strip(first))
  {
    hide K.Normalize, Strip;
    var name := K.Normalize(provider);
    OverlapStores(provider, first, second);
    TwoKeys(name, Strip(first), Strip(second));
  }

  lemma OverlapStores(provider: string, first: string, second: string)
    requires K.Accepted(provider, first) && K.Accepted(provider, second)
    ensures AfterOverlap(provider, first, second).store == TwoStored(K.Normalize(provider), Strip(first), Strip(second))
  {
    hide K.Normalize, Strip, K.Encrypt;
    assert K.Deactivated([], K.Normalize(provider), None) == [];
  }

  lemma TwoKeys(name: string, first: string, second: string)
    ensures var s := TwoStored(name, first, second);
            && Actives(s.rows, None, name) == 2
            && K.ResolveApiKey(s, name, None) == Some(second)
            && K.ResolveApiKey(K.Apply(s, K.DeactivateKey(2)), name, None) == Some(first)
  {
    var s := TwoStored(name, first, second);
    var one, two := s.rows[0], s.rows[1];
    assert s.rows[1..] == [two] && [two][1..] == [] && s.rows[..1] == [one] && [one][..0] == [];
    assert Actives([two], None, name) == 1;
    var retired := K.WithoutKey(s.rows, 2);
    assert K.WithoutKey([two], 2) == [two.(active := false)];
    assert retired == [one, two.(active := false)] && retired[..1] == [one];
    assert K.Newest([one], None, Some(name)) == Some(one);
  }
}
