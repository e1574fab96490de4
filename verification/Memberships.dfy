/** Which organisation a user works in by default: the three writers of membership rows and the lookup. */
module Memberships {
  import opened Options

  type UserId = nat
  type OrgId = nat

  datatype Row = Row(user: UserId, org: OrgId, isDefault: bool)

  datatype Result =
    | CreatedOrg(org: OrgId)
    | CreatedUser(user: UserId)
    | Switched
    | SlugTaken
    | EmailTaken
    | UnknownRole
    | NotAMember
    | Refused

  // ---------------------------------------------------------------- the table as a value

  /** Membership rows in the order of their primary keys; organisations by their slugs, users by their
      addresses, both numbered in order of creation. */
  datatype Directory = Directory(slugs: map<string, OrgId>, emails: map<string, UserId>, rows: seq<Row>,
                                 nextOrg: OrgId, nextUser: UserId)

  const EMPTY := Directory(map[], map[], [], 0, 0)

  predicate HasMembership(rows: seq<Row>, user: UserId) {
    exists i :: 0 <= i < |rows| && rows[i].user == user
  }

  predicate IsMember(rows: seq<Row>, user: UserId, org: OrgId) {
    exists i :: 0 <= i < |rows| && rows[i].user == user && rows[i].org == org
  }

  /** `order_by(is_default.desc(), id).limit(1)` */
  function FirstOf(rows: seq<Row>, user: UserId, flagged: bool): Option<OrgId> {
    if rows == [] then None
    else if rows[0].user == user && (flagged ==> rows[0].isDefault) then Some(rows[0].org)
    else FirstOf(rows[1..], user, flagged)
  }

  function DefaultOrg(rows: seq<Row>, user: UserId): Option<OrgId> {
    var flagged := FirstOf(rows, user, true);
    if flagged.Some? then flagged else FirstOf(rows, user, false)
  }

  function Redirected(rows: seq<Row>, user: UserId, target: OrgId): seq<Row> {
    if rows == [] then []
    else
      [if rows[0].user == user then rows[0].(isDefault := rows[0].org == target) else rows[0]]
      + Redirected(rows[1..], user, target)
  }

  datatype Op =
    | CreateOrg(user: UserId, slug: string)
    | CreateUser(email: string, roleKnown: bool, org: Option<OrgId>)
    | Switch(user: UserId, target: OrgId)

  function ResultOf(d: Directory, op: Op): Result {
    match op
    case CreateOrg(user, slug) =>
      if slug in d.slugs then SlugTaken else if user < d.nextUser then CreatedOrg(d.nextOrg) else Refused
    case CreateUser(email, roleKnown, org) =>
      if email in d.emails then EmailTaken
      else if !roleKnown then UnknownRole
      else if org.Some? && org.value >= d.nextOrg then Refused
      else CreatedUser(d.nextUser)
    case Switch(user, target) => if IsMember(d.rows, user, target) then Switched else NotAMember
  }

  /** A membership of an organisation that does not exist, or of a user that does not, is refused by the
      foreign keys. */
  function Apply(d: Directory, op: Op): Directory {
    match op
    case CreateOrg(user, slug) =>
      if !ResultOf(d, op).CreatedOrg? then d
      else d.(slugs := d.slugs[slug := d.nextOrg], nextOrg := d.nextOrg + 1,
              rows := d.rows + [Row(user, d.nextOrg, !HasMembership(d.rows, user))])
    case CreateUser(email, _, org) =>
      if !ResultOf(d, op).CreatedUser? then d
      else d.(emails := d.emails[email := d.nextUser], nextUser := d.nextUser + 1,
              rows := d.rows + if org.Some? then [Row(d.nextUser, org.value, true)] else [])
    case Switch(user, target) => if ResultOf(d, op).Switched? then d.(rows := Redirected(d.rows, user, target)) else d
  }

  function After(d: Directory, ops: seq<Op>): Directory
    decreases |ops|
  {
    if ops == [] then d else After(Apply(d, ops[0]), ops[1..])
  }

  // ---------------------------------------------------------------- the services, row by row

  class Membership {
    const user: UserId
    const org: OrgId
    var isDefault: bool

    constructor (user: UserId, org: OrgId, isDefault: bool)
      ensures Current() == Row(user, org, isDefault)
    {
      this.user, this.org, this.isDefault := user, org, isDefault;
    }

    function Current(): Row
      reads this
    {
      Row(user, org, isDefault)
    }
  }

  function RowsOf(memberships: seq<Membership>): seq<Row>
    reads memberships
  {
    if memberships == [] then [] else [memberships[0].Current()] + RowsOf(memberships[1..])
  }

  lemma {:induction false} RowsAt(memberships: seq<Membership>)
    ensures |RowsOf(memberships)| == |memberships|
    ensures forall i :: 0 <= i < |memberships| ==> RowsOf(memberships)[i] == memberships[i].Current()
  {
    if memberships != [] {
      RowsAt(memberships[1..]);
    }
  }

  lemma RowsAppend(memberships: seq<Membership>, m: Membership)
    ensures RowsOf(memberships + [m]) == RowsOf(memberships) + [m.Current()]
  {
    hide RowsOf;
    RowsAt(memberships);
    RowsAt(memberships + [m]);
  }

  lemma {:induction false} RedirectedAt(rows: seq<Row>, user: UserId, target: OrgId)
    ensures |Redirected(rows, user, target)| == |rows|
    ensures forall i :: 0 <= i < |rows| ==>
              Redirected(rows, user, target)[i]
              == if rows[i].user == user then rows[i].(isDefault := rows[i].org == target) else rows[i]
  {
    if rows != [] {
      RedirectedAt(rows[1..], user, target);
    }
  }

  class OrgService {
    var slugs: map<string, OrgId>
    var emails: map<string, UserId>
    var memberships: seq<Membership>
    var nextOrg: OrgId
    var nextUser: UserId

    ghost predicate Valid()
      reads this
    {
      forall i, j :: 0 <= i < j < |memberships| ==> memberships[i] != memberships[j]
    }

    function Current(): Directory
      reads this, memberships
    {
      Directory(slugs, emails, RowsOf(memberships), nextOrg, nextUser)
    }

    constructor ()
      ensures Valid() && Current() == EMPTY
    {
      slugs, emails, memberships, nextOrg, nextUser := map[], map[], [], 0, 0;
    }

    method CreateOrg(user: UserId, slug: string) returns (result: Result)
      requires Valid()
      modifies this
      ensures Valid() && result == ResultOf(old(Current()), Op.CreateOrg(user, slug))
      ensures Current() == Apply(old(Current()), Op.CreateOrg(user, slug))
    {
      hide RowsOf;
      if slug in slugs {
        return SlugTaken;
      }
      if user >= nextUser {
        return Refused;
      }
      var org := nextOrg;
      var hasExisting := false;
      RowsAt(memberships);
      for k := 0 to |memberships|
        invariant hasExisting <==> exists i :: 0 <= i < k && RowsOf(memberships)[i].user == user
      {
        if memberships[k].user == user {
          hasExisting := true;
        }
      }
      var membership := new Membership(user, org, !hasExisting);
      RowsAppend(memberships, membership);
      slugs := slugs[slug := org];
      nextOrg := nextOrg + 1;
      memberships := memberships + [membership];
      result := CreatedOrg(org);
    }

    method CreateUser(email: string, roleKnown: bool, org: Option<OrgId>) returns (result: Result)
      requires Valid()
      modifies this
      ensures Valid() && result == ResultOf(old(Current()), Op.CreateUser(email, roleKnown, org))
      ensures Current() == Apply(old(Current()), Op.CreateUser(email, roleKnown, org))
    {
      hide RowsOf;
      if email in emails {
        return EmailTaken;
      }
      var user := nextUser;
      if !roleKnown {
        return UnknownRole;
      }
      if org.Some? {
        if org.value >= nextOrg {
          return Refused;
        }
        var membership := new Membership(user, org.value, true);
        RowsAppend(memberships, membership);
        memberships := memberships + [membership];
      }
      emails := emails[email := user];
      nextUser := nextUser + 1;
      result := CreatedUser(user);
    }

    /** Two bulk updates: clear the flag on all of the user's rows, set it on the target's. */
    method SwitchDefaultOrg(user: UserId, target: OrgId) returns (result: Result)
      requires Valid()
      modifies memberships
      ensures result == ResultOf(old(Current()), Switch(user, target))
      ensures Current() == Apply(old(Current()), Switch(user, target))
    {
      hide RowsOf, Redirected;
      ghost var before := RowsOf(memberships);
      RowsAt(memberships);
      var member := false;
      for k := 0 to |memberships|
        invariant member <==> exists i :: 0 <= i < k && before[i].user == user && before[i].org == target
      {
        if memberships[k].user == user && memberships[k].org == target {
          member := true;
        }
      }
      if !member {
        return NotAMember;
      }
      for k := 0 to |memberships|
        invariant forall i :: 0 <= i < k ==>
                    memberships[i].Current() == if before[i].user == user then before[i].(isDefault := false) else before[i]
        invariant forall i :: k <= i < |memberships| ==> memberships[i].Current() == before[i]
      {
        if memberships[k].user == user {
          memberships[k].isDefault := false;
        }
      }
      for k := 0 to |memberships|
        invariant forall i :: 0 <= i < k ==>
                    memberships[i].Current()
                    == if before[i].user == user then before[i].(isDefault := before[i].org == target) else before[i]
        invariant forall i :: k <= i < |memberships| ==>
                    memberships[i].Current() == if before[i].user == user then before[i].(isDefault := false) else before[i]
      {
        if memberships[k].user == user && memberships[k].org == target {
          memberships[k].isDefault := true;
        }
      }
      RowsAt(memberships);
      RedirectedAt(before, user, target);
      assert RowsOf(memberships) == Redirected(before, user, target);
      result := Switched;
    }

    /** A flagged membership wins, else the oldest. */
    method GetDefaultOrgForUser(user: UserId) returns (org: Option<OrgId>)
      ensures org == DefaultOrg(RowsOf(memberships), user)
    {
      hide RowsOf;
      RowsAt(memberships);
      var oldest: Option<OrgId> := None;
      for k := 0 to |memberships|
        invariant FirstOf(RowsOf(memberships), user, true) == FirstOf(RowsOf(memberships)[k..], user, true)
        invariant FirstOf(RowsOf(memberships), user, false) ==
                  if oldest.Some? then oldest else FirstOf(RowsOf(memberships)[k..], user, false)
      {
        if memberships[k].user == user {
          if memberships[k].isDefault {
            return Some(memberships[k].org);
          }
          if oldest.None? {
            oldest := Some(memberships[k].org);
          }
        }
      }
      org := oldest;
    }
  }

  // ---------------------------------------------------------------- lookups and refusals, spelled out

  /** The i-th row is the user's first one, or the first default one. */
  predicate IsFirst(rows: seq<Row>, user: UserId, flagged: bool, i: nat) {
    && i < |rows| && rows[i].user == user && (flagged ==> rows[i].isDefault)
    && forall j :: 0 <= j < i ==> rows[j].user != user || (flagged && !rows[j].isDefault)
  }

  lemma {:induction false} FirstExact(rows: seq<Row>, user: UserId, flagged: bool, org: OrgId)
    ensures FirstOf(rows, user, flagged) == Some(org) <==> exists i: nat :: IsFirst(rows, user, flagged, i) && rows[i].org == org
  {
    if rows != [] {
      FirstExact(rows[1..], user, flagged, org);
      if rows[0].user == user && (flagged ==> rows[0].isDefault) {
        assert IsFirst(rows, user, flagged, 0);
      } else {
        forall i: nat ensures IsFirst(rows, user, flagged, i + 1) <==> IsFirst(rows[1..], user, flagged, i) {
          FirstShifts(rows, user, flagged, i);
        }
        if FirstOf(rows[1..], user, flagged) == Some(org) {
          var i: nat :| IsFirst(rows[1..], user, flagged, i) && rows[1..][i].org == org;
          assert IsFirst(rows, user, flagged, i + 1);
        }
        if i: nat :| IsFirst(rows, user, flagged, i) && rows[i].org == org {
          assert IsFirst(rows[1..], user, flagged, i - 1);
        }
      }
    }
  }

  lemma FirstShifts(rows: seq<Row>, user: UserId, flagged: bool, i: nat)
    requires rows != [] && !(rows[0].user == user && (flagged ==> rows[0].isDefault))
    ensures IsFirst(rows, user, flagged, i + 1) <==> IsFirst(rows[1..], user, flagged, i)
  {
    assert forall j :: 0 < j < |rows| ==> rows[j] == rows[1..][j - 1];
  }

  /** The default lookup: the user's first default row, else the first row at all, else nothing. */
  lemma DefaultOrgExact(rows: seq<Row>, user: UserId, org: OrgId)
    ensures DefaultOrg(rows, user) == Some(org) <==>
            || (exists i: nat :: IsFirst(rows, user, true, i) && rows[i].org == org)
            || ((forall i: nat :: !IsFirst(rows, user, true, i))
                && exists i: nat :: IsFirst(rows, user, false, i) && rows[i].org == org)
  {
    hide FirstOf, IsFirst;
    FirstExact(rows, user, true, org);
    FirstExact(rows, user, false, org);
    if FirstOf(rows, user, true).Some? {
      FirstExact(rows, user, true, FirstOf(rows, user, true).value);
    }
    if i: nat :| IsFirst(rows, user, true, i) {
      FirstBound(rows, user, i);
      FirstExact(rows, user, true, rows[i].org);
    }
  }

  lemma FirstBound(rows: seq<Row>, user: UserId, i: nat)
    requires IsFirst(rows, user, true, i)
    ensures i < |rows|
  {
  }

  /** When a call is refused, and that it then changes nothing at all. */
  lemma RefusedExactly(d: Directory, op: Op)
    ensures var result := ResultOf(d, op);
            match op
            case CreateOrg(user, slug) =>
              (result == SlugTaken <==> slug in d.slugs) && (result.CreatedOrg? <==> slug !in d.slugs && user < d.nextUser)
            case CreateUser(email, roleKnown, org) =>
              && (result == EmailTaken <==> email in d.emails) && (result == UnknownRole <==> email !in d.emails && !roleKnown)
              && (result.CreatedUser? <==> email !in d.emails && roleKnown && (org.None? || org.value < d.nextOrg))
            case Switch(user, target) =>
              && (result == Switched <==> exists i :: 0 <= i < |d.rows| && d.rows[i].user == user && d.rows[i].org == target)
              && (result == Switched || result == NotAMember)
    ensures !ResultOf(d, op).CreatedOrg? && !ResultOf(d, op).CreatedUser? && ResultOf(d, op) != Switched ==> Apply(d, op) == d
  {
  }

  // ---------------------------------------------------------------- exactly one default

  function Count(rows: seq<Row>, user: UserId): nat {
    if rows == [] then 0 else (if rows[0].user == user then 1 else 0) + Count(rows[1..], user)
  }

  function CountIn(rows: seq<Row>, user: UserId, org: OrgId): nat {
    if rows == [] then 0 else (if rows[0].user == user && rows[0].org == org then 1 else 0) + CountIn(rows[1..], user, org)
  }

  function Defaults(rows: seq<Row>, user: UserId): nat {
    if rows == [] then 0 else (if rows[0].user == user && rows[0].isDefault then 1 else 0) + Defaults(rows[1..], user)
  }

  /** The user is a member of no organisation twice, of none that does not exist, and has exactly one
      default membership if any membership at all. */
  ghost predicate Inv(d: Directory, user: UserId) {
    && (forall org: OrgId :: CountIn(d.rows, user, org) <= if org < d.nextOrg then 1 else 0)
    && (user >= d.nextUser ==> Count(d.rows, user) == 0)
    && Defaults(d.rows, user) == if Count(d.rows, user) > 0 then 1 else 0
  }

  lemma {:induction false} CountsAppend(rows: seq<Row>, row: Row, user: UserId, org: OrgId)
    ensures Count(rows + [row], user) == Count(rows, user) + if row.user == user then 1 else 0
    ensures CountIn(rows + [row], user, org) == CountIn(rows, user, org) + if row.user == user && row.org == org then 1 else 0
    ensures Defaults(rows + [row], user) == Defaults(rows, user) + if row.user == user && row.isDefault then 1 else 0
  {
    if rows == [] {
      assert [] + [row] == [row] && [row][1..] == [];
    } else {
      CountsAppend(rows[1..], row, user, org);
      assert (rows + [row])[1..] == rows[1..] + [row];
    }
  }

  lemma {:induction false} CountsRedirected(rows: seq<Row>, mover: UserId, target: OrgId, user: UserId, org: OrgId)
    ensures var rows' := Redirected(rows, mover, target);
            && Count(rows', user) == Count(rows, user) && CountIn(rows', user, org) == CountIn(rows, user, org)
            && Defaults(rows', user) == if user == mover then CountIn(rows, user, target) else Defaults(rows, user)
  {
    if rows != [] {
      CountsRedirected(rows[1..], mover, target, user, org);
      assert Redirected(rows, mover, target)[1..] == Redirected(rows[1..], mover, target);
    }
  }

  lemma {:induction false} CountsMembers(rows: seq<Row>, user: UserId, org: OrgId)
    ensures HasMembership(rows, user) <==> Count(rows, user) > 0
    ensures IsMember(rows, user, org) <==> CountIn(rows, user, org) > 0
    ensures CountIn(rows, user, org) <= Count(rows, user)
  {
    if rows != [] {
      CountsMembers(rows[1..], user, org);
      assert HasMembership(rows, user) <==> rows[0].user == user || HasMembership(rows[1..], user) by {
        assert forall i :: 0 < i < |rows| ==> rows[i] == rows[1..][i - 1];
      }
      assert IsMember(rows, user, org) <==> (rows[0].user == user && rows[0].org == org) || IsMember(rows[1..], user, org) by {
        assert forall i :: 0 < i < |rows| ==> rows[i] == rows[1..][i - 1];
      }
    }
  }

  lemma InvStep(d: Directory, op: Op, user: UserId)
    requires Inv(d, user)
    ensures Inv(Apply(d, op), user)
  {
    hide Count, CountIn, Defaults, Redirected, HasMembership, IsMember;
    var rows' := Apply(d, op).rows;
    CountsMembers(d.rows, user, 0);
    forall org: OrgId ensures CountIn(rows', user, org) <= if org < Apply(d, op).nextOrg then 1 else 0 {
      InvStepIn(d, op, user, org);
    }
    InvStepIn(d, op, user, 0);
  }

  lemma InvStepIn(d: Directory, op: Op, user: UserId, org: OrgId)
    requires Inv(d, user)
    ensures CountIn(Apply(d, op).rows, user, org) <= if org < Apply(d, op).nextOrg then 1 else 0
    ensures user >= Apply(d, op).nextUser ==> Count(Apply(d, op).rows, user) == 0
    ensures Defaults(Apply(d, op).rows, user) == if Count(Apply(d, op).rows, user) > 0 then 1 else 0
  {
    hide Count, CountIn, Defaults, Redirected, HasMembership, IsMember;
    CountsMembers(d.rows, user, org);
    match op
    case CreateOrg(owner, _) =>
      CountsMembers(d.rows, owner, org);
      CountsAppend(d.rows, Row(owner, d.nextOrg, !HasMembership(d.rows, owner)), user, org);
    case CreateUser(_, _, joined) =>
      assert d.rows + [] == d.rows;
      if joined.Some? {
        CountsAppend(d.rows, Row(d.nextUser, joined.value, true), user, org);
      }
    case Switch(mover, target) =>
      CountsMembers(d.rows, mover, target);
      CountsRedirected(d.rows, mover, target, user, org);
  }

  // ---------------------------------------------------------------- which one it is

  /** The organisation the user last switched to, else the first one joined, read off the calls alone. */
  function Noted(d: Directory, op: Op, user: UserId, chosen: Option<OrgId>): Option<OrgId> {
    match op
    case Switch(u, target) => if u == user && ResultOf(d, op).Switched? then Some(target) else chosen
    case CreateOrg(u, _) =>
      if u == user && ResultOf(d, op).CreatedOrg? && chosen.None? then Some(ResultOf(d, op).org) else chosen
    case CreateUser(_, _, org) =>
      if ResultOf(d, op) == CreatedUser(user) && org.Some? && chosen.None? then org else chosen
  }

  function Chosen(d: Directory, ops: seq<Op>, user: UserId, chosen: Option<OrgId>): Option<OrgId>
    decreases |ops|
  {
    if ops == [] then chosen else Chosen(Apply(d, ops[0]), ops[1..], user, Noted(d, ops[0], user, chosen))
  }

  lemma {:induction false} FirstOfAppend(rows: seq<Row>, row: Row, user: UserId, flagged: bool)
    ensures FirstOf(rows + [row], user, flagged)
         == if FirstOf(rows, user, flagged).Some? then FirstOf(rows, user, flagged)
            else if row.user == user && (flagged ==> row.isDefault) then Some(row.org) else None
  {
    if rows == [] {
      assert [] + [row] == [row] && [row][1..] == [];
    } else {
      FirstOfAppend(rows[1..], row, user, flagged);
      assert (rows + [row])[1..] == rows[1..] + [row];
    }
  }

  lemma {:induction false} FirstOfExists(rows: seq<Row>, user: UserId)
    ensures FirstOf(rows, user, true).Some? <==> Defaults(rows, user) > 0
    ensures FirstOf(rows, user, false).Some? <==> Count(rows, user) > 0
  {
    if rows != [] {
      FirstOfExists(rows[1..], user);
    }
  }

  lemma {:induction false} FirstOfRedirected(rows: seq<Row>, mover: UserId, target: OrgId, user: UserId)
    ensures FirstOf(Redirected(rows, mover, target), user, true)
         == if user != mover then FirstOf(rows, user, true) else if CountIn(rows, user, target) > 0 then Some(target) else None
    ensures FirstOf(Redirected(rows, mover, target), user, false) == FirstOf(rows, user, false)
  {
    if rows != [] {
      FirstOfRedirected(rows[1..], mover, target, user);
      assert Redirected(rows, mover, target)[1..] == Redirected(rows[1..], mover, target);
    }
  }

  lemma DefaultStep(d: Directory, op: Op, user: UserId)
    requires Inv(d, user)
    ensures DefaultOrg(Apply(d, op).rows, user) == Noted(d, op, user, DefaultOrg(d.rows, user))
  {
    hide Count, CountIn, Defaults, Redirected, HasMembership, IsMember, FirstOf;
    FirstOfExists(d.rows, user);
    match op
    case CreateOrg(owner, _) =>
      CountsMembers(d.rows, owner, 0);
      FirstOfAppend(d.rows, Row(owner, d.nextOrg, !HasMembership(d.rows, owner)), user, true);
      FirstOfAppend(d.rows, Row(owner, d.nextOrg, !HasMembership(d.rows, owner)), user, false);
    case CreateUser(_, _, joined) =>
      assert d.rows + [] == d.rows;
      if joined.Some? {
        FirstOfAppend(d.rows, Row(d.nextUser, joined.value, true), user, true);
        FirstOfAppend(d.rows, Row(d.nextUser, joined.value, true), user, false);
      }
    case Switch(mover, target) =>
      CountsMembers(d.rows, mover, target);
      FirstOfRedirected(d.rows, mover, target, user);
  }

  lemma {:induction false} DefaultRun(d: Directory, ops: seq<Op>, user: UserId)
    requires Inv(d, user)
    ensures Inv(After(d, ops), user)
    ensures DefaultOrg(After(d, ops).rows, user) == Chosen(d, ops, user, DefaultOrg(d.rows, user))
    decreases |ops|
  {
    hide Inv, Apply, DefaultOrg, Noted;
    if ops != [] {
      InvStep(d, ops[0], user);
      DefaultStep(d, ops[0], user);
      DefaultRun(Apply(d, ops[0]), ops[1..], user);
    }
  }

  lemma NobodyJoined(user: UserId)
    ensures Inv(EMPTY, user) && DefaultOrg(EMPTY.rows, user) == None
  {
  }

  /** After any calls, every user with a membership has exactly one default membership, the lookup
      returns it, and it is the organisation last switched to, else the first one joined. */
  lemma ExactlyOneDefault(ops: seq<Op>, user: UserId)
    ensures var rows := After(EMPTY, ops).rows;
            && Defaults(rows, user) == (if HasMembership(rows, user) then 1 else 0)
            && DefaultOrg(rows, user) == Chosen(EMPTY, ops, user, None)
            && (HasMembership(rows, user) <==> DefaultOrg(rows, user).Some?)
            && (DefaultOrg(rows, user).Some? ==> DefaultOrg(rows, user) == FirstOf(rows, user, true))
  {
    hide Count, Defaults, HasMembership, FirstOf, After, Chosen;
    NobodyJoined(user);
    DefaultRun(EMPTY, ops, user);
    CountsMembers(After(EMPTY, ops).rows, user, 0);
    FirstOfExists(After(EMPTY, ops).rows, user);
  }
}
