/** Tenant-scoped tables, the automatic organisation filter and stamp of the database layer, and the
    one documented way around the filter. */
module Tenancy {
  import opened Options
  import opened Text

  type Org = nat

  datatype Table = SourceCategories | Sources | QuestionCategories | Faqs

  /** The role the creator held at creation time. Question categories have neither this column nor
      the sharing flag; they count as `Other` and are never shared. */
  datatype Snapshot = PlatformAdmin | Other

  /** Primary keys are drawn from one sequence per table, for all organisations together. */
  datatype Key = Key(table: Table, id: nat)

  /** `category` is the source category of a source and the first question category of an FAQ. */
  datatype Row = Row(org: Org, shared: bool, snapshot: Snapshot, name: string, category: Option<nat>)

  type Rows = map<Key, Row>

  /** A junction row. Junction tables are not tenant-scoped; `kind` is the table the target is in. */
  datatype Link = Link(kind: Table, faq: nat, target: nat)

  datatype Db = Db(rows: Rows, links: set<Link>)

  // ---------------------------------------------------------------- queries

  datatype Where =
    | All
    | HasId(id: nat)
    | IdIn(ids: seq<nat>)
    | Named(name: string)
    | OwnedOrShared(org: Org, also: Where)
    | Scoped(org: Org, also: Where)

  /** Question categories are compared without regard to case, source categories exactly. */
  predicate SameName(table: Table, a: string, b: string) {
    if table == QuestionCategories then Lower(a) == Lower(b) else a == b
  }

  predicate Matches(where: Where, key: Key, row: Row) {
    match where
    case All => true
    case HasId(id) => key.id == id
    case IdIn(ids) => key.id in ids
    case Named(name) => SameName(key.table, row.name, name)
    case OwnedOrShared(org, also) => (row.org == org || row.shared) && Matches(also, key, row)
    case Scoped(org, also) => row.org == org && Matches(also, key, row)
  }

  /** What a select returns while `ctx` is the bound organisation; with none bound, nothing is filtered. */
  function Select(rows: Rows, ctx: Option<Org>, table: Table, where: Where): Rows {
    map key | key in rows && key.table == table && (ctx.None? || rows[key].org == ctx.value)
              && Matches(where, key, rows[key])
      :: rows[key]
  }

  /** More than one row, where the caller expects at most one. */
  predicate Several(found: Rows) {
    exists k, k' :: k in found && k' in found && k != k'
  }

  /** Filtering by the bound organisation is the same as replacing the statement by a narrower one. */
  lemma FilterIsScope(rows: Rows, ctx: Option<Org>, table: Table, where: Where)
    ensures Select(rows, ctx, table, where)
         == Select(rows, None, table, if ctx.Some? then Scoped(ctx.value, where) else where)
  {
  }

  /** The organisation a new row is written with; None when neither the code nor the context has one. */
  function Stamp(ctx: Option<Org>, given: Option<Org>): Option<Org> {
    if given.None? then ctx else given
  }

  // ---------------------------------------------------------------- the session, step by step

  /** A tenant-scoped instance that waits to be inserted. */
  class Instance {
    var org: Option<Org>

    constructor (org: Option<Org>)
      ensures this.org == org
    {
      this.org := org;
    }
  }

  /** A database session together with the context variable that names the current organisation. */
  class Session {
    var currentOrg: Option<Org>

    constructor ()
      ensures currentOrg == None
    {
      currentOrg := None;
    }

    method SetCurrentOrg(org: Option<Org>)
      modifies this
      ensures currentOrg == org
    {
      currentOrg := org;
    }

    /** The flush listener: every new instance without an organisation gets the bound one. */
    method InjectOrgOnInsert(pending: seq<Instance>)
      modifies pending
      ensures forall o :: o in pending ==> o.org == if old(o.org).Some? then old(o.org) else currentOrg
    {
      if currentOrg.None? {
        return;
      }
      for k := 0 to |pending|
        invariant currentOrg == old(currentOrg)
        invariant forall o :: o in pending ==>
                    o.org == if o in pending[..k] then Stamp(currentOrg, old(o.org)) else old(o.org)
      {
        if pending[k].org.None? {
          pending[k].org := currentOrg;
        }
      }
    }

    /** One select: the listener adds the organisation filter when one is bound. `ok` is false when
        the database raises an exception. */
    method Execute(rows: Rows, table: Table, where: Where, ok: bool) returns (found: Option<Rows>)
      ensures found == if ok then Some(Select(rows, currentOrg, table, where)) else None
    {
      hide Select;
      if !ok {
        return None;
      }
      var statement := where;
      if currentOrg.Some? {
        statement := Scoped(currentOrg.value, where);
      }
      FilterIsScope(rows, currentOrg, table, where);
      found := Some(Select(rows, None, table, statement));
    }

    /** `_select_own_org_or_shared`: every row that is the organisation's own or shared, whatever is
        bound, and the binding is back afterwards even when the query fails. */
    method SelectOwnOrgOrShared(rows: Rows, table: Table, org: Org, where: Where, ok: bool)
      returns (found: Option<Rows>)
      modifies this
      ensures currentOrg == old(currentOrg)
      ensures found.Some? <==> ok
      ensures ok ==> forall key :: key in found.value <==>
                && key in rows && key.table == table && Matches(where, key, rows[key])
                && (rows[key].org == org || rows[key].shared)
      ensures ok ==> forall key :: key in found.value ==> found.value[key] == rows[key]
    {
      var saved := currentOrg;
      SetCurrentOrg(None);
      found := Execute(rows, table, OwnedOrShared(org, where), ok);
      SetCurrentOrg(saved);
    }

    method GetOwnOrgOrSharedOne(rows: Rows, table: Table, org: Org, id: nat, ok: bool)
      returns (found: Option<Option<Row>>)
      modifies this
      ensures currentOrg == old(currentOrg)
      ensures found.Some? <==> ok
      ensures ok ==> found.value == if Key(table, id) in rows && (rows[Key(table, id)].org == org || rows[Key(table, id)].shared)
                                    then Some(rows[Key(table, id)]) else None
    {
      var all := SelectOwnOrgOrShared(rows, table, org, HasId(id), ok);
      if all.None? {
        return None;
      }
      found := Some(if Key(table, id) in all.value then Some(all.value[Key(table, id)]) else None);
    }
  }
}
