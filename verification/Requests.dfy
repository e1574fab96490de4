/** Concurrent requests over the tenant-scoped tables. Each request is a process with its own context
    variable, loaded user and program counter; any other process may run at every `await`. */
module Requests {
  import opened Options
  import opened Tenancy

  type Pid = nat
  type UserId = nat

  /** One FAQ to be created, with the ids it is to be associated with. */
  datatype Item = Item(question: string, questionCategories: seq<nat>, sourceCategories: seq<nat>, sources: seq<nat>)

  /** `CreateFaqs` is `create_faq` for one item and the confirmation of a generation session for any
      number: all lookups come first, then all inserts in one transaction. */
  datatype Request =
    | ListShared(table: Table)
    | ListOwn(table: Table, where: Where)
    | GetFaq(id: nat)
    | CreateCategory(table: Table, name: string)
    | CreateSource(name: string, category: nat, tested: bool)
    | CreateFaqs(items: seq<Item>)
    | Share(key: Key, shared: bool)

  /** Which tables have which operation. */
  predicate Served(r: Request) {
    match r
    case ListShared(table) => table == SourceCategories || table == Sources
    case CreateCategory(table, _) => table == SourceCategories || table == QuestionCategories
    case Share(key, _) => key.table != QuestionCategories
    case ListOwn(_, where) => !where.OwnedOrShared? && !where.Scoped?
    case _ => true
  }

  datatype Answer =
    | Found(rows: Rows)
    | FaqRead(key: Key, row: Row, questionCategories: set<nat>, sourceCategories: set<nat>, sources: set<nat>)
    | Created(keys: seq<Key>)
    | SharedSet(key: Key, shared: bool)
    | NotFound
    | DuplicateName
    | SourceTestFailed
    | UnresolvedIds
    | ShareDenied
    | ShareIneligible
    | Failed

  /** Where a request waits. `SharedQuery` and `ShareQuery` wait with no organisation bound and
      remember the binding they owe. `ShareWrite` remembers the flag as it was loaded. */
  datatype Pc =
    | Start
    | SharedQuery(saved: Option<Org>)
    | Linking(key: Key, row: Row, got: seq<set<nat>>)
    | Resolving(stage: nat)
    | Inserting
    | ShareQuery(saved: Option<Org>)
    | ShareWrite(loaded: bool)
    | Done(answer: Answer)

  datatype Process = Process(user: UserId, superuser: bool, org: Org, ctx: Option<Org>, request: Request, pc: Pc)

  datatype State = State(db: Db, superusers: set<UserId>, processes: map<Pid, Process>)

  const INIT := State(Db(map[], {}), {}, map[])

  /** `Advance` lets one process run up to its next await. `id` is what the key sequence would hand
      out, `ok` is false when the database raises an exception in this step. */
  datatype Event =
    | Promote(user: UserId)
    | Demote(user: UserId)
    | Begin(pid: Pid, user: UserId, org: Org, request: Request)
    | Advance(pid: Pid, id: nat, ok: bool)

  // ---------------------------------------------------------------- one step of one request

  /** The three lookups per FAQ, in order, and the three junction tables in the same order. */
  function LinkTable(stage: nat): Table {
    if stage % 3 == 0 then QuestionCategories else if stage % 3 == 1 then SourceCategories else Sources
  }

  function IdsOf(item: Item, table: Table): seq<nat> {
    if table == QuestionCategories then item.questionCategories
    else if table == SourceCategories then item.sourceCategories
    else item.sources
  }

  function LinkIds(items: seq<Item>, stage: nat): seq<nat>
    requires stage < 3 * |items|
  {
    IdsOf(items[stage / 3], LinkTable(stage))
  }

  predicate Distinct(ids: seq<nat>) {
    forall i, j :: 0 <= i < j < |ids| ==> ids[i] != ids[j]
  }

  function SnapshotFor(table: Table, superuser: bool): Snapshot {
    if superuser && table != QuestionCategories then PlatformAdmin else Other
  }

  function Finish(p: Process, answer: Answer): Process {
    p.(pc := Done(answer))
  }

  /** `_resolve_ids_in_org`, and what comes after it. */
  function Resolve(db: Db, p: Process, stage: nat): Process
    requires p.request.CreateFaqs? && stage < 3 * |p.request.items|
  {
    var ids := LinkIds(p.request.items, stage);
    var found := Select(db.rows, p.ctx, LinkTable(stage), IdIn(ids));
    if ids == [] || exists i :: 0 <= i < |ids| && Key(LinkTable(stage), ids[i]) !in found then Finish(p, UnresolvedIds)
    else if stage + 1 < 3 * |p.request.items| then p.(pc := Resolving(stage + 1))
    else p.(pc := Inserting)
  }

  predicate Inserts(r: Request) {
    r.CreateCategory? || r.CreateSource? || r.CreateFaqs?
  }

  /** A row to be inserted, and its junction rows. */
  datatype Addition = Addition(key: Key, row: Row, links: set<Link>)

  function LinksOf(item: Item, id: nat): set<Link> {
    (set t | t in item.questionCategories :: Link(QuestionCategories, id, t))
    + (set t | t in item.sourceCategories :: Link(SourceCategories, id, t))
    + (set t | t in item.sources :: Link(Sources, id, t))
  }

  function FaqAddition(org: Org, superuser: bool, item: Item, id: nat): Addition {
    Addition(Key(Faqs, id),
             Row(org, false, SnapshotFor(Faqs, superuser), item.question,
                 if item.questionCategories == [] then None else Some(item.questionCategories[0])),
             LinksOf(item, id))
  }

  /** What a request inserts in organisation `org`, with primary keys from `id` on. */
  function Additions(p: Process, org: Org, id: nat): seq<Addition>
    requires Inserts(p.request)
  {
    match p.request
    case CreateCategory(table, name) =>
      [Addition(Key(table, id), Row(org, false, SnapshotFor(table, p.superuser), name, None), {})]
    case CreateSource(name, category, _) =>
      [Addition(Key(Sources, id), Row(org, false, SnapshotFor(Sources, p.superuser), name, Some(category)), {})]
    case CreateFaqs(items) => seq(|items|, k requires 0 <= k < |items| => FaqAddition(org, p.superuser, items[k], id + k))
  }

  function Add(db: Db, a: Addition): Db {
    Db(db.rows[a.key := a.row], db.links + a.links)
  }

  function AddAll(db: Db, adds: seq<Addition>): Db
    decreases |adds|
  {
    if adds == [] then db else AddAll(Add(db, adds[0]), adds[1..])
  }

  predicate Unused(rows: Rows, adds: seq<Addition>) {
    forall k :: 0 <= k < |adds| ==> adds[k].key !in rows
  }

  predicate StorableItem(item: Item) {
    Distinct(item.questionCategories) && Distinct(item.sourceCategories) && Distinct(item.sources)
  }

  /** The database's own constraints on an insert: fresh primary keys, an organisation, category names
      unique within the organisation, junction rows unique. A conflict rolls everything back. */
  predicate Insertable(db: Db, p: Process, id: nat)
    requires Inserts(p.request)
  {
    var r := p.request;
    && Stamp(p.ctx, None).Some?
    && Unused(db.rows, Additions(p, Stamp(p.ctx, None).value, id))
    && (r.CreateCategory? ==>
          !exists key :: key in db.rows && key.table == r.table && db.rows[key].org == Stamp(p.ctx, None).value
                         && db.rows[key].name == r.name)
    && (r.CreateFaqs? ==> forall k :: 0 <= k < |r.items| ==> StorableItem(r.items[k]))
  }

  function KeysOf(adds: seq<Addition>): seq<Key> {
    seq(|adds|, k requires 0 <= k < |adds| => adds[k].key)
  }

  function Insert(db: Db, p: Process, id: nat): (Db, Process)
    requires Inserts(p.request)
  {
    if !Insertable(db, p, id) then (db, Finish(p, Failed))
    else
      var adds := Additions(p, Stamp(p.ctx, None).value, id);
      (AddAll(db, adds), Finish(p, Created(KeysOf(adds))))
  }

  /** What a request does up to its first await, and its first query. */
  function First(db: Db, p: Process, ok: bool): Process {
    match p.request
    case ListShared(_) => p.(ctx := None, pc := SharedQuery(p.ctx))
    case GetFaq(_) => p.(ctx := None, pc := SharedQuery(p.ctx))
    case Share(_, _) => if p.superuser then p.(ctx := None, pc := ShareQuery(p.ctx)) else Finish(p, ShareDenied)
    case ListOwn(table, where) => Finish(p, if ok then Found(Select(db.rows, p.ctx, table, where)) else Failed)
    case CreateCategory(table, name) =>
      if !ok || Several(Select(db.rows, p.ctx, table, Named(name))) then Finish(p, Failed)
      else if Select(db.rows, p.ctx, table, Named(name)) != map[] then Finish(p, DuplicateName)
      else p.(pc := Inserting)
    case CreateSource(_, category, tested) =>
      if !ok then Finish(p, Failed)
      else if Key(SourceCategories, category) !in Select(db.rows, p.ctx, SourceCategories, HasId(category))
      then Finish(p, NotFound)
      else if !tested then Finish(p, SourceTestFailed)
      else p.(pc := Inserting)
    case CreateFaqs(items) => p.(pc := if items == [] then Inserting else Resolving(0))
  }

  /** The query of `_select_own_org_or_shared`; the binding is restored whether it fails or not. */
  function AfterSharedQuery(db: Db, p: Process, ok: bool): Process
    requires p.pc.SharedQuery?
  {
    var back := p.(ctx := p.pc.saved);
    if !ok then Finish(back, Failed)
    else
      match p.request
      case ListShared(table) => Finish(back, Found(Select(db.rows, p.ctx, table, OwnedOrShared(p.org, All))))
      case GetFaq(id) =>
        var found := Select(db.rows, p.ctx, Faqs, OwnedOrShared(p.org, HasId(id)));
        if Key(Faqs, id) in found then back.(pc := Linking(Key(Faqs, id), found[Key(Faqs, id)], []))
        else Finish(back, NotFound)
      case _ => back
  }

  function Targets(links: set<Link>, kind: Table, faq: nat): set<nat> {
    set l | l in links && l.kind == kind && l.faq == faq :: l.target
  }

  /** The junction reads of `to_faq_read`. Rows older than the question-category junction fall back
      to their single category. */
  function AfterLinking(db: Db, p: Process, ok: bool): Process
    requires p.pc.Linking?
  {
    var pc := p.pc;
    var got := pc.got + [Targets(db.links, LinkTable(|pc.got|), pc.key.id)];
    if !ok then Finish(p, Failed)
    else if |got| < 3 then p.(pc := Linking(pc.key, pc.row, got))
    else
      var categories := if got[0] == {} && pc.row.category.Some? then {pc.row.category.value} else got[0];
      Finish(p, FaqRead(pc.key, pc.row, categories, got[1], got[2]))
  }

  /** The lookup of `_share_resource` and its eligibility check. */
  function AfterShareQuery(db: Db, p: Process, ok: bool): Process
    requires p.pc.ShareQuery? && p.request.Share?
  {
    var back := p.(ctx := p.pc.saved);
    var key := p.request.key;
    var found := Select(db.rows, p.ctx, key.table, HasId(key.id));
    if !ok then Finish(back, Failed)
    else if key !in found then Finish(back, NotFound)
    else if p.request.shared && found[key].snapshot != PlatformAdmin then Finish(back, ShareIneligible)
    else back.(pc := ShareWrite(found[key].shared))
  }

  /** The flush of `_share_resource`. The mapper writes the flag only when it differs from the loaded one. */
  function WriteShare(db: Db, p: Process): (Db, Process)
    requires p.pc.ShareWrite? && p.request.Share?
  {
    var key, flag := p.request.key, p.request.shared;
    if key !in db.rows then (db, Finish(p, Failed))
    else if p.pc.loaded == flag then (db, Finish(p, SharedSet(key, flag)))
    else (db.(rows := db.rows[key := db.rows[key].(shared := flag)]), Finish(p, SharedSet(key, flag)))
  }

  function Act(db: Db, p: Process, id: nat, ok: bool): (Db, Process) {
    match p.pc
    case Start => (db, First(db, p, ok))
    case SharedQuery(_) => (db, AfterSharedQuery(db, p, ok))
    case Linking(_, _, _) => (db, AfterLinking(db, p, ok))
    case Resolving(stage) =>
      (db, if ok && p.request.CreateFaqs? && stage < 3 * |p.request.items| then Resolve(db, p, stage) else Finish(p, Failed))
    case Inserting =>
      if ok && Inserts(p.request) then Insert(db, p, id)
      else (db, Finish(p, Failed))
    case ShareQuery(_) => (db, if p.request.Share? then AfterShareQuery(db, p, ok) else p)
    case ShareWrite(_) => if ok && p.request.Share? then WriteShare(db, p) else (db, Finish(p, Failed))
    case Done(_) => (db, p)
  }

  function Step(s: State, e: Event): State {
    match e
    case Promote(user) => s.(superusers := s.superusers + {user})
    case Demote(user) => s.(superusers := s.superusers - {user})
    case Begin(pid, user, org, request) =>
      if pid in s.processes || !Served(request) then s
      else s.(processes := s.processes[pid := Process(user, user in s.superusers, org, Some(org), request, Start)])
    case Advance(pid, id, ok) =>
      if pid !in s.processes then s
      else
        var (db, p) := Act(s.db, s.processes[pid], id, ok);
        s.(db := db, processes := s.processes[pid := p])
  }

  function After(s: State, es: seq<Event>): State
    decreases |es|
  {
    if es == [] then s else After(Step(s, es[0]), es[1..])
  }
}
