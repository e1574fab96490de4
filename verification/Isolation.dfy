/** Tenant isolation as noninterference: what one organisation is told does not depend on what other
    organisations keep or do. */
module Isolation {
  import opened Options
  import opened Tenancy
  import opened Requests
  import opened Sharing

  // ---------------------------------------------------------------- what an organisation can see

  predicate InView(org: Org, rows: Rows, key: Key) {
    key in rows && (rows[key].org == org || rows[key].shared)
  }

  /** The organisation's own rows, the shared rows, and the junction rows of the FAQs among them. */
  function View(org: Org, db: Db): Db {
    Db(map key | key in db.rows && InView(org, db.rows, key) :: db.rows[key],
       set l | l in db.links && InView(org, db.rows, Key(Faqs, l.faq)))
  }

  /** The primary keys an insert is about to use are fresh: the sequences never hand one out twice. */
  predicate Fresh(rows: Rows, p: Process, id: nat) {
    p.pc.Inserting? && Inserts(p.request) ==> Unused(rows, Additions(p, p.org, id))
  }

  lemma SameSelects(org: Org, d: Db, d': Db, table: Table, where: Where)
    requires View(org, d) == View(org, d')
    ensures Select(d.rows, Some(org), table, where) == Select(d'.rows, Some(org), table, where)
    ensures Select(d.rows, None, table, OwnedOrShared(org, where)) == Select(d'.rows, None, table, OwnedOrShared(org, where))
  {
    hide View, Select;
    SelectFromView(org, d, table, where);
    SelectFromView(org, d', table, where);
  }

  lemma SelectFromView(org: Org, d: Db, table: Table, where: Where)
    ensures Select(d.rows, Some(org), table, where) == Select(View(org, d).rows, Some(org), table, where)
    ensures Select(d.rows, None, table, OwnedOrShared(org, where))
         == Select(View(org, d).rows, None, table, OwnedOrShared(org, where))
  {
    var v := View(org, d).rows;
    forall key ensures key in Select(d.rows, Some(org), table, where) <==> key in Select(v, Some(org), table, where) {
    }
    forall key
      ensures key in Select(d.rows, None, table, OwnedOrShared(org, where))
         <==> key in Select(v, None, table, OwnedOrShared(org, where))
    {
    }
  }

  lemma SameTargets(org: Org, d: Db, d': Db, kind: Table, id: nat)
    requires View(org, d) == View(org, d') && InView(org, d.rows, Key(Faqs, id))
    ensures Targets(d.links, kind, id) == Targets(d'.links, kind, id)
  {
    assert Key(Faqs, id) in View(org, d').rows;
    forall l: Link | l.faq == id ensures l in d.links <==> l in d'.links {
      assert l in View(org, d).links <==> l in View(org, d').links;
    }
  }

  // ---------------------------------------------------------------- answers depend on the view only

  /** The same junction rows for one FAQ. */
  ghost predicate SameLinks(d: Db, d': Db, faq: nat) {
    forall kind :: Targets(d.links, kind, faq) == Targets(d'.links, kind, faq)
  }

  /** For an FAQ the organisation can see that is part of agreeing on what it can see. */
  lemma VisibleLinksAgree(org: Org, d: Db, d': Db, faq: nat)
    requires View(org, d) == View(org, d') && InView(org, d.rows, Key(Faqs, faq))
    ensures SameLinks(d, d', faq)
  {
    hide View, InView, Targets;
    forall kind ensures Targets(d.links, kind, faq) == Targets(d'.links, kind, faq) {
      SameTargets(org, d, d', kind, faq);
    }
  }

  /** Two databases that agree on what the organisation can see take every request of the organisation,
      other than a platform administrator's sharing, through the same step to the same answer, and
      agree on what it can see afterwards. A request in the middle of reading an FAQ, which may have been
      unshared since, also needs that FAQ's junction rows to agree. */
  lemma AnswersDependOnTheView(d: Db, d': Db, p: Process, id: nat, ok: bool)
    requires DbOk(d) && DbOk(d') && ProcessOk(d.rows, p) && ProcessOk(d'.rows, p) && !p.request.Share?
    requires View(p.org, d) == View(p.org, d')
    requires Fresh(d.rows, p, id) && Fresh(d'.rows, p, id)
    requires p.pc.Linking? ==> SameLinks(d, d', p.pc.key.id)
    ensures Act(d, p, id, ok).1 == Act(d', p, id, ok).1
    ensures View(p.org, Act(d, p, id, ok).0) == View(p.org, Act(d', p, id, ok).0)
  {
    hide View, Select, Targets, InView, Resolve, Insert, DbOk;
    match p.pc
    case Start => SameFirst(d, d', p, ok);
    case SharedQuery(_) =>
      SameSelects(p.org, d, d', if p.request.ListShared? then p.request.table else Faqs,
                  if p.request.GetFaq? then HasId(p.request.id) else All);
    case Resolving(stage) => SameResolve(d, d', p, stage);
    case Inserting => SameInsert(d, d', p, id);
    case _ =>
  }

  /** While the FAQ being read is one the organisation can see, the equal view is all that is needed. */
  lemma VisibleAnswersDependOnTheView(d: Db, d': Db, p: Process, id: nat, ok: bool)
    requires DbOk(d) && DbOk(d') && ProcessOk(d.rows, p) && ProcessOk(d'.rows, p) && !p.request.Share?
    requires View(p.org, d) == View(p.org, d')
    requires Fresh(d.rows, p, id) && Fresh(d'.rows, p, id)
    requires p.pc.Linking? ==> InView(p.org, d.rows, p.pc.key)
    ensures Act(d, p, id, ok).1 == Act(d', p, id, ok).1
    ensures View(p.org, Act(d, p, id, ok).0) == View(p.org, Act(d', p, id, ok).0)
  {
    hide DbOk, View, InView, Act, Fresh, SameLinks;
    if p.pc.Linking? {
      VisibleLinksAgree(p.org, d, d', p.pc.key.id);
    }
    AnswersDependOnTheView(d, d', p, id, ok);
  }

  lemma SameResolve(d: Db, d': Db, p: Process, stage: nat)
    requires p.request.CreateFaqs? && stage < 3 * |p.request.items| && p.ctx == Some(p.org)
    requires View(p.org, d) == View(p.org, d')
    ensures Resolve(d, p, stage) == Resolve(d', p, stage)
  {
    hide View, Select;
    SameSelects(p.org, d, d', LinkTable(stage), IdIn(LinkIds(p.request.items, stage)));
  }

  lemma SameFirst(d: Db, d': Db, p: Process, ok: bool)
    requires p.ctx == Some(p.org) && !p.request.Share? && View(p.org, d) == View(p.org, d')
    ensures First(d, p, ok) == First(d', p, ok)
  {
    hide View, Select, Resolve;
    match p.request
    case ListOwn(table, where) => SameSelects(p.org, d, d', table, where);
    case CreateCategory(table, name) => SameSelects(p.org, d, d', table, Named(name));
    case CreateSource(_, category, _) => SameSelects(p.org, d, d', SourceCategories, HasId(category));
    case _ =>
  }

  lemma SameInsertable(d: Db, d': Db, p: Process, id: nat)
    requires Inserts(p.request) && p.ctx == Some(p.org) && View(p.org, d) == View(p.org, d')
    requires Unused(d.rows, Additions(p, p.org, id)) && Unused(d'.rows, Additions(p, p.org, id))
    ensures Insertable(d, p, id) == Insertable(d', p, id)
  {
    hide Additions, Unused;
    var v, v' := View(p.org, d).rows, View(p.org, d').rows;
    forall key | InView(p.org, d.rows, key) || InView(p.org, d'.rows, key)
      ensures key in d.rows && key in d'.rows && d.rows[key] == d'.rows[key]
    {
      assert key in v && key in v';
      assert v[key] == v'[key];
    }
  }

  /** Every junction row belongs to an FAQ there is. */
  ghost predicate LinksKnown(db: Db) {
    forall l :: l in db.links ==> Key(Faqs, l.faq) in db.rows
  }

  lemma DbLinksKnown(db: Db)
    requires DbOk(db)
    ensures LinksKnown(db)
  {
    hide RowOk;
    forall l | l in db.links ensures Key(Faqs, l.faq) in db.rows {
      assert LinkOk(db.rows, l);
    }
  }

  /** What the rows of an insert have in common. */
  ghost predicate Placed(rows: Rows, org: Org, adds: seq<Addition>) {
    && DistinctKeys(adds) && Unused(rows, adds)
    && forall k :: 0 <= k < |adds| ==> PlacedOne(org, adds[k])
  }

  ghost predicate PlacedOne(org: Org, a: Addition) {
    a.row.org == org && !a.row.shared && forall l :: l in a.links ==> Key(Faqs, l.faq) == a.key
  }

  lemma PlacedFits(rows: Rows, org: Org, adds: seq<Addition>)
    requires Fits(rows, org, adds)
    ensures Placed(rows, org, adds)
  {
    forall k | 0 <= k < |adds| ensures PlacedOne(org, adds[k]) {
      assert AdditionOk(rows, org, adds[k]);
    }
  }

  lemma PlacedRest(db: Db, org: Org, adds: seq<Addition>)
    requires adds != [] && Placed(db.rows, org, adds) && LinksKnown(db)
    ensures PlacedOne(org, adds[0]) && adds[0].key !in db.rows
    ensures Placed(Add(db, adds[0]).rows, org, adds[1..]) && LinksKnown(Add(db, adds[0]))
  {
    hide PlacedOne;
    var rows := Add(db, adds[0]).rows;
    forall k | 0 <= k < |adds[1..]| ensures PlacedOne(org, adds[1..][k]) && adds[1..][k].key !in rows {
      assert adds[1..][k] == adds[k + 1];
    }
    PlacedLinks(org, adds[0]);
  }

  lemma PlacedLinks(org: Org, a: Addition)
    requires PlacedOne(org, a)
    ensures forall l :: l in a.links ==> Key(Faqs, l.faq) == a.key
  {
  }

  lemma ViewOfAdd(viewer: Org, d: Db, org: Org, a: Addition)
    requires LinksKnown(d) && PlacedOne(org, a) && a.key !in d.rows
    ensures View(viewer, Add(d, a)) == if org == viewer then Add(View(viewer, d), a) else View(viewer, d)
  {
    var d' := Add(d, a);
    forall l | l in d.links
      ensures Key(Faqs, l.faq) != a.key
      ensures InView(viewer, d'.rows, Key(Faqs, l.faq)) <==> InView(viewer, d.rows, Key(Faqs, l.faq))
    {
    }
  }

  /** Inserting into a database and into what is visible of it. */
  lemma {:induction false} ViewOfAddAll(viewer: Org, d: Db, org: Org, adds: seq<Addition>)
    requires LinksKnown(d) && Placed(d.rows, org, adds)
    ensures View(viewer, AddAll(d, adds)) == if org == viewer then AddAll(View(viewer, d), adds) else View(viewer, d)
    decreases |adds|
  {
    hide LinksKnown, Placed, PlacedOne, View, Add;
    if adds != [] {
      PlacedRest(d, org, adds);
      ViewOfAdd(viewer, d, org, adds[0]);
      ViewOfAddAll(viewer, Add(d, adds[0]), org, adds[1..]);
    }
  }

  lemma ViewOfInsert(viewer: Org, d: Db, p: Process, id: nat)
    requires DbOk(d) && ProcessOk(d.rows, p) && p.pc.Inserting? && Insertable(d, p, id)
    ensures Inserts(p.request) && p.ctx == Some(p.org)
    ensures View(viewer, Insert(d, p, id).0)
         == if p.org == viewer then AddAll(View(viewer, d), Additions(p, p.org, id)) else View(viewer, d)
  {
    hide DbOk, Fits, Placed, LinksKnown, View, AddAll, Additions, Resolved;
    AdditionsFit(d, p, id);
    PlacedFits(d.rows, p.org, Additions(p, p.org, id));
    DbLinksKnown(d);
    ViewOfAddAll(viewer, d, p.org, Additions(p, p.org, id));
  }

  lemma SameInsert(d: Db, d': Db, p: Process, id: nat)
    requires DbOk(d) && DbOk(d') && ProcessOk(d.rows, p) && ProcessOk(d'.rows, p) && p.pc.Inserting?
    requires View(p.org, d) == View(p.org, d') && Fresh(d.rows, p, id) && Fresh(d'.rows, p, id)
    ensures Inserts(p.request)
    ensures Insert(d, p, id).1 == Insert(d', p, id).1
    ensures View(p.org, Insert(d, p, id).0) == View(p.org, Insert(d', p, id).0)
  {
    hide View, DbOk, Insertable, AddAll, Additions, Resolved;
    SameInsertable(d, d', p, id);
    if Insertable(d, p, id) {
      ViewOfInsert(p.org, d, p, id);
      ViewOfInsert(p.org, d', p, id);
    }
  }

  /** A step that a user who is no platform administrator makes under another organisation changes
      nothing the organisation can see. */
  lemma OthersLeaveTheViewAlone(org: Org, d: Db, p: Process, id: nat, ok: bool)
    requires DbOk(d) && ProcessOk(d.rows, p) && p.org != org && !p.superuser
    ensures View(org, Act(d, p, id, ok).0) == View(org, d)
  {
    hide DbOk, View, Insertable, AddAll, Additions, Resolved;
    if p.pc.Inserting? && ok && Insertable(d, p, id) {
      ViewOfInsert(org, d, p, id);
    }
  }

  // ---------------------------------------------------------------- purging whole organisations from a run

  predicate KeptKey(hidden: set<Org>, rows: Rows, key: Key) {
    key in rows && rows[key].org !in hidden
  }

  /** The database without the rows, and the junction rows of the FAQs, of the hidden organisations. */
  function Purged(hidden: set<Org>, db: Db): Db {
    Db(map key | key in db.rows && KeptKey(hidden, db.rows, key) :: db.rows[key],
       set l | l in db.links && KeptKey(hidden, db.rows, Key(Faqs, l.faq)))
  }

  /** No platform administrator works in a hidden organisation, nothing of theirs is shared, and no
      other request is in the middle of reading one of their FAQs. */
  predicate Unprivileged(hidden: set<Org>, s: State) {
    && (forall key :: key in s.db.rows && s.db.rows[key].org in hidden ==> s.db.rows[key].snapshot == Other)
    && (forall pid :: pid in s.processes ==> Ordinary(hidden, s.db.rows, s.processes[pid]))
  }

  predicate Ordinary(hidden: set<Org>, rows: Rows, p: Process) {
    if p.org in hidden then !p.superuser else p.pc.Linking? ==> KeptKey(hidden, rows, p.pc.key)
  }

  /** The one request that can tell: a platform administrator, who addresses rows of any organisation,
      tried to change the flag of a hidden row. Without the row the answer is `NotFound`. */
  predicate LostShare(hidden: set<Org>, rows: Rows, p: Process, q: Process) {
    && p.request.Share? && p.superuser && p.request.key in rows && rows[p.request.key].org in hidden
    && q == p.(pc := Done(NotFound))
    && (p.pc.Done? || (p.pc.ShareWrite? && !p.request.shared))
  }

  predicate Alike(hidden: set<Org>, rows: Rows, p: Process, q: Process) {
    || (p == q && (p.pc.ShareWrite? ==> p.request.Share? && KeptKey(hidden, rows, p.request.key)))
    || LostShare(hidden, rows, p, q)
  }

  /** `t` is `s` as if the hidden organisations did not exist. */
  ghost predicate Related(hidden: set<Org>, s: State, t: State) {
    && t.db == Purged(hidden, s.db) && t.superusers == s.superusers
    && (forall pid :: pid in t.processes <==> pid in s.processes && s.processes[pid].org !in hidden)
    && (forall pid :: pid in t.processes ==> Alike(hidden, s.db.rows, s.processes[pid], t.processes[pid]))
  }

  /** Primary keys and process identifiers are fresh when they are handed out. */
  predicate Legal(s: State, e: Event) {
    match e
    case Begin(pid, _, _, _) => pid !in s.processes
    case Advance(pid, id, _) => pid in s.processes ==> Fresh(s.db.rows, s.processes[pid], id)
    case _ => true
  }

  predicate LegalRun(s: State, es: seq<Event>)
    decreases |es|
  {
    es == [] || (Legal(s, es[0]) && LegalRun(Step(s, es[0]), es[1..]))
  }

  /** No platform administrator starts a request in a hidden organisation. */
  predicate NoAdminIn(hidden: set<Org>, s: State, es: seq<Event>)
    decreases |es|
  {
    || es == []
    || ((es[0].Begin? && es[0].org in hidden ==> es[0].user !in s.superusers) && NoAdminIn(hidden, Step(s, es[0]), es[1..]))
  }

  predicate HiddenEvent(hidden: set<Org>, s: State, e: Event) {
    match e
    case Begin(_, _, org, _) => org in hidden
    case Advance(pid, _, _) => pid in s.processes && s.processes[pid].org in hidden
    case _ => false
  }

  /** The run without the events of the hidden organisations. */
  function PurgedRun(hidden: set<Org>, s: State, es: seq<Event>): seq<Event>
    decreases |es|
  {
    if es == [] then []
    else (if HiddenEvent(hidden, s, es[0]) then [] else [es[0]]) + PurgedRun(hidden, Step(s, es[0]), es[1..])
  }

  lemma SelectKept(hidden: set<Org>, db: Db, org: Org, table: Table, where: Where)
    requires org !in hidden && forall key :: key in db.rows && db.rows[key].org in hidden ==> !db.rows[key].shared
    ensures Select(Purged(hidden, db).rows, Some(org), table, where) == Select(db.rows, Some(org), table, where)
    ensures Select(Purged(hidden, db).rows, None, table, OwnedOrShared(org, where))
         == Select(db.rows, None, table, OwnedOrShared(org, where))
  {
    var v := Purged(hidden, db).rows;
    forall key ensures key in Select(db.rows, Some(org), table, where) <==> key in Select(v, Some(org), table, where) {
    }
    forall key
      ensures key in Select(db.rows, None, table, OwnedOrShared(org, where))
         <==> key in Select(v, None, table, OwnedOrShared(org, where))
    {
    }
  }

  lemma TargetsKept(hidden: set<Org>, db: Db, kind: Table, id: nat)
    requires KeptKey(hidden, db.rows, Key(Faqs, id))
    ensures Targets(Purged(hidden, db).links, kind, id) == Targets(db.links, kind, id)
  {
    forall l: Link | l.faq == id ensures l in db.links <==> l in Purged(hidden, db).links {
    }
  }

  /** The assumptions every step of the comparison works under. */
  ghost predicate Comparable(hidden: set<Org>, db: Db, p: Process) {
    && DbOk(db) && ProcessOk(db.rows, p) && Ordinary(hidden, db.rows, p)
    && (forall key :: key in db.rows && db.rows[key].org in hidden ==> db.rows[key].snapshot == Other && !db.rows[key].shared)
  }

  lemma KeptFirst(hidden: set<Org>, db: Db, p: Process, ok: bool)
    requires Comparable(hidden, db, p) && p.org !in hidden && p.pc.Start?
    ensures First(Purged(hidden, db), p, ok) == First(db, p, ok) && !First(db, p, ok).pc.ShareWrite?
  {
    hide Purged, Select, DbOk, Resolve;
    match p.request
    case ListOwn(table, where) => SelectKept(hidden, db, p.org, table, where);
    case CreateCategory(table, name) => SelectKept(hidden, db, p.org, table, Named(name));
    case CreateSource(_, category, _) => SelectKept(hidden, db, p.org, SourceCategories, HasId(category));
    case _ =>
  }

  lemma KeptResolve(hidden: set<Org>, db: Db, p: Process, stage: nat)
    requires Comparable(hidden, db, p) && p.org !in hidden && p.ctx == Some(p.org)
    requires p.request.CreateFaqs? && stage < 3 * |p.request.items|
    ensures Resolve(Purged(hidden, db), p, stage) == Resolve(db, p, stage) && !Resolve(db, p, stage).pc.ShareWrite?
  {
    hide Purged, Select, DbOk, ProcessOk;
    SelectKept(hidden, db, p.org, LinkTable(stage), IdIn(LinkIds(p.request.items, stage)));
  }

  lemma KeptReads(hidden: set<Org>, db: Db, p: Process, ok: bool)
    requires Comparable(hidden, db, p) && p.org !in hidden && (p.pc.SharedQuery? || p.pc.Linking?)
    ensures Act(Purged(hidden, db), p, 0, ok).1 == Act(db, p, 0, ok).1 && !Act(db, p, 0, ok).1.pc.ShareWrite?
    ensures Ordinary(hidden, db.rows, Act(db, p, 0, ok).1)
  {
    hide Purged, DbOk, Targets;
    if p.pc.SharedQuery? {
      SelectKept(hidden, db, p.org, if p.request.ListShared? then p.request.table else Faqs,
                 if p.request.GetFaq? then HasId(p.request.id) else All);
    } else {
      TargetsKept(hidden, db, LinkTable(|p.pc.got|), p.pc.key.id);
    }
  }

  lemma KeptShareQuery(hidden: set<Org>, db: Db, p: Process, ok: bool)
    requires Comparable(hidden, db, p) && p.org !in hidden && p.pc.ShareQuery?
    ensures Alike(hidden, db.rows, AfterShareQuery(db, p, ok), AfterShareQuery(Purged(hidden, db), p, ok))
  {
    hide DbOk;
  }

  lemma KeptShareWrite(hidden: set<Org>, db: Db, p: Process)
    requires Comparable(hidden, db, p) && p.org !in hidden && p.pc.ShareWrite? && KeptKey(hidden, db.rows, p.request.key)
    ensures WriteShare(Purged(hidden, db), p) == (Purged(hidden, WriteShare(db, p).0), WriteShare(db, p).1)
    ensures WriteShare(db, p).1.pc.Done?
  {
    hide DbOk;
    var d' := WriteShare(db, p).0;
    assert forall key :: KeptKey(hidden, db.rows, key) <==> KeptKey(hidden, d'.rows, key);
    assert Purged(hidden, d').links == Purged(hidden, db).links;
    var key := p.request.key;
    if p.pc.loaded != p.request.shared {
      assert Purged(hidden, d').rows == Purged(hidden, db).rows[key := d'.rows[key]];
    }
  }

  lemma KeptInsert(hidden: set<Org>, db: Db, p: Process, id: nat)
    requires Comparable(hidden, db, p) && p.org !in hidden && p.pc.Inserting? && Fresh(db.rows, p, id)
    ensures Inserts(p.request)
    ensures Insert(Purged(hidden, db), p, id) == (Purged(hidden, Insert(db, p, id).0), Insert(db, p, id).1)
    ensures Insert(db, p, id).1.pc.Done?
  {
    hide DbOk, Purged, Insertable, AddAll, Additions, Resolved;
    KeptInsertable(hidden, db, p, id);
    if Insertable(db, p, id) {
      PurgedInsert(hidden, db, p, id);
    }
  }

  lemma KeptInsertable(hidden: set<Org>, db: Db, p: Process, id: nat)
    requires Inserts(p.request) && p.org !in hidden && p.ctx == Some(p.org) && Unused(db.rows, Additions(p, p.org, id))
    ensures Insertable(Purged(hidden, db), p, id) == Insertable(db, p, id)
  {
    hide Additions;
    forall key | key in db.rows && db.rows[key].org == p.org
      ensures key in Purged(hidden, db).rows && Purged(hidden, db).rows[key] == db.rows[key]
    {
    }
  }

  lemma PurgedAdd(hidden: set<Org>, d: Db, org: Org, a: Addition)
    requires LinksKnown(d) && PlacedOne(org, a) && a.key !in d.rows
    ensures Purged(hidden, Add(d, a)) == if org in hidden then Purged(hidden, d) else Add(Purged(hidden, d), a)
  {
    var d' := Add(d, a);
    forall l | l in d.links
      ensures Key(Faqs, l.faq) != a.key
      ensures KeptKey(hidden, d'.rows, Key(Faqs, l.faq)) <==> KeptKey(hidden, d.rows, Key(Faqs, l.faq))
    {
    }
  }

  lemma {:induction false} PurgedAddAll(hidden: set<Org>, d: Db, org: Org, adds: seq<Addition>)
    requires LinksKnown(d) && Placed(d.rows, org, adds)
    ensures Purged(hidden, AddAll(d, adds)) == if org in hidden then Purged(hidden, d) else AddAll(Purged(hidden, d), adds)
    decreases |adds|
  {
    hide LinksKnown, Placed, PlacedOne, Purged, Add;
    if adds != [] {
      PlacedRest(d, org, adds);
      PurgedAdd(hidden, d, org, adds[0]);
      PurgedAddAll(hidden, Add(d, adds[0]), org, adds[1..]);
    }
  }

  lemma PurgedInsert(hidden: set<Org>, db: Db, p: Process, id: nat)
    requires DbOk(db) && ProcessOk(db.rows, p) && p.pc.Inserting? && Insertable(db, p, id)
    ensures Inserts(p.request) && p.ctx == Some(p.org)
    ensures Purged(hidden, Insert(db, p, id).0)
         == if p.org in hidden then Purged(hidden, db) else AddAll(Purged(hidden, db), Additions(p, p.org, id))
  {
    hide DbOk, Fits, Placed, LinksKnown, Purged, AddAll, Additions, Resolved;
    AdditionsFit(db, p, id);
    PlacedFits(db.rows, p.org, Additions(p, p.org, id));
    DbLinksKnown(db);
    PurgedAddAll(hidden, db, p.org, Additions(p, p.org, id));
  }

  /** A step of a kept request does the same with and without the hidden rows. */
  lemma KeptAct(hidden: set<Org>, db: Db, p: Process, id: nat, ok: bool)
    requires Comparable(hidden, db, p) && p.org !in hidden && Fresh(db.rows, p, id)
    requires p.pc.ShareWrite? ==> KeptKey(hidden, db.rows, p.request.key)
    ensures Act(Purged(hidden, db), p, id, ok).0 == Purged(hidden, Act(db, p, id, ok).0)
    ensures Alike(hidden, db.rows, Act(db, p, id, ok).1, Act(Purged(hidden, db), p, id, ok).1)
  {
    hide DbOk, Purged, First, AfterSharedQuery, AfterLinking, AfterShareQuery, Resolve, Insert, WriteShare, LostShare, KeptKey;
    match p.pc
    case Start => KeptFirst(hidden, db, p, ok);
    case Resolving(stage) =>
      if ok {
        KeptResolve(hidden, db, p, stage);
      }
    case Inserting =>
      if ok {
        KeptInsert(hidden, db, p, id);
      }
    case ShareQuery(_) => KeptShareQuery(hidden, db, p, ok);
    case ShareWrite(_) =>
      if ok {
        KeptShareWrite(hidden, db, p);
      }
    case Done(_) =>
    case _ => KeptReads(hidden, db, p, ok);
  }

  /** A step of a hidden request changes nothing outside the hidden organisations. */
  lemma HiddenAct(hidden: set<Org>, db: Db, p: Process, id: nat, ok: bool)
    requires Comparable(hidden, db, p) && p.org in hidden
    ensures Purged(hidden, Act(db, p, id, ok).0) == Purged(hidden, db)
  {
    hide DbOk, Purged, Insertable, AddAll, Additions, Resolved, First, AfterSharedQuery, AfterLinking, Resolve;
    if p.pc.Inserting? && ok && Insertable(db, p, id) {
      PurgedInsert(hidden, db, p, id);
    }
  }

  /** A lost share keeps looking for its answer and changes nothing outside either. */
  lemma LostAct(hidden: set<Org>, db: Db, p: Process, q: Process, id: nat, ok: bool)
    requires Comparable(hidden, db, p) && LostShare(hidden, db.rows, p, q)
    ensures Purged(hidden, Act(db, p, id, ok).0) == Purged(hidden, db)
    ensures Act(Purged(hidden, db), q, id, ok) == (Purged(hidden, db), q)
    ensures LostShare(hidden, db.rows, Act(db, p, id, ok).1, q)
  {
    hide DbOk, Purged;
    var key := p.request.key;
    assert !db.rows[key].shared;
    if p.pc.ShareWrite? && ok {
      assert db.rows[key].(shared := false) == db.rows[key];
      assert db.rows[key := db.rows[key]] == db.rows;
    }
  }

  lemma AlikeGrows(hidden: set<Org>, rows: Rows, rows': Rows, p: Process, q: Process)
    requires Alike(hidden, rows, p, q) && Grows(rows, rows')
    ensures Alike(hidden, rows', p, q)
  {
  }

  lemma OrdinaryGrows(hidden: set<Org>, rows: Rows, rows': Rows, p: Process)
    requires Ordinary(hidden, rows, p) && Grows(rows, rows')
    ensures Ordinary(hidden, rows', p)
  {
  }

  /** What a step can add to a hidden organisation carries no platform administrator's snapshot. */
  lemma ActOrdinary(hidden: set<Org>, db: Db, p: Process, id: nat, ok: bool)
    requires Comparable(hidden, db, p)
    ensures Ordinary(hidden, Act(db, p, id, ok).0.rows, Act(db, p, id, ok).1)
    ensures forall key :: key in Act(db, p, id, ok).0.rows && Act(db, p, id, ok).0.rows[key].org in hidden ==>
                            Act(db, p, id, ok).0.rows[key].snapshot == Other
  {
    hide DbOk, ProcessOk, First, Resolve, AfterShareQuery, Targets, Insert, WriteShare, AfterSharedQuery, AfterLinking;
    ActKeeps(db, p, id, ok);
    if p.org !in hidden && (p.pc.SharedQuery? || p.pc.Linking?) {
      KeptReads(hidden, db, p, ok);
    }
    ActStays(hidden, db, p, id, ok);
  }

  lemma ActStays(hidden: set<Org>, db: Db, p: Process, id: nat, ok: bool)
    requires Comparable(hidden, db, p)
    ensures Act(db, p, id, ok).1.pc.Linking? ==> p.pc.SharedQuery? || p.pc.Linking?
    ensures forall key :: key in Act(db, p, id, ok).0.rows && Act(db, p, id, ok).0.rows[key].org in hidden ==>
                            Act(db, p, id, ok).0.rows[key].snapshot == Other
  {
    hide DbOk, Resolved, Select, Targets, AddAll, Additions, Insertable, SnapshotFor;
    forall key | key in Act(db, p, id, ok).0.rows && Act(db, p, id, ok).0.rows[key].org in hidden
      ensures Act(db, p, id, ok).0.rows[key].snapshot == Other
    {
      if p.pc.Inserting? {
        if key in db.rows {
          InsertLeaves(db, p, id, key);
        } else {
          InsertedRow(db, p, id, key);
          OrdinarySnapshot(key.table);
        }
      }
    }
  }

  lemma OrdinarySnapshot(table: Table)
    ensures SnapshotFor(table, false) == Other
  {
  }

  lemma UnprivilegedStep(hidden: set<Org>, s: State, e: Event)
    requires Inv(s) && Unprivileged(hidden, s)
    requires e.Begin? && e.org in hidden ==> e.user !in s.superusers
    ensures Unprivileged(hidden, Step(s, e))
  {
    hide DbOk, ProcessOk, Act, Ordinary;
    match e
    case Begin(pid, user, org, request) => BeginOrdinary(hidden, s.db.rows, user, user in s.superusers, org, request);
    case Advance(pid, id, ok) =>
      if pid in s.processes {
        HiddenRowsUnshared(hidden, s);
        ActOrdinary(hidden, s.db, s.processes[pid], id, ok);
        ActKeeps(s.db, s.processes[pid], id, ok);
        forall q | q in s.processes && q != pid ensures Ordinary(hidden, Step(s, e).db.rows, s.processes[q]) {
          OrdinaryGrows(hidden, s.db.rows, Step(s, e).db.rows, s.processes[q]);
        }
      }
    case _ =>
  }

  lemma BeginOrdinary(hidden: set<Org>, rows: Rows, user: UserId, superuser: bool, org: Org, request: Request)
    requires org in hidden ==> !superuser
    ensures Ordinary(hidden, rows, Process(user, superuser, org, Some(org), request, Start))
  {
  }

  lemma HiddenRowsUnshared(hidden: set<Org>, s: State)
    requires Inv(s) && Unprivileged(hidden, s)
    ensures forall pid :: pid in s.processes ==> Comparable(hidden, s.db, s.processes[pid])
  {
    hide ProcessOk, Ordinary;
    forall key | key in s.db.rows && s.db.rows[key].org in hidden ensures !s.db.rows[key].shared {
      assert RowOk(s.db.rows, key);
    }
  }

  /** One step of the run, against the same step, or none, of the purged run. */
  lemma RelatedStep(hidden: set<Org>, s: State, t: State, e: Event)
    requires Inv(s) && Unprivileged(hidden, s) && Related(hidden, s, t) && Legal(s, e)
    ensures Related(hidden, Step(s, e), if HiddenEvent(hidden, s, e) then t else Step(t, e))
  {
    hide DbOk, ProcessOk, Act, Ordinary, Alike, Purged, Comparable;
    match e
    case Begin(pid, user, org, request) =>
      if org !in hidden && Served(request) {
        AlikeSelf(hidden, s.db.rows, Process(user, user in s.superusers, org, Some(org), request, Start));
      }
    case Advance(pid, id, ok) =>
      if pid in s.processes {
        RelatedAdvance(hidden, s, t, pid, id, ok);
      }
    case _ =>
  }

  lemma ComparableOk(hidden: set<Org>, db: Db, p: Process)
    requires Comparable(hidden, db, p)
    ensures DbOk(db) && ProcessOk(db.rows, p)
  {
  }

  lemma AlikeSelf(hidden: set<Org>, rows: Rows, p: Process)
    requires !p.pc.ShareWrite?
    ensures Alike(hidden, rows, p, p)
  {
  }

  lemma AlikeAct(hidden: set<Org>, db: Db, p: Process, q: Process, id: nat, ok: bool)
    requires Comparable(hidden, db, p) && p.org !in hidden && Alike(hidden, db.rows, p, q) && Fresh(db.rows, p, id)
    ensures Act(Purged(hidden, db), q, id, ok).0 == Purged(hidden, Act(db, p, id, ok).0)
    ensures Alike(hidden, db.rows, Act(db, p, id, ok).1, Act(Purged(hidden, db), q, id, ok).1)
  {
    hide DbOk, Act, Purged, LostShare;
    if p == q && (p.pc.ShareWrite? ==> p.request.Share? && KeptKey(hidden, db.rows, p.request.key)) {
      KeptAct(hidden, db, p, id, ok);
    } else {
      LostAct(hidden, db, p, q, id, ok);
    }
  }

  lemma RelatedAdvance(hidden: set<Org>, s: State, t: State, pid: Pid, id: nat, ok: bool)
    requires Inv(s) && Unprivileged(hidden, s) && Related(hidden, s, t) && Legal(s, Advance(pid, id, ok)) && pid in s.processes
    ensures Related(hidden, Step(s, Advance(pid, id, ok)),
                    if s.processes[pid].org in hidden then t else Step(t, Advance(pid, id, ok)))
  {
    hide DbOk, ProcessOk, Act, Ordinary, Alike, Purged, Comparable, Fresh;
    var p := s.processes[pid];
    var s' := Step(s, Advance(pid, id, ok));
    HiddenRowsUnshared(hidden, s);
    ComparableOk(hidden, s.db, p);
    ActKeeps(s.db, p, id, ok);
    if p.org in hidden {
      HiddenAct(hidden, s.db, p, id, ok);
    } else {
      AlikeAct(hidden, s.db, p, t.processes[pid], id, ok);
      AlikeGrows(hidden, s.db.rows, s'.db.rows, s'.processes[pid], Step(t, Advance(pid, id, ok)).processes[pid]);
    }
    forall other | other in t.processes && other != pid
      ensures Alike(hidden, s'.db.rows, s.processes[other], t.processes[other])
    {
      AlikeGrows(hidden, s.db.rows, s'.db.rows, s.processes[other], t.processes[other]);
    }
  }

  /** Removing every event of the hidden organisations from a run, whatever the interleaving, leaves
      every other request where it was. */
  lemma {:induction false} PurgeRun(hidden: set<Org>, s: State, t: State, es: seq<Event>)
    requires Inv(s) && Unprivileged(hidden, s) && Related(hidden, s, t)
    requires LegalRun(s, es) && NoAdminIn(hidden, s, es)
    ensures Related(hidden, After(s, es), After(t, PurgedRun(hidden, s, es)))
    decreases |es|
  {
    hide Inv, Unprivileged, Related, Legal, HiddenEvent, Step;
    if es != [] {
      var e := es[0];
      InvStep(s, e);
      UnprivilegedStep(hidden, s, e);
      RelatedStep(hidden, s, t, e);
      var rest := PurgedRun(hidden, Step(s, e), es[1..]);
      if HiddenEvent(hidden, s, e) {
        PurgeRun(hidden, Step(s, e), t, es[1..]);
        assert [] + rest == rest;
      } else {
        PurgeRun(hidden, Step(s, e), Step(t, e), es[1..]);
        assert ([e] + rest)[1..] == rest;
      }
    }
  }

  /** The main theorem. Take any run in which no platform administrator works for the hidden
      organisations, and drop everything those organisations did. Every request of the others gets the
      same answer in the same place, except an administrator's attempt to change the flag of a hidden
      row, which then finds no row. */
  lemma HiddenOrganisationsCannotBeNoticed(hidden: set<Org>, es: seq<Event>, pid: Pid)
    requires LegalRun(INIT, es) && NoAdminIn(hidden, INIT, es)
    requires pid in After(INIT, es).processes && After(INIT, es).processes[pid].org !in hidden
    ensures var p := After(INIT, es).processes[pid];
            var rows := After(INIT, es).db.rows;
            var without := After(INIT, PurgedRun(hidden, INIT, es)).processes;
            && pid in without
            && (without[pid] == p || (p.request.Share? && p.superuser && without[pid].pc == Done(NotFound)
                                      && p.request.key in rows && rows[p.request.key].org in hidden))
  {
    hide LegalRun, NoAdminIn, PurgedRun, Purged;
    InvInit();
    assert Related(hidden, INIT, INIT) by {
      NothingPurged(hidden);
    }
    PurgeRun(hidden, INIT, INIT, es);
  }

  lemma NothingPurged(hidden: set<Org>)
    ensures Purged(hidden, INIT.db) == INIT.db
  {
  }
}
