/** What each request over the tenant-scoped tables answers, and what it changes, when nothing fails
    and nobody else runs in between. */
module Answers {
  import opened Options
  import opened Text
  import opened Tenancy
  import opened Requests
  import opened Sharing
  import opened Isolation

  /** A request that is about to start. */
  function Fresh(user: UserId, superuser: bool, org: Org, request: Request): Process {
    Process(user, superuser, org, Some(org), request, Start)
  }

  /** The next `steps` steps without interruption or failure; `id` is the next primary key. */
  function Alone(db: Db, p: Process, id: nat, steps: nat): (Db, Process)
    decreases steps
  {
    if steps == 0 then (db, p)
    else
      var (db', p') := Act(db, p, id, true);
      Alone(db', p', id, steps - 1)
  }

  lemma AloneStep(db: Db, p: Process, id: nat, steps: nat)
    requires steps > 0
    ensures Alone(db, p, id, steps) == Alone(Act(db, p, id, true).0, Act(db, p, id, true).1, id, steps - 1)
    ensures Alone(db, p, id, 0) == (db, p)
  {
    hide Act;
  }

  lemma SelectedShared(rows: Rows, org: Org, table: Table, key: Key)
    ensures key in Select(rows, None, table, OwnedOrShared(org, All)) <==> key.table == table && InView(org, rows, key)
    ensures key in Select(rows, None, table, OwnedOrShared(org, HasId(key.id))) <==> key.table == table && InView(org, rows, key)
  {
    if key in rows {
      assert Matches(All, key, rows[key]) && Matches(HasId(key.id), key, rows[key]);
    }
  }

  /** Exactly the organisation's own and the shared rows of the table, and the binding is back. */
  lemma ListSharedAnswer(db: Db, user: UserId, superuser: bool, org: Org, table: Table, id: nat)
    ensures var (db', p) := Alone(db, Fresh(user, superuser, org, ListShared(table)), id, 2);
            && db' == db && p.ctx == Some(org) && p.pc.Done? && p.pc.answer.Found?
            && (forall key :: key in p.pc.answer.rows <==>
                  key in db.rows && key.table == table && (db.rows[key].org == org || db.rows[key].shared))
            && (forall key :: key in p.pc.answer.rows ==> p.pc.answer.rows[key] == db.rows[key])
  {
    hide Matches, Alone;
    var p0 := Fresh(user, superuser, org, ListShared(table));
    var p1 := p0.(ctx := None, pc := SharedQuery(Some(org)));
    var found := Select(db.rows, None, table, OwnedOrShared(org, All));
    AloneStep(db, p0, id, 2);
    AloneStep(db, p1, id, 1);
    AloneStep(db, p0.(pc := Done(Found(found))), id, 1);
    forall key ensures key in found <==> key.table == table && InView(org, db.rows, key) {
      SelectedShared(db.rows, org, table, key);
    }
  }

  /** A request served by the application begins with the loaded role, its own organisation bound. Not
      served are lists of shared rows, new categories and sharing for tables that have no such thing. */
  lemma BeginExact(s: State, pid: Pid, user: UserId, org: Org, request: Request)
    requires pid !in s.processes
    ensures var r := request;
            var absent := || (r.ListShared? && (r.table == QuestionCategories || r.table == Faqs))
                          || (r.CreateCategory? && (r.table == Sources || r.table == Faqs))
                          || (r.Share? && r.key.table == QuestionCategories)
                          || (r.ListOwn? && (r.where.OwnedOrShared? || r.where.Scoped?));
            Step(s, Begin(pid, user, org, r))
            == if absent then s else s.(processes := s.processes[pid := Fresh(user, user in s.superusers, org, r)])
  {
  }

  /** Every other event: a promotion or demotion touches one user's role, an advance the process it names
      and the database, by one step of that process. */
  lemma EventExact(s: State, user: UserId, pid: Pid, id: nat, ok: bool)
    requires pid in s.processes
    ensures forall u :: u in Step(s, Promote(user)).superusers <==> u == user || u in s.superusers
    ensures forall u :: u in Step(s, Demote(user)).superusers <==> u != user && u in s.superusers
    ensures forall e :: (e == Promote(user) || e == Demote(user)) ==>
              Step(s, e).db == s.db && Step(s, e).processes == s.processes
    ensures var s' := Step(s, Advance(pid, id, ok));
            && s'.superusers == s.superusers && s'.processes.Keys == s.processes.Keys
            && (forall other :: other in s.processes && other != pid ==> s'.processes[other] == s.processes[other])
            && (s'.db, s'.processes[pid]) == Act(s.db, s.processes[pid], id, ok)
  {
    hide Act;
  }

  /** A query or a write that fails ends the request as failed, with its own organisation bound again and
      the database as it was. */
  lemma FailureAnswer(db: Db, p: Process, id: nat)
    requires ProcessOk(db.rows, p) && !p.pc.Done?
    requires p.pc.Start? ==> p.request.ListOwn? || p.request.CreateCategory? || p.request.CreateSource?
    ensures Act(db, p, id, false) == (db, Process(p.user, p.superuser, p.org, Some(p.org), p.request, Done(Failed)))
  {
    hide Resolve, Insert, Targets, Select;
  }

  /** The condition of a list request, spelled out; names of question categories are compared without
      regard to case. */
  predicate Meets(where: Where, key: Key, row: Row)
    requires !where.OwnedOrShared? && !where.Scoped?
  {
    && (where.HasId? ==> key.id == where.id)
    && (where.IdIn? ==> exists i :: 0 <= i < |where.ids| && where.ids[i] == key.id)
    && (where.Named? && key.table == QuestionCategories ==> Lower(row.name) == Lower(where.name))
    && (where.Named? && key.table != QuestionCategories ==> row.name == where.name)
  }

  /** Exactly the organisation's own rows of the table that meet the condition: no shared row of another
      organisation, and nothing else changes. */
  lemma ListOwnAnswer(db: Db, user: UserId, superuser: bool, org: Org, table: Table, where: Where, id: nat)
    requires !where.OwnedOrShared? && !where.Scoped?
    ensures var (db', p) := Alone(db, Fresh(user, superuser, org, ListOwn(table, where)), id, 1);
            && db' == db && p.ctx == Some(org) && p.pc.Done? && p.pc.answer.Found?
            && (forall key :: key in p.pc.answer.rows <==>
                  key in db.rows && key.table == table && db.rows[key].org == org && Meets(where, key, db.rows[key]))
            && (forall key :: key in p.pc.answer.rows ==> p.pc.answer.rows[key] == db.rows[key])
  {
    hide Alone;
    var p0 := Fresh(user, superuser, org, ListOwn(table, where));
    var found := Select(db.rows, Some(org), table, where);
    AloneStep(db, p0, id, 1);
    AloneStep(db, p0.(pc := Done(Found(found))), id, 1);
    forall key | key in db.rows ensures Matches(where, key, db.rows[key]) <==> Meets(where, key, db.rows[key]) {
      if where.IdIn? && key.id in where.ids {
        var i :| 0 <= i < |where.ids| && where.ids[i] == key.id;
      }
    }
  }

  /** A whole FAQ: its row and exactly its junction rows. Rows without question-category junctions fall
      back to their single category. */
  ghost predicate Reads(db: Db, key: Key, answer: Answer) {
    && key in db.rows && answer.FaqRead? && answer.key == key && answer.row == db.rows[key]
    && (forall t :: t in answer.sourceCategories <==> Link(SourceCategories, key.id, t) in db.links)
    && (forall t :: t in answer.sources <==> Link(Sources, key.id, t) in db.links)
    && if (exists t :: Link(QuestionCategories, key.id, t) in db.links) || answer.row.category.None?
       then forall t :: t in answer.questionCategories <==> Link(QuestionCategories, key.id, t) in db.links
       else answer.questionCategories == {answer.row.category.value}
  }

  lemma TargetsExact(links: set<Link>, kind: Table, faq: nat, t: nat)
    ensures t in Targets(links, kind, faq) <==> Link(kind, faq, t) in links
  {
    if t in Targets(links, kind, faq) {
      var l :| l in links && l.kind == kind && l.faq == faq && l.target == t;
      assert l == Link(kind, faq, t);
    }
  }

  lemma ReadOfReads(db: Db, key: Key)
    requires key in db.rows
    ensures Reads(db, key, ReadOf(db, key, db.rows[key]))
  {
    hide Targets;
    forall t, kind ensures t in Targets(db.links, kind, key.id) <==> Link(kind, key.id, t) in db.links {
      TargetsExact(db.links, kind, key.id, t);
    }
    if t :| Link(QuestionCategories, key.id, t) in db.links {
      assert t in Targets(db.links, QuestionCategories, key.id);
    }
  }

  function ReadOf(db: Db, key: Key, row: Row): Answer {
    var linked := Targets(db.links, QuestionCategories, key.id);
    FaqRead(key, row, if linked == {} && row.category.Some? then {row.category.value} else linked,
            Targets(db.links, SourceCategories, key.id), Targets(db.links, Sources, key.id))
  }

  /** An FAQ of the organisation's own, or a shared one, in full. Any other FAQ is not found. */
  lemma GetFaqAnswer(db: Db, user: UserId, superuser: bool, org: Org, faq: nat, id: nat)
    ensures var (db', p) := Alone(db, Fresh(user, superuser, org, GetFaq(faq)), id, 5);
            var key := Key(Faqs, faq);
            var visible := key in db.rows && (db.rows[key].org == org || db.rows[key].shared);
            && db' == db && p.ctx == Some(org)
            && (!visible ==> p.pc == Done(NotFound))
            && (visible ==> p.pc.Done? && Reads(db, key, p.pc.answer))
  {
    hide Targets, Matches, Alone, Reads;
    var p0 := Fresh(user, superuser, org, GetFaq(faq));
    var key := Key(Faqs, faq);
    AloneStep(db, p0, id, 5);
    AloneStep(db, p0.(ctx := None, pc := SharedQuery(Some(org))), id, 4);
    SelectedShared(db.rows, org, Faqs, key);
    if InView(org, db.rows, key) {
      assert Act(db, p0.(ctx := None, pc := SharedQuery(Some(org))), id, true) == (db, p0.(pc := Linking(key, db.rows[key], [])));
      JunctionReads(db, p0.(pc := Linking(key, db.rows[key], [])), id);
      ReadOfReads(db, key);
    } else {
      assert Act(db, p0.(ctx := None, pc := SharedQuery(Some(org))), id, true) == (db, Finish(p0, NotFound));
      Finished(db, p0, NotFound, id, 3);
    }
  }

  lemma {:induction false} Finished(db: Db, p: Process, answer: Answer, id: nat, steps: nat)
    ensures Alone(db, Finish(p, answer), id, steps) == (db, Finish(p, answer))
    decreases steps
  {
    if steps > 0 {
      Finished(db, p, answer, id, steps - 1);
    }
  }

  lemma JunctionReads(db: Db, p: Process, id: nat)
    requires p.pc.Linking? && p.pc.got == []
    ensures Alone(db, p, id, 3) == (db, Finish(p, ReadOf(db, p.pc.key, p.pc.row)))
  {
    hide Targets, Alone;
    var key, row := p.pc.key, p.pc.row;
    var one := [Targets(db.links, QuestionCategories, key.id)];
    var two := one + [Targets(db.links, SourceCategories, key.id)];
    assert [] + one == one;
    AloneStep(db, p, id, 3);
    AloneStep(db, p.(pc := Linking(key, row, one)), id, 2);
    AloneStep(db, p.(pc := Linking(key, row, two)), id, 1);
    AloneStep(db, Finish(p, ReadOf(db, key, row)), id, 1);
  }

  predicate Usable(rows: Rows, org: Org, table: Table, ids: seq<nat>) {
    ids != [] && forall i :: 0 <= i < |ids| ==> Key(table, ids[i]) in rows && rows[Key(table, ids[i])].org == org
  }

  /** A lookup goes on exactly when the list is not empty and all its ids are the organisation's own.
      Shared rows of others do not count. */
  lemma ResolveExact(db: Db, p: Process, stage: nat)
    requires p.request.CreateFaqs? && p.ctx == Some(p.org) && stage < 3 * |p.request.items|
    ensures Resolve(db, p, stage)
         == if !Usable(db.rows, p.org, LinkTable(stage), LinkIds(p.request.items, stage)) then Finish(p, UnresolvedIds)
            else if stage + 1 < 3 * |p.request.items| then p.(pc := Resolving(stage + 1)) else p.(pc := Inserting)
  {
    hide LinkTable, LinkIds;
    var table, ids := LinkTable(stage), LinkIds(p.request.items, stage);
    var found := Select(db.rows, p.ctx, table, IdIn(ids));
    forall i | 0 <= i < |ids| ensures Key(table, ids[i]) in found <==> InOrg(db.rows, Key(table, ids[i]), p.org) {
    }
  }

  predicate UsableFrom(rows: Rows, org: Org, items: seq<Item>, stage: nat) {
    forall j :: stage <= j < 3 * |items| ==> Usable(rows, org, LinkTable(j), LinkIds(items, j))
  }

  lemma {:induction false} LookupsAlone(db: Db, p: Process, id: nat, stage: nat)
    requires p.request.CreateFaqs? && p.ctx == Some(p.org) && p.pc == Resolving(stage) && stage < 3 * |p.request.items|
    ensures var items := p.request.items;
            Alone(db, p, id, 3 * |items| - stage)
            == (db, if UsableFrom(db.rows, p.org, items, stage) then p.(pc := Inserting) else Finish(p, UnresolvedIds))
    decreases 3 * |p.request.items| - stage
  {
    hide Usable, LinkTable, LinkIds, Alone, Resolve;
    var n := 3 * |p.request.items|;
    AloneStep(db, p, id, n - stage);
    ResolveExact(db, p, stage);
    if !Usable(db.rows, p.org, LinkTable(stage), LinkIds(p.request.items, stage)) {
      Finished(db, p, UnresolvedIds, id, n - stage - 1);
    } else if stage + 1 < n {
      LookupsAlone(db, p.(pc := Resolving(stage + 1)), id, stage + 1);
    } else {
      AloneStep(db, p.(pc := Inserting), id, 1);
    }
  }

  lemma {:induction false} AloneThen(db: Db, p: Process, id: nat, first: nat, more: nat)
    ensures Alone(db, p, id, first + more) == Alone(Alone(db, p, id, first).0, Alone(db, p, id, first).1, id, more)
    decreases first
  {
    hide Act;
    if first > 0 {
      AloneThen(Act(db, p, id, true).0, Act(db, p, id, true).1, id, first - 1, more);
    }
  }

  predicate AllUsable(rows: Rows, org: Org, items: seq<Item>) {
    forall k :: 0 <= k < |items| ==>
      && Usable(rows, org, QuestionCategories, items[k].questionCategories)
      && Usable(rows, org, SourceCategories, items[k].sourceCategories)
      && Usable(rows, org, Sources, items[k].sources)
  }

  lemma UsableStages(rows: Rows, org: Org, items: seq<Item>)
    ensures AllUsable(rows, org, items) <==> UsableFrom(rows, org, items, 0)
  {
    hide Usable;
    if UsableFrom(rows, org, items, 0) {
      forall k | 0 <= k < |items|
        ensures Usable(rows, org, QuestionCategories, items[k].questionCategories)
        ensures Usable(rows, org, SourceCategories, items[k].sourceCategories)
        ensures Usable(rows, org, Sources, items[k].sources)
      {
        assert Usable(rows, org, LinkTable(3 * k), LinkIds(items, 3 * k));
        assert Usable(rows, org, LinkTable(3 * k + 1), LinkIds(items, 3 * k + 1));
        assert Usable(rows, org, LinkTable(3 * k + 2), LinkIds(items, 3 * k + 2));
      }
    }
  }

  /** The junction rows `items` ask for when the k-th becomes the FAQ with key `id + k`. */
  predicate Asked(items: seq<Item>, id: nat, l: Link) {
    && id <= l.faq < id + |items|
    && match l.kind
       case QuestionCategories => l.target in items[l.faq - id].questionCategories
       case SourceCategories => l.target in items[l.faq - id].sourceCategories
       case Sources => l.target in items[l.faq - id].sources
       case Faqs => false
  }

  function FaqKeys(id: nat, n: nat): seq<Key> {
    seq(n, k requires 0 <= k < n => Key(Faqs, id + k))
  }

  /** Every item has its row, in the organisation, unshared and with the creator's snapshot, and exactly
      the junction rows asked for; nothing else has changed. */
  ghost predicate FaqsAdded(db: Db, db': Db, org: Org, superuser: bool, items: seq<Item>, id: nat) {
    && (forall k :: 0 <= k < |items| ==> FaqAdded(db', org, superuser, items[k], id + k))
    && (forall key :: key in db'.rows ==> key in db.rows || (key.table == Faqs && id <= key.id < id + |items|))
    && (forall key :: key in db.rows ==> key in db'.rows && db'.rows[key] == db.rows[key])
    && (forall l :: l in db'.links <==> l in db.links || Asked(items, id, l))
  }

  predicate FaqAdded(db': Db, org: Org, superuser: bool, item: Item, id: nat) {
    && Key(Faqs, id) in db'.rows && item.questionCategories != []
    && db'.rows[Key(Faqs, id)] == Row(org, false, if superuser then PlatformAdmin else Other, item.question,
                                      Some(item.questionCategories[0]))
  }

  predicate Storable(rows: Rows, items: seq<Item>, id: nat) {
    forall k :: 0 <= k < |items| ==> StorableAs(rows, items[k], id + k)
  }

  predicate StorableAs(rows: Rows, item: Item, id: nat) {
    Key(Faqs, id) !in rows && !Repeated(item.questionCategories) && !Repeated(item.sourceCategories) && !Repeated(item.sources)
  }

  /** Some id stands twice in the list. */
  predicate Repeated(ids: seq<nat>) {
    exists i, j :: 0 <= i < j < |ids| && ids[i] == ids[j]
  }

  lemma RepeatedExact(item: Item)
    ensures StorableItem(item) <==>
            !Repeated(item.questionCategories) && !Repeated(item.sourceCategories) && !Repeated(item.sources)
  {
  }

  /** Creating FAQs, one by hand or all that were approved, succeeds exactly when every list of every
      item is usable, no id is repeated within a list and the keys are fresh. Otherwise nothing is added
      at all. */
  lemma CreateFaqsAnswer(db: Db, user: UserId, superuser: bool, org: Org, items: seq<Item>, id: nat)
    ensures var (db', p) := Alone(db, Fresh(user, superuser, org, CreateFaqs(items)), id, 3 * |items| + 2);
            var usable := AllUsable(db.rows, org, items);
            var storable := Storable(db.rows, items, id);
            && p.ctx == Some(org)
            && (!usable ==> db' == db && p.pc == Done(UnresolvedIds))
            && (usable && !storable ==> db' == db && p.pc == Done(Failed))
            && (usable && storable ==>
                  p.pc == Done(Created(FaqKeys(id, |items|))) && FaqsAdded(db, db', org, superuser, items, id))
  {
    hide Alone, AllUsable, Storable, Insert, FaqsAdded, UsableFrom, FaqKeys;
    var p0 := Fresh(user, superuser, org, CreateFaqs(items));
    var ready := p0.(pc := Inserting);
    var next := p0.(pc := if items == [] then Inserting else Resolving(0));
    var n := 3 * |items|;
    AloneStep(db, p0, id, n + 2);
    UsableStages(db.rows, org, items);
    if items == [] {
      NothingUsable(db.rows, org, items);
      AloneStep(db, ready, id, 1);
    } else {
      LookupsAlone(db, next, id, 0);
    }
    AloneThen(db, next, id, n, 1);
    if AllUsable(db.rows, org, items) {
      assert Alone(db, next, id, n) == (db, ready);
      AloneStep(db, ready, id, 1);
      AloneStep(Insert(db, ready, id).0, Insert(db, ready, id).1, id, 1);
      InsertFaqs(db, ready, id);
    } else {
      Finished(db, p0, UnresolvedIds, id, 1);
    }
  }

  lemma NothingUsable(rows: Rows, org: Org, items: seq<Item>)
    requires items == []
    ensures AllUsable(rows, org, items)
  {
  }

  lemma InsertFaqs(db: Db, p: Process, id: nat)
    requires p.request.CreateFaqs? && p.ctx == Some(p.org) && AllUsable(db.rows, p.org, p.request.items)
    ensures var (db', q) := Insert(db, p, id);
            var items := p.request.items;
            var storable := Storable(db.rows, items, id);
            && (!storable ==> db' == db && q == Finish(p, Failed))
            && (storable ==> q == Finish(p, Created(FaqKeys(id, |items|))) && FaqsAdded(db, db', p.org, p.superuser, items, id))
  {
    hide StorableItem, FaqAddition, AddAll, AllUsable, FaqsAdded, Storable, Insertable;
    var items := p.request.items;
    var adds := Additions(p, p.org, id);
    InsertableFaqs(db, p, id);
    if Insertable(db, p, id) {
      forall k | 0 <= k < |items| ensures adds[k].key == Key(Faqs, id + k) {
        FaqKey(p.org, p.superuser, items[k], id + k);
      }
      assert KeysOf(adds) == FaqKeys(id, |items|);
      AddedFaqs(db, p, id);
    }
  }

  lemma AddedFaqs(db: Db, p: Process, id: nat)
    requires p.request.CreateFaqs? && p.ctx == Some(p.org) && AllUsable(db.rows, p.org, p.request.items)
    requires Insertable(db, p, id)
    ensures FaqsAdded(db, AddAll(db, Additions(p, p.org, id)), p.org, p.superuser, p.request.items, id)
  {
    hide StorableItem, FaqAddition, AddAll, Asked, Usable, FaqAdded;
    var items := p.request.items;
    var adds := Additions(p, p.org, id);
    forall k | 0 <= k < |items| ensures adds[k].key == Key(Faqs, id + k) {
      FaqKey(p.org, p.superuser, items[k], id + k);
    }
    assert forall k :: 0 <= k < |items| ==> adds[k] == FaqAddition(p.org, p.superuser, items[k], id + k);
    forall key
      ensures key in AddAll(db, adds).rows ==> key in db.rows || (key.table == Faqs && id <= key.id < id + |items|)
      ensures key in db.rows ==> key in AddAll(db, adds).rows && AddAll(db, adds).rows[key] == db.rows[key]
    {
      AddedRows(db, adds, key);
    }
    forall k | 0 <= k < |items| ensures FaqAdded(AddAll(db, adds), p.org, p.superuser, items[k], id + k) {
      OneFaqAdded(db, p, id, k);
    }
    forall l ensures l in AddAll(db, adds).links <==> l in db.links || Asked(items, id, l) {
      AddedLinks(db, adds, l);
      LinkAsked(p.org, p.superuser, items, id, l);
    }
  }

  lemma OneFaqAdded(db: Db, p: Process, id: nat, k: nat)
    requires p.request.CreateFaqs? && AllUsable(db.rows, p.org, p.request.items) && k < |p.request.items|
    requires Unused(db.rows, Additions(p, p.org, id))
    ensures FaqAdded(AddAll(db, Additions(p, p.org, id)), p.org, p.superuser, p.request.items[k], id + k)
  {
    hide AddAll, LinksOf, Usable;
    var items := p.request.items;
    var adds := Additions(p, p.org, id);
    assert Usable(db.rows, p.org, QuestionCategories, items[k].questionCategories);
    UsableNotEmpty(db.rows, p.org, QuestionCategories, items[k].questionCategories);
    assert forall i :: 0 <= i < |items| ==> adds[i].key == Key(Faqs, id + i);
    AddedKeys(db, adds, adds[k].key);
    AddedRows(db, adds, adds[k].key);
  }

  lemma InsertableFaqs(db: Db, p: Process, id: nat)
    requires p.request.CreateFaqs? && p.ctx == Some(p.org)
    ensures Insertable(db, p, id) <==> Storable(db.rows, p.request.items, id)
  {
    hide FaqAddition, StorableItem, Repeated;
    var items := p.request.items;
    var adds := Additions(p, p.org, id);
    forall k | 0 <= k < |items| ensures adds[k].key == Key(Faqs, id + k) {
      RepeatedExact(items[k]);
      FaqKey(p.org, p.superuser, items[k], id + k);
    }
    if Insertable(db, p, id) {
      forall k | 0 <= k < |items| ensures StorableAs(db.rows, items[k], id + k) {
        RepeatedExact(items[k]);
        assert adds[k].key !in db.rows;
      }
    }
    if Storable(db.rows, items, id) {
      forall k | 0 <= k < |adds| ensures adds[k].key !in db.rows && StorableItem(items[k]) {
        assert StorableAs(db.rows, items[k], id + k);
        RepeatedExact(items[k]);
      }
    }
  }

  lemma UsableNotEmpty(rows: Rows, org: Org, table: Table, ids: seq<nat>)
    requires Usable(rows, org, table, ids)
    ensures ids != []
  {
  }

  lemma AddSingle(db: Db, a: Addition)
    ensures AddAll(db, [a]) == Add(db, a) && KeysOf([a]) == [a.key]
  {
    assert [a][1..] == [];
    assert AddAll(Add(db, a), []) == Add(db, a);
  }

  lemma {:induction false} AddedKeys(db: Db, adds: seq<Addition>, key: Key)
    ensures key in AddAll(db, adds).rows <==> key in db.rows || exists k :: 0 <= k < |adds| && adds[k].key == key
    decreases |adds|
  {
    if adds != [] {
      AddedKeys(Add(db, adds[0]), adds[1..], key);
      assert forall k :: 0 < k < |adds| ==> adds[k] == adds[1..][k - 1];
    }
  }

  lemma {:induction false} AddedLinks(db: Db, adds: seq<Addition>, l: Link)
    ensures l in AddAll(db, adds).links <==> l in db.links || exists k :: 0 <= k < |adds| && l in adds[k].links
    decreases |adds|
  {
    if adds != [] {
      AddedLinks(Add(db, adds[0]), adds[1..], l);
      assert forall k :: 0 < k < |adds| ==> adds[k] == adds[1..][k - 1];
    }
  }

  lemma LinkAsked(org: Org, superuser: bool, items: seq<Item>, id: nat, l: Link)
    ensures Asked(items, id, l) <==> exists k :: 0 <= k < |items| && l in FaqAddition(org, superuser, items[k], id + k).links
  {
    hide IdsOf, SnapshotFor, LinksOf;
    forall k | 0 <= k < |items| ensures l in LinksOf(items[k], id + k) <==> l.faq == id + k && Asked(items, id, l) {
      LinkOfItem(items, id, k, l);
    }
    if Asked(items, id, l) {
      assert l in FaqAddition(org, superuser, items[l.faq - id], id + (l.faq - id)).links;
    }
  }

  lemma LinkOfItem(items: seq<Item>, id: nat, k: nat, l: Link)
    requires k < |items|
    ensures l in LinksOf(items[k], id + k) <==> l.faq == id + k && Asked(items, id, l)
  {
    if l.faq == id + k && Asked(items, id, l) {
      assert l == Link(l.kind, id + k, l.target);
    }
  }

  /** One of the organisation's rows of the table that has this name; names of question categories are
      compared without regard to case. */
  predicate HasName(rows: Rows, org: Org, table: Table, name: string, key: Key) {
    && key in rows && key.table == table && rows[key].org == org
    && if table == QuestionCategories then Lower(rows[key].name) == Lower(name) else rows[key].name == name
  }

  /** A category is created exactly when the organisation has none of that name yet. One such category is
      reported as a duplicate; two, which differ in case only, make the request fail. */
  lemma CreateCategoryAnswer(db: Db, user: UserId, superuser: bool, org: Org, table: Table, name: string, id: nat)
    ensures var (db', p) := Alone(db, Fresh(user, superuser, org, CreateCategory(table, name)), id, 2);
            var key := Key(table, id);
            var taken := exists k :: HasName(db.rows, org, table, name, k);
            var twice := exists k, k' ::
                           HasName(db.rows, org, table, name, k) && HasName(db.rows, org, table, name, k') && k != k';
            && p.ctx == Some(org)
            && (taken ==> db' == db && p.pc == Done(if twice then Failed else DuplicateName))
            && (!taken && key in db.rows ==> db' == db && p.pc == Done(Failed))
            && (!taken && key !in db.rows ==>
                  && p.pc == Done(Created([key])) && db'.links == db.links
                  && db'.rows == db.rows[key := Row(org, false,
                                                    if superuser && table != QuestionCategories then PlatformAdmin else Other,
                                                    name, None)])
  {
    hide Alone;
    var p0 := Fresh(user, superuser, org, CreateCategory(table, name));
    var found := Select(db.rows, Some(org), table, Named(name));
    AloneStep(db, p0, id, 2);
    forall k ensures k in found <==> HasName(db.rows, org, table, name, k) {
    }
    if Several(found) {
      Finished(db, p0, Failed, id, 1);
    } else if found != map[] {
      var k :| k in found;
      Finished(db, p0, DuplicateName, id, 1);
    } else {
      forall k | k in db.rows && k.table == table && db.rows[k].org == org ensures !SameName(table, db.rows[k].name, name) {
        assert !HasName(db.rows, org, table, name, k);
      }
      NamesEqual(table, name);
      AddSingle(db, Additions(p0, org, id)[0]);
      AloneStep(db, p0.(pc := Inserting), id, 1);
      var (db', q) := Act(db, p0.(pc := Inserting), id, true);
      AloneStep(db', q, id, 1);
    }
  }

  lemma NamesEqual(table: Table, name: string)
    ensures SameName(table, name, name)
  {
  }

  /** A source is created exactly when its category is one of the organisation's own and the access test
      succeeds. */
  lemma CreateSourceAnswer(db: Db, user: UserId, superuser: bool, org: Org, name: string, category: nat, tested: bool, id: nat)
    ensures var (db', p) := Alone(db, Fresh(user, superuser, org, CreateSource(name, category, tested)), id, 2);
            var source := Key(SourceCategories, category);
            var own := source in db.rows && db.rows[source].org == org;
            var key := Key(Sources, id);
            && p.ctx == Some(org)
            && (!own ==> db' == db && p.pc == Done(NotFound))
            && (own && !tested ==> db' == db && p.pc == Done(SourceTestFailed))
            && (own && tested && key in db.rows ==> db' == db && p.pc == Done(Failed))
            && (own && tested && key !in db.rows ==>
                  && p.pc == Done(Created([key])) && db'.links == db.links
                  && db'.rows == db.rows[key := Row(org, false, if superuser then PlatformAdmin else Other, name,
                                                    Some(category))])
  {
    hide Alone;
    var p0 := Fresh(user, superuser, org, CreateSource(name, category, tested));
    AloneStep(db, p0, id, 2);
    if !InOrg(db.rows, Key(SourceCategories, category), org) {
      Finished(db, p0, NotFound, id, 1);
    } else if !tested {
      Finished(db, p0, SourceTestFailed, id, 1);
    } else {
      AddSingle(db, Additions(p0, org, id)[0]);
      AloneStep(db, p0.(pc := Inserting), id, 1);
      var (db', q) := Act(db, p0.(pc := Inserting), id, true);
      AloneStep(db', q, id, 1);
    }
  }

  /** A row of any organisation is shared exactly by a platform administrator and exactly if a platform
      administrator created it; unsharing needs the former only. Nothing but the flag changes. */
  lemma ShareAnswer(db: Db, user: UserId, superuser: bool, org: Org, key: Key, flag: bool, id: nat)
    ensures var (db', p) := Alone(db, Fresh(user, superuser, org, Share(key, flag)), id, 3);
            var allowed := superuser && key in db.rows && (flag ==> db.rows[key].snapshot == PlatformAdmin);
            && p.ctx == Some(org)
            && (!allowed ==> db' == db)
            && (!allowed ==> p.pc == Done(if !superuser then ShareDenied
                                          else if key !in db.rows then NotFound else ShareIneligible))
            && (allowed ==> db' == db.(rows := db.rows[key := db.rows[key].(shared := flag)]))
            && (allowed ==> p.pc == Done(SharedSet(key, flag)))
  {
    hide Alone;
    var p0 := Fresh(user, superuser, org, Share(key, flag));
    AloneStep(db, p0, id, 3);
    if !superuser {
      Finished(db, p0, ShareDenied, id, 2);
    } else {
      var p1 := p0.(ctx := None, pc := ShareQuery(Some(org)));
      AloneStep(db, p1, id, 2);
      if key !in db.rows {
        Finished(db, p0, NotFound, id, 1);
      } else if flag && db.rows[key].snapshot != PlatformAdmin {
        Finished(db, p0, ShareIneligible, id, 1);
      } else {
        AloneStep(db, p0.(pc := ShareWrite(db.rows[key].shared)), id, 1);
        Finished(WriteShare(db, p0.(pc := ShareWrite(db.rows[key].shared))).0, p0, SharedSet(key, flag), id, 0);
        assert db.rows[key].shared == flag ==> db.rows[key := db.rows[key].(shared := flag)] == db.rows;
      }
    }
  }
}
