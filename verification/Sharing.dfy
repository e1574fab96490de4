/** What holds in every state the concurrent requests can reach: bindings are restored, junction rows
    stay inside one organisation, and only what a platform administrator created can be shared. */
module Sharing {
  import opened Options
  import opened Tenancy
  import opened Requests

  // ---------------------------------------------------------------- the invariant

  /** The organisation is bound, except while a request waits for an unbound query, and then it
      remembers the binding to restore. */
  predicate Bound(p: Process) {
    match p.pc
    case SharedQuery(saved) => p.ctx == None && saved == Some(p.org)
    case ShareQuery(saved) => p.ctx == None && saved == Some(p.org)
    case _ => p.ctx == Some(p.org)
  }

  predicate InOrg(rows: Rows, key: Key, org: Org) {
    key in rows && rows[key].org == org
  }

  predicate AllInOrg(rows: Rows, table: Table, ids: seq<nat>, org: Org) {
    forall i :: 0 <= i < |ids| ==> InOrg(rows, Key(table, ids[i]), org)
  }

  /** The first `stages` lookups have succeeded. */
  predicate Resolved(rows: Rows, org: Org, items: seq<Item>, stages: nat)
    requires stages <= 3 * |items|
  {
    forall j :: 0 <= j < stages ==> LinkIds(items, j) != [] && AllInOrg(rows, LinkTable(j), LinkIds(items, j), org)
  }

  /** What a waiting request has already established about the database. */
  predicate Ready(rows: Rows, p: Process) {
    match p.pc
    case SharedQuery(_) => p.request.ListShared? || p.request.GetFaq?
    case Linking(key, _, got) => p.request.GetFaq? && |got| < 3 && key.table == Faqs && key in rows
    case Resolving(stage) =>
      p.request.CreateFaqs? && stage < 3 * |p.request.items| && Resolved(rows, p.org, p.request.items, stage)
    case Inserting =>
      (match p.request
       case CreateCategory(_, _) => true
       case CreateSource(_, category, _) => InOrg(rows, Key(SourceCategories, category), p.org)
       case CreateFaqs(items) => Resolved(rows, p.org, items, 3 * |items|)
       case _ => false)
    case ShareQuery(_) => p.superuser && p.request.Share?
    case ShareWrite(_) =>
      && p.superuser && p.request.Share? && p.request.key in rows
      && (p.request.shared ==> rows[p.request.key].snapshot == PlatformAdmin)
    case _ => true
  }

  predicate ProcessOk(rows: Rows, p: Process) {
    Served(p.request) && Bound(p) && Ready(rows, p)
  }

  predicate LinkOk(rows: Rows, l: Link) {
    l.kind != Faqs && Key(Faqs, l.faq) in rows && InOrg(rows, Key(l.kind, l.target), rows[Key(Faqs, l.faq)].org)
  }

  predicate RowOk(rows: Rows, key: Key)
    requires key in rows
  {
    var row := rows[key];
    && (row.shared ==> row.snapshot == PlatformAdmin)
    && (key.table == Sources ==> row.category.Some? && InOrg(rows, Key(SourceCategories, row.category.value), row.org))
    && (key.table == Faqs ==> row.category.Some? && InOrg(rows, Key(QuestionCategories, row.category.value), row.org))
  }

  ghost predicate DbOk(db: Db) {
    && (forall key :: key in db.rows ==> RowOk(db.rows, key))
    && (forall l :: l in db.links ==> LinkOk(db.rows, l))
  }

  ghost predicate Inv(s: State) {
    DbOk(s.db) && forall pid :: pid in s.processes ==> ProcessOk(s.db.rows, s.processes[pid])
  }

  /** Rows are never removed, and of an existing row nothing but the flag ever changes. */
  ghost predicate Grows(rows: Rows, rows': Rows) {
    forall key :: key in rows ==> key in rows' && rows'[key].(shared := rows[key].shared) == rows[key]
  }

  predicate SameRequest(p: Process, q: Process) {
    q.user == p.user && q.superuser == p.superuser && q.org == p.org && q.request == p.request
  }

  // ---------------------------------------------------------------- every step keeps it

  lemma AllInOrgGrows(rows: Rows, rows': Rows, table: Table, ids: seq<nat>, org: Org)
    requires Grows(rows, rows') && AllInOrg(rows, table, ids, org)
    ensures AllInOrg(rows', table, ids, org)
  {
    forall i | 0 <= i < |ids| ensures InOrg(rows', Key(table, ids[i]), org) {
      assert InOrg(rows, Key(table, ids[i]), org);
    }
  }

  lemma ResolvedGrows(rows: Rows, rows': Rows, org: Org, items: seq<Item>, stages: nat)
    requires stages <= 3 * |items| && Grows(rows, rows') && Resolved(rows, org, items, stages)
    ensures Resolved(rows', org, items, stages)
  {
    hide AllInOrg, LinkIds, LinkTable, Grows;
    forall j | 0 <= j < stages ensures AllInOrg(rows', LinkTable(j), LinkIds(items, j), org) {
      AllInOrgGrows(rows, rows', LinkTable(j), LinkIds(items, j), org);
    }
  }

  lemma ReadyGrows(rows: Rows, rows': Rows, p: Process)
    requires Grows(rows, rows') && ProcessOk(rows, p)
    ensures ProcessOk(rows', p)
  {
    hide Resolved;
    if p.pc.Resolving? {
      ResolvedGrows(rows, rows', p.org, p.request.items, p.pc.stage);
    } else if p.pc.Inserting? && p.request.CreateFaqs? {
      ResolvedGrows(rows, rows', p.org, p.request.items, 3 * |p.request.items|);
    }
  }

  lemma LinkGrows(rows: Rows, rows': Rows, l: Link)
    requires Grows(rows, rows') && LinkOk(rows, l)
    ensures LinkOk(rows', l)
  {
  }

  lemma RowGrows(rows: Rows, rows': Rows, key: Key)
    requires Grows(rows, rows') && key in rows && RowOk(rows, key)
    requires rows'[key].shared ==> rows'[key].snapshot == PlatformAdmin
    ensures RowOk(rows', key)
  {
  }

  lemma ResolveKeeps(db: Db, p: Process, stage: nat)
    requires ProcessOk(db.rows, p) && p.pc == Resolving(stage)
    ensures ProcessOk(db.rows, Resolve(db, p, stage)) && SameRequest(p, Resolve(db, p, stage))
  {
    hide LinkIds, LinkTable, Matches, Select;
    var items := p.request.items;
    var ids, table := LinkIds(items, stage), LinkTable(stage);
    var found := Select(db.rows, p.ctx, table, IdIn(ids));
    if ids != [] && forall i :: 0 <= i < |ids| ==> Key(table, ids[i]) in found {
      forall i | 0 <= i < |ids| ensures InOrg(db.rows, Key(table, ids[i]), p.org) {
        SelectedOwn(db.rows, p.org, table, IdIn(ids), Key(table, ids[i]));
      }
      assert AllInOrg(db.rows, table, ids, p.org);
      assert Resolved(db.rows, p.org, items, stage + 1);
    }
  }

  lemma SelectedOwn(rows: Rows, org: Org, table: Table, where: Where, key: Key)
    requires key in Select(rows, Some(org), table, where)
    ensures InOrg(rows, key, org)
  {
  }

  // ---------------------------------------------------------------- inserting rows

  /** A new row and its junction rows fit in: it is unshared, and everything it refers to belongs to its
      organisation. */
  predicate AdditionOk(rows: Rows, org: Org, a: Addition) {
    && a.row.org == org && !a.row.shared
    && (a.key.table == Sources ==> a.row.category.Some? && InOrg(rows, Key(SourceCategories, a.row.category.value), org))
    && (a.key.table == Faqs ==> a.row.category.Some? && InOrg(rows, Key(QuestionCategories, a.row.category.value), org))
    && (forall l :: l in a.links ==> Key(Faqs, l.faq) == a.key && l.kind != Faqs && InOrg(rows, Key(l.kind, l.target), org))
  }

  predicate DistinctKeys(adds: seq<Addition>) {
    forall i, j :: 0 <= i < j < |adds| ==> adds[i].key != adds[j].key
  }

  ghost predicate Fits(rows: Rows, org: Org, adds: seq<Addition>) {
    DistinctKeys(adds) && Unused(rows, adds) && forall k :: 0 <= k < |adds| ==> AdditionOk(rows, org, adds[k])
  }

  lemma AddKeeps(db: Db, org: Org, a: Addition)
    requires DbOk(db) && AdditionOk(db.rows, org, a) && a.key !in db.rows
    ensures DbOk(Add(db, a)) && Grows(db.rows, Add(db, a).rows)
  {
    var db' := Add(db, a);
    assert Grows(db.rows, db'.rows);
    forall k | k in db'.rows ensures RowOk(db'.rows, k) {
      if k != a.key {
        RowGrows(db.rows, db'.rows, k);
      }
    }
    forall l | l in db'.links ensures LinkOk(db'.rows, l) {
      if l in db.links {
        LinkGrows(db.rows, db'.rows, l);
      }
    }
  }

  lemma FitsRest(rows: Rows, org: Org, adds: seq<Addition>)
    requires adds != [] && Fits(rows, org, adds)
    ensures AdditionOk(rows, org, adds[0]) && adds[0].key !in rows
    ensures Fits(rows[adds[0].key := adds[0].row], org, adds[1..])
  {
    var rows' := rows[adds[0].key := adds[0].row];
    assert Grows(rows, rows');
    forall k | 0 <= k < |adds[1..]| ensures AdditionOk(rows', org, adds[1..][k]) && adds[1..][k].key !in rows' {
      assert adds[1..][k] == adds[k + 1];
      assert AdditionOk(rows, org, adds[k + 1]);
    }
  }

  lemma {:induction false} AddAllKeeps(db: Db, org: Org, adds: seq<Addition>)
    requires DbOk(db) && Fits(db.rows, org, adds)
    ensures DbOk(AddAll(db, adds)) && Grows(db.rows, AddAll(db, adds).rows)
    decreases |adds|
  {
    hide DbOk, Fits, AdditionOk;
    if adds != [] {
      FitsRest(db.rows, org, adds);
      AddKeeps(db, org, adds[0]);
      AddAllKeeps(Add(db, adds[0]), org, adds[1..]);
    }
  }

  /** The rows there are afterwards: the old ones, untouched, and the new ones. */
  lemma {:induction false} AddedRows(db: Db, adds: seq<Addition>, key: Key)
    requires DistinctKeys(adds) && Unused(db.rows, adds)
    ensures key in db.rows ==> key in AddAll(db, adds).rows && AddAll(db, adds).rows[key] == db.rows[key]
    ensures key !in db.rows && key in AddAll(db, adds).rows ==>
              exists k :: 0 <= k < |adds| && adds[k].key == key && AddAll(db, adds).rows[key] == adds[k].row
    decreases |adds|
  {
    if adds != [] {
      var db' := Add(db, adds[0]);
      forall k | 0 <= k < |adds[1..]| ensures adds[1..][k].key !in db'.rows {
        assert adds[1..][k] == adds[k + 1];
      }
      AddedRows(db', adds[1..], key);
      if key == adds[0].key {
        assert AddAll(db, adds).rows[key] == adds[0].row;
      } else if key !in db.rows && key in AddAll(db, adds).rows {
        var k :| 0 <= k < |adds[1..]| && adds[1..][k].key == key && AddAll(db', adds[1..]).rows[key] == adds[1..][k].row;
        assert adds[k + 1].key == key;
      }
    }
  }

  lemma LinksOfItem(item: Item, id: nat, l: Link)
    requires l in LinksOf(item, id)
    ensures l.faq == id && l.kind in {QuestionCategories, SourceCategories, Sources} && l.target in IdsOf(item, l.kind)
  {
  }

  /** All ids of a validated item are the organisation's own, and there is one of each kind. */
  lemma ItemResolved(rows: Rows, org: Org, items: seq<Item>, k: nat, table: Table)
    requires k < |items| && Resolved(rows, org, items, 3 * |items|) && table in {QuestionCategories, SourceCategories, Sources}
    ensures IdsOf(items[k], table) != [] && AllInOrg(rows, table, IdsOf(items[k], table), org)
  {
    hide AllInOrg;
    var j := 3 * k + if table == QuestionCategories then 0 else if table == SourceCategories then 1 else 2;
    assert j / 3 == k && LinkTable(j) == table;
    assert LinkIds(items, j) == IdsOf(items[k], table);
  }

  lemma FaqAdditionOk(rows: Rows, org: Org, superuser: bool, items: seq<Item>, k: nat, id: nat)
    requires k < |items| && Resolved(rows, org, items, 3 * |items|)
    ensures AdditionOk(rows, org, FaqAddition(org, superuser, items[k], id))
  {
    hide Resolved, SnapshotFor, LinksOf;
    var item := items[k];
    ItemResolved(rows, org, items, k, QuestionCategories);
    assert InOrg(rows, Key(QuestionCategories, item.questionCategories[0]), org);
    forall l | l in LinksOf(item, id)
      ensures l.faq == id && l.kind != Faqs && InOrg(rows, Key(l.kind, l.target), org)
    {
      LinksOfItem(item, id, l);
      ItemResolved(rows, org, items, k, l.kind);
      var i :| 0 <= i < |IdsOf(item, l.kind)| && IdsOf(item, l.kind)[i] == l.target;
      assert InOrg(rows, Key(l.kind, IdsOf(item, l.kind)[i]), org);
    }
  }

  /** What a validated request is about to insert fits in. */
  lemma AdditionsFit(db: Db, p: Process, id: nat)
    requires ProcessOk(db.rows, p) && p.pc.Inserting? && Insertable(db, p, id)
    ensures Inserts(p.request) && p.ctx == Some(p.org)
    ensures Fits(db.rows, p.org, Additions(p, p.org, id))
  {
    hide Resolved, FaqAddition;
    var adds := Additions(p, p.org, id);
    if p.request.CreateFaqs? {
      forall k | 0 <= k < |adds| ensures AdditionOk(db.rows, p.org, adds[k]) && adds[k].key == Key(Faqs, id + k) {
        FaqAdditionOk(db.rows, p.org, p.superuser, p.request.items, k, id + k);
        FaqKey(p.org, p.superuser, p.request.items[k], id + k);
      }
    }
  }

  lemma FaqKey(org: Org, superuser: bool, item: Item, id: nat)
    ensures FaqAddition(org, superuser, item, id).key == Key(Faqs, id)
    ensures FaqAddition(org, superuser, item, id).row.snapshot == SnapshotFor(Faqs, superuser)
  {
  }

  lemma InsertKeeps(db: Db, p: Process, id: nat)
    requires DbOk(db) && ProcessOk(db.rows, p) && p.pc.Inserting?
    ensures Inserts(p.request)
    ensures var (db', p') := Insert(db, p, id);
            DbOk(db') && ProcessOk(db'.rows, p') && Grows(db.rows, db'.rows) && SameRequest(p, p')
  {
    hide DbOk, AddAll, Additions, Fits, Insertable, Resolved;
    if Insertable(db, p, id) {
      AdditionsFit(db, p, id);
      AddAllKeeps(db, p.org, Additions(p, p.org, id));
    }
  }

  lemma WriteShareKeeps(db: Db, p: Process)
    requires DbOk(db) && ProcessOk(db.rows, p) && p.pc.ShareWrite?
    ensures var (db', p') := WriteShare(db, p);
            DbOk(db') && ProcessOk(db'.rows, p') && Grows(db.rows, db'.rows) && SameRequest(p, p')
  {
    var (db', p') := WriteShare(db, p);
    assert Grows(db.rows, db'.rows);
    forall k | k in db'.rows ensures RowOk(db'.rows, k) {
      RowGrows(db.rows, db'.rows, k);
    }
    forall l | l in db'.links ensures LinkOk(db'.rows, l) {
      LinkGrows(db.rows, db'.rows, l);
    }
  }

  lemma FirstKeeps(db: Db, p: Process, ok: bool)
    requires ProcessOk(db.rows, p) && p.pc.Start?
    ensures ProcessOk(db.rows, First(db, p, ok)) && SameRequest(p, First(db, p, ok))
  {
    hide Matches;
  }

  lemma QueryKeeps(db: Db, p: Process, ok: bool)
    requires ProcessOk(db.rows, p) && (p.pc.SharedQuery? || p.pc.Linking? || p.pc.ShareQuery?)
    ensures var p' := Act(db, p, 0, ok).1; ProcessOk(db.rows, p') && SameRequest(p, p')
  {
    hide Resolve, Insert, WriteShare, First, Resolved, Matches, Targets, LinkTable;
  }

  lemma ActKeeps(db: Db, p: Process, id: nat, ok: bool)
    requires DbOk(db) && ProcessOk(db.rows, p)
    ensures var (db', p') := Act(db, p, id, ok);
            DbOk(db') && ProcessOk(db'.rows, p') && Grows(db.rows, db'.rows) && SameRequest(p, p')
  {
    hide DbOk, First, AfterSharedQuery, AfterLinking, AfterShareQuery, Resolve, Insert, WriteShare, Resolved;
    match p.pc
    case Start => FirstKeeps(db, p, ok);
    case Resolving(stage) =>
      if ok {
        ResolveKeeps(db, p, stage);
      }
    case Inserting =>
      if ok {
        InsertKeeps(db, p, id);
      }
    case ShareWrite(_) =>
      if ok {
        WriteShareKeeps(db, p);
      }
    case Done(_) =>
    case _ => QueryKeeps(db, p, ok);
  }

  lemma InvStep(s: State, e: Event)
    requires Inv(s)
    ensures Inv(Step(s, e)) && Grows(s.db.rows, Step(s, e).db.rows)
  {
    hide DbOk, ProcessOk, Act;
    match e
    case Begin(pid, user, org, request) =>
      BeginOk(s.db.rows, user, user in s.superusers, org, request);
    case Advance(pid, id, ok) =>
      if pid in s.processes {
        ActKeeps(s.db, s.processes[pid], id, ok);
        forall q | q in s.processes && q != pid ensures ProcessOk(Step(s, e).db.rows, s.processes[q]) {
          ReadyGrows(s.db.rows, Step(s, e).db.rows, s.processes[q]);
        }
      }
    case _ =>
  }

  lemma BeginOk(rows: Rows, user: UserId, superuser: bool, org: Org, request: Request)
    ensures Served(request) ==> ProcessOk(rows, Process(user, superuser, org, Some(org), request, Start))
  {
  }

  lemma {:induction false} InvRun(s: State, es: seq<Event>)
    requires Inv(s)
    ensures Inv(After(s, es)) && Grows(s.db.rows, After(s, es).db.rows)
    decreases |es|
  {
    hide Inv, Step;
    if es != [] {
      InvStep(s, es[0]);
      InvRun(Step(s, es[0]), es[1..]);
    }
  }

  lemma InvInit()
    ensures Inv(INIT)
  {
  }

  // ---------------------------------------------------------------- what it means for every run

  /** Junction rows, and the category columns, link rows of one organisation only. */
  lemma LinksStayInOneOrg(es: seq<Event>)
    ensures var db := After(INIT, es).db;
            && (forall l :: l in db.links ==> Key(Faqs, l.faq) in db.rows && Key(l.kind, l.target) in db.rows
                                              && db.rows[Key(Faqs, l.faq)].org == db.rows[Key(l.kind, l.target)].org)
            && (forall key :: key in db.rows && key.table == Sources ==>
                  && db.rows[key].category.Some? && Key(SourceCategories, db.rows[key].category.value) in db.rows
                  && db.rows[Key(SourceCategories, db.rows[key].category.value)].org == db.rows[key].org)
  {
    InvInit();
    InvRun(INIT, es);
    var db := After(INIT, es).db;
    forall l | l in db.links ensures LinkOk(db.rows, l) {
    }
  }

  /** Every unbinding is undone: whenever a request is not inside one of the unbound queries its own
      organisation is bound, in particular when it has answered, whatever failed on the way. */
  lemma BindingsRestored(es: seq<Event>, pid: Pid)
    requires pid in After(INIT, es).processes
    ensures var p := After(INIT, es).processes[pid];
            p.ctx == if p.pc.SharedQuery? || p.pc.ShareQuery? then None else Some(p.org)
  {
    InvInit();
    InvRun(INIT, es);
  }

  // ---------------------------------------------------------------- the history of a shared row

  lemma {:induction false} AfterConcat(s: State, a: seq<Event>, b: seq<Event>)
    ensures After(s, a + b) == After(After(s, a), b)
    decreases |a|
  {
    hide Step;
    if a == [] {
      assert a + b == b;
    } else {
      AfterConcat(Step(s, a[0]), a[1..], b);
      assert (a + b)[1..] == a[1..] + b;
    }
  }

  /** The state before event `n` of a run. */
  ghost function StateAt(es: seq<Event>, n: nat): State
    requires n <= |es|
  {
    After(INIT, es[..n])
  }

  lemma StateAtNext(es: seq<Event>, n: nat)
    requires n < |es|
    ensures StateAt(es, n + 1) == Step(StateAt(es, n), es[n])
    ensures Inv(StateAt(es, n))
  {
    hide Step, Inv;
    assert es[..n + 1] == es[..n] + [es[n]];
    AfterConcat(INIT, es[..n], [es[n]]);
    assert [es[n]][1..] == [];
    InvInit();
    InvRun(INIT, es[..n]);
  }

  /** Event `m` starts the process `pid` for a user who is a platform administrator at that moment. */
  ghost predicate BegunByAdmin(es: seq<Event>, m: nat, pid: Pid)
    requires m < |es|
  {
    es[m].Begin? && es[m].pid == pid && pid !in StateAt(es, m).processes && es[m].user in StateAt(es, m).superusers
  }

  ghost predicate CreatedAt(es: seq<Event>, n: nat, key: Key)
    requires n < |es|
  {
    key !in StateAt(es, n).db.rows && key in StateAt(es, n + 1).db.rows
  }

  lemma {:induction false} AdminProcessBegan(es: seq<Event>, n: nat, pid: Pid)
    requires n <= |es| && pid in StateAt(es, n).processes && StateAt(es, n).processes[pid].superuser
    ensures exists m :: 0 <= m < n && BegunByAdmin(es, m, pid)
  {
    hide After, Act, Inv;
    if n == 0 {
      NothingAtStart(es);
    } else {
      StateAtNext(es, n - 1);
      var before := StateAt(es, n - 1);
      if pid in before.processes {
        SuperuserFixed(before, es[n - 1], pid);
        AdminProcessBegan(es, n - 1, pid);
      } else {
        assert BegunByAdmin(es, n - 1, pid);
      }
    }
  }

  lemma NothingAtStart(es: seq<Event>)
    ensures StateAt(es, 0) == INIT
  {
  }

  lemma SuperuserFixed(s: State, e: Event, pid: Pid)
    requires Inv(s) && pid in s.processes
    ensures pid in Step(s, e).processes && SameRequest(s.processes[pid], Step(s, e).processes[pid])
  {
    hide Act, ProcessOk, DbOk;
    if e.Advance? && e.pid == pid {
      ActKeeps(s.db, s.processes[pid], e.id, e.ok);
    }
  }

  /** The only step that adds a row stamps the role its own request was loaded with. */
  lemma CreationStamps(s: State, e: Event, key: Key)
    requires Inv(s) && key !in s.db.rows && key in Step(s, e).db.rows
    ensures e.Advance? && e.pid in s.processes
    ensures Step(s, e).db.rows[key].snapshot == SnapshotFor(key.table, s.processes[e.pid].superuser)
    ensures Step(s, e).db.rows[key].org == s.processes[e.pid].org && !Step(s, e).db.rows[key].shared
  {
    hide DbOk, First, AfterSharedQuery, AfterLinking, Resolve, AfterShareQuery, Insertable, AddAll, Additions, ProcessOk;
    InsertedRow(s.db, s.processes[e.pid], e.id, key);
  }

  lemma InsertedRow(db: Db, p: Process, id: nat, key: Key)
    requires ProcessOk(db.rows, p) && key !in db.rows
    ensures p.pc.Inserting? && Inserts(p.request) && key in Insert(db, p, id).0.rows ==>
              var row := Insert(db, p, id).0.rows[key];
              row.snapshot == SnapshotFor(key.table, p.superuser) && row.org == p.org && !row.shared
  {
    hide AddAll, Fits, Resolved, Ready, FaqAddition;
    if p.pc.Inserting? && Inserts(p.request) && Insertable(db, p, id) {
      var adds := Additions(p, p.org, id);
      AdditionsFit(db, p, id);
      FitsKeys(db.rows, p.org, adds);
      AddedRows(db, adds, key);
      if key in AddAll(db, adds).rows {
        var k :| 0 <= k < |adds| && adds[k].key == key && AddAll(db, adds).rows[key] == adds[k].row;
        if p.request.CreateFaqs? {
          FaqKey(p.org, p.superuser, p.request.items[k], id + k);
        }
      }
    }
  }

  lemma FitsKeys(rows: Rows, org: Org, adds: seq<Addition>)
    requires Fits(rows, org, adds)
    ensures DistinctKeys(adds) && Unused(rows, adds)
    ensures forall k :: 0 <= k < |adds| ==> adds[k].row.org == org && !adds[k].row.shared
    ensures forall k, l :: 0 <= k < |adds| && l in adds[k].links ==> Key(Faqs, l.faq) == adds[k].key
  {
    forall k | 0 <= k < |adds| ensures AdditionOk(rows, org, adds[k]) {
    }
  }

  /** The snapshot of a row is the role its creator had when the creating request was loaded. It stays
      that through every later promotion, demotion and request. */
  lemma SnapshotIsCreatorsRole(es: seq<Event>, k: nat, n: nat, key: Key)
    requires k < n <= |es| && CreatedAt(es, k, key)
    ensures es[k].Advance? && es[k].pid in StateAt(es, k).processes && key in StateAt(es, n).db.rows
    ensures StateAt(es, n).db.rows[key].snapshot == SnapshotFor(key.table, StateAt(es, k).processes[es[k].pid].superuser)
  {
    hide After, Step, Inv, SnapshotFor;
    StateAtNext(es, k);
    CreationStamps(StateAt(es, k), es[k], key);
    RowsKept(es, k + 1, n);
  }

  lemma RowsKept(es: seq<Event>, m: nat, n: nat)
    requires m <= n <= |es|
    ensures Grows(StateAt(es, m).db.rows, StateAt(es, n).db.rows)
  {
    hide Step, Inv, Grows, After;
    assert es[..n] == es[..m] + es[m..n];
    AfterConcat(INIT, es[..m], es[m..n]);
    InvInit();
    InvRun(INIT, es[..m]);
    InvRun(StateAt(es, m), es[m..n]);
  }

  lemma {:induction false} RowWasCreated(es: seq<Event>, n: nat, key: Key)
    requires n <= |es| && key in StateAt(es, n).db.rows
    ensures exists k :: 0 <= k < n && CreatedAt(es, k, key)
  {
    hide StateAt;
    if n == 0 {
      NothingAtStart(es);
    } else if key in StateAt(es, n - 1).db.rows {
      RowWasCreated(es, n - 1, key);
    } else {
      assert CreatedAt(es, n - 1, key);
    }
  }

  /** A shared row was created by a user who was a platform administrator when the creating request
      was loaded. */
  lemma SharedRowsComeFromAdmins(es: seq<Event>, key: Key)
    requires key in After(INIT, es).db.rows && After(INIT, es).db.rows[key].shared
    ensures exists m, k :: 0 <= m < k < |es| && CreatedAt(es, k, key) && es[k].Advance? && BegunByAdmin(es, m, es[k].pid)
  {
    hide Step, Act, DbOk, ProcessOk, After, BegunByAdmin, CreatedAt;
    assert es[..|es|] == es;
    InvInit();
    InvRun(INIT, es);
    SharedIsAdmins(After(INIT, es), key);
    RowWasCreated(es, |es|, key);
    var k :| 0 <= k < |es| && CreatedAt(es, k, key);
    SnapshotIsCreatorsRole(es, k, |es|, key);
    AdminProcessBegan(es, k, es[k].pid);
    var m :| 0 <= m < k && BegunByAdmin(es, m, es[k].pid);
  }

  lemma SharedIsAdmins(s: State, key: Key)
    requires Inv(s) && key in s.db.rows && s.db.rows[key].shared
    ensures s.db.rows[key].snapshot == PlatformAdmin
  {
    assert RowOk(s.db.rows, key);
  }

  /** The flag of an existing row changes only in a sharing request of a platform administrator for
      that very row, and is switched on only where the snapshot allows it. */
  lemma FlagChangesByAdminsOnly(s: State, e: Event, key: Key)
    requires Inv(s) && key in s.db.rows
    ensures key in Step(s, e).db.rows
    ensures Step(s, e).db.rows[key].shared != s.db.rows[key].shared ==>
              && e.Advance? && e.pid in s.processes && s.processes[e.pid].superuser
              && s.processes[e.pid].request == Share(key, Step(s, e).db.rows[key].shared)
              && (Step(s, e).db.rows[key].shared ==> s.db.rows[key].snapshot == PlatformAdmin)
  {
    hide DbOk, First, AfterSharedQuery, AfterLinking, Resolve, AfterShareQuery, Insertable, AddAll, Additions;
    if e.Advance? && e.pid in s.processes {
      assert ProcessOk(s.db.rows, s.processes[e.pid]);
      InsertLeaves(s.db, s.processes[e.pid], e.id, key);
    }
  }

  lemma InsertLeaves(db: Db, p: Process, id: nat, key: Key)
    requires ProcessOk(db.rows, p) && key in db.rows
    ensures p.pc.Inserting? ==>
              Inserts(p.request) && key in Insert(db, p, id).0.rows && Insert(db, p, id).0.rows[key] == db.rows[key]
  {
    hide AddAll, Fits, Additions, Resolved, Insertable;
    if p.pc.Inserting? && Insertable(db, p, id) {
      AdditionsFit(db, p, id);
      FitsKeys(db.rows, p.org, Additions(p, p.org, id));
      AddedRows(db, Additions(p, p.org, id), key);
    }
  }
}
