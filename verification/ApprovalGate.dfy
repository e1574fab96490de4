/** The approval gate of FAQ generation: candidates are staged, and only what a person approves becomes
    an FAQ. All calls work for one organisation; `Catalog` holds the ids that resolve in it. */
module ApprovalGate {
  import opened Options

  datatype Catalog = Catalog(questionCategories: set<nat>, sourceCategories: set<nat>, sources: set<nat>)

  datatype Item = Item(candidate: nat, question: string, answer: string,
                       questionCategories: seq<nat>, sourceCategories: seq<nat>, sources: seq<nat>)

  /** An FAQ together with its junction rows. */
  datatype Faq = Faq(id: nat, question: string, answer: string, category: nat,
                     questionCategories: set<nat>, sourceCategories: set<nat>, sources: set<nat>)

  datatype Status = PendingReview | Approved | Rejected

  datatype Candidate = Candidate(id: nat, session: nat, question: string, answer: string, status: Status)

  datatype Draft = Draft(question: string, answer: string)

  /** Sessions map to whether they are confirmed. */
  datatype State = State(faqs: seq<Faq>, sessions: map<nat, bool>, candidates: seq<Candidate>)

  const EMPTY := State([], map[], [])

  datatype Result = Confirmed(created: seq<nat>, discarded: seq<nat>) | SessionNotFound | ValidationFailed | Conflict

  // ---------------------------------------------------------------- validation

  predicate Resolves(ids: seq<nat>, known: set<nat>) {
    ids != [] && forall i :: 0 <= i < |ids| ==> ids[i] in known
  }

  predicate Resolvable(catalog: Catalog, item: Item) {
    && Resolves(item.questionCategories, catalog.questionCategories)
    && Resolves(item.sourceCategories, catalog.sourceCategories)
    && Resolves(item.sources, catalog.sources)
  }

  predicate Distinct(ids: seq<nat>) {
    forall i, j :: 0 <= i < j < |ids| ==> ids[i] != ids[j]
  }

  /** Junction rows have the two ids as their primary key, so a repeated id cannot be stored. */
  predicate Storable(item: Item) {
    Distinct(item.questionCategories) && Distinct(item.sourceCategories) && Distinct(item.sources)
  }

  function Elements(ids: seq<nat>): set<nat> {
    set i | 0 <= i < |ids| :: ids[i]
  }

  function NewFaq(id: nat, item: Item): Faq
    requires item.questionCategories != []
  {
    Faq(id, item.question, item.answer, item.questionCategories[0], Elements(item.questionCategories),
        Elements(item.sourceCategories), Elements(item.sources))
  }

  predicate IsApproved(approved: seq<Item>, candidate: nat) {
    exists k :: 0 <= k < |approved| && approved[k].candidate == candidate
  }

  function Reviewed(c: Candidate, session: nat, approved: seq<Item>): Candidate {
    if c.session != session then c else c.(status := if IsApproved(approved, c.id) then Approved else Rejected)
  }

  /** The candidates of the session that nobody approved. */
  function Discarded(rows: seq<Candidate>, session: nat, approved: seq<Item>): seq<nat> {
    if rows == [] then [] else IfDiscarded(rows[0], session, approved) + Discarded(rows[1..], session, approved)
  }

  function IfDiscarded(c: Candidate, session: nat, approved: seq<Item>): seq<nat> {
    if c.session == session && !IsApproved(approved, c.id) then [c.id] else []
  }

  lemma NothingDiscarded(session: nat, approved: seq<Item>)
    ensures Discarded([], session, approved) == []
  {
  }

  lemma {:induction false} DiscardedAppend(rows: seq<Candidate>, c: Candidate, session: nat, approved: seq<Item>)
    ensures Discarded(rows + [c], session, approved)
         == Discarded(rows, session, approved) + IfDiscarded(c, session, approved)
  {
    hide IfDiscarded;
    if rows == [] {
      assert [] + [c] == [c] && [c][1..] == [];
    } else {
      DiscardedAppend(rows[1..], c, session, approved);
      assert (rows + [c])[1..] == rows[1..] + [c];
    }
  }

  lemma {:induction false} DiscardedExact(rows: seq<Candidate>, session: nat, approved: seq<Item>)
    requires forall i, j :: 0 <= i < j < |rows| ==> rows[i].id < rows[j].id
    ensures forall id :: id in Discarded(rows, session, approved) <==>
              exists i :: 0 <= i < |rows| && rows[i].session == session && rows[i].id == id && !IsApproved(approved, id)
    ensures Distinct(Discarded(rows, session, approved))
  {
    hide IsApproved;
    if rows != [] {
      DiscardedExact(rows[1..], session, approved);
      forall id
        ensures id in Discarded(rows, session, approved) <==>
                  exists i :: 0 <= i < |rows| && rows[i].session == session && rows[i].id == id && !IsApproved(approved, id)
      {
        DiscardedOne(rows, session, approved, id);
      }
    }
  }

  lemma DiscardedOne(rows: seq<Candidate>, session: nat, approved: seq<Item>, id: nat)
    requires rows != []
    requires var rest := rows[1..];
             id in Discarded(rest, session, approved) <==>
               exists i :: 0 <= i < |rest| && rest[i].session == session && rest[i].id == id && !IsApproved(approved, id)
    ensures id in Discarded(rows, session, approved) <==>
              exists i :: 0 <= i < |rows| && rows[i].session == session && rows[i].id == id && !IsApproved(approved, id)
  {
    hide IsApproved;
    assert forall i :: 0 < i < |rows| ==> rows[i] == rows[1..][i - 1];
  }

  // ---------------------------------------------------------------- what the two calls may do

  /** The FAQ has the fields of the item, and its ids as junction rows. */
  ghost predicate Made(faq: Faq, item: Item) {
    && faq.question == item.question && faq.answer == item.answer
    && item.questionCategories != [] && faq.category == item.questionCategories[0]
    && (forall t :: t in faq.questionCategories <==> t in item.questionCategories)
    && (forall t :: t in faq.sourceCategories <==> t in item.sourceCategories)
    && (forall t :: t in faq.sources <==> t in item.sources)
  }

  lemma NewFaqMade(id: nat, item: Item)
    requires item.questionCategories != []
    ensures NewFaq(id, item).id == id && Made(NewFaq(id, item), item)
  {
  }

  /** Staging adds a new session with pending candidates, and not one FAQ. */
  predicate Stages(s: State, s': State, drafts: seq<Draft>, session: nat) {
    && s'.faqs == s.faqs
    && session !in s.sessions && s'.sessions == s.sessions[session := false]
    && s.candidates <= s'.candidates && |s'.candidates| == |s.candidates| + |drafts|
    && forall k :: 0 <= k < |drafts| ==>
         var c := s'.candidates[|s.candidates| + k];
         c.session == session && c.status == PendingReview && c.question == drafts[k].question && c.answer == drafts[k].answer
  }

  /** A list of the item is empty, or names an id that is not in the catalog. */
  ghost predicate Misses(catalog: Catalog, item: Item) {
    || item.questionCategories == [] || item.sourceCategories == [] || item.sources == []
    || (exists t :: t in item.questionCategories && t !in catalog.questionCategories)
    || (exists t :: t in item.sourceCategories && t !in catalog.sourceCategories)
    || (exists t :: t in item.sources && t !in catalog.sources)
  }

  /** A list of the item names an id twice. */
  ghost predicate Repeats(item: Item) {
    || (exists i, j :: 0 <= i < j < |item.questionCategories| && item.questionCategories[i] == item.questionCategories[j])
    || (exists i, j :: 0 <= i < j < |item.sourceCategories| && item.sourceCategories[i] == item.sourceCategories[j])
    || (exists i, j :: 0 <= i < j < |item.sources| && item.sources[i] == item.sources[j])
  }

  /** Confirming does all of it or nothing. One FAQ per approved item, in order; the candidates of the
      session fall into approved and discarded; nothing else changes. */
  ghost predicate Confirms(s: State, s': State, catalog: Catalog, session: nat, approved: seq<Item>, result: Result) {
    && (result.SessionNotFound? <==> session !in s.sessions)
    && (result.ValidationFailed? <==>
          session in s.sessions && exists k :: 0 <= k < |approved| && Misses(catalog, approved[k]))
    && (result.Conflict? <==>
          && session in s.sessions && (forall k :: 0 <= k < |approved| ==> !Misses(catalog, approved[k]))
          && exists k :: 0 <= k < |approved| && Repeats(approved[k]))
    && (!result.Confirmed? ==> s' == s)
    && (result.Confirmed? ==>
          && s'.sessions == s.sessions[session := true]
          && CreatesAll(s, s', catalog, approved, result.created)
          && Partitions(s, s', session, approved, result.discarded))
  }

  ghost predicate CreatesAll(s: State, s': State, catalog: Catalog, approved: seq<Item>, created: seq<nat>) {
    && s.faqs <= s'.faqs && |s'.faqs| == |s.faqs| + |approved| && |created| == |approved|
    && forall k :: 0 <= k < |approved| ==>
         !Misses(catalog, approved[k]) && s'.faqs[|s.faqs| + k].id == created[k] && Made(s'.faqs[|s.faqs| + k], approved[k])
  }

  /** Only the status of the session's candidates changes: approved if some approved item names the
      candidate, otherwise rejected. */
  ghost predicate IsReviewed(c: Candidate, c': Candidate, session: nat, approved: seq<Item>) {
    && c'.id == c.id && c'.session == c.session && c'.question == c.question && c'.answer == c.answer
    && (c.session != session ==> c'.status == c.status)
    && (c.session == session ==> !c'.status.PendingReview?
                                 && (c'.status.Approved? <==> exists k :: 0 <= k < |approved| && approved[k].candidate == c.id))
  }

  lemma ReviewedExact(c: Candidate, session: nat, approved: seq<Item>)
    ensures IsReviewed(c, Reviewed(c, session, approved), session, approved)
  {
  }

  ghost predicate Partitions(s: State, s': State, session: nat, approved: seq<Item>, discarded: seq<nat>) {
    && |s'.candidates| == |s.candidates|
    && (forall i :: 0 <= i < |s.candidates| ==> IsReviewed(s.candidates[i], s'.candidates[i], session, approved))
    && (forall id :: id in discarded <==>
          exists i :: 0 <= i < |s.candidates| && s.candidates[i].session == session && s.candidates[i].id == id
                      && !exists k :: 0 <= k < |approved| && approved[k].candidate == id)
    && Distinct(discarded)
  }

  // ---------------------------------------------------------------- the service

  class FAQGenerationCandidate {
    const id: nat
    const session: nat
    const question: string
    const answer: string
    var status: Status

    constructor (id: nat, session: nat, draft: Draft)
      ensures Current() == Candidate(id, session, draft.question, draft.answer, PendingReview)
    {
      this.id, this.session, question, answer := id, session, draft.question, draft.answer;
      status := PendingReview;
    }

    function Current(): Candidate
      reads this
    {
      Candidate(id, session, question, answer, status)
    }
  }

  function CandidatesOf(candidates: seq<FAQGenerationCandidate>): seq<Candidate>
    reads candidates
  {
    if candidates == [] then [] else [candidates[0].Current()] + CandidatesOf(candidates[1..])
  }

  lemma {:induction false} CandidatesAt(candidates: seq<FAQGenerationCandidate>)
    ensures |CandidatesOf(candidates)| == |candidates|
    ensures forall i :: 0 <= i < |candidates| ==> CandidatesOf(candidates)[i] == candidates[i].Current()
  {
    if candidates != [] {
      CandidatesAt(candidates[1..]);
    }
  }

  /** Primary keys grow and lie below the next one. */
  predicate Numbered(candidates: seq<FAQGenerationCandidate>, next: nat) {
    && (forall i :: 0 <= i < |candidates| ==> candidates[i].id < next)
    && (forall i, j :: 0 <= i < j < |candidates| ==> candidates[i].id < candidates[j].id)
  }

  predicate Ordered(faqs: seq<Faq>, next: nat) {
    && (forall i :: 0 <= i < |faqs| ==> faqs[i].id < next)
    && (forall i, j :: 0 <= i < j < |faqs| ==> faqs[i].id < faqs[j].id)
  }

  lemma NumberedAppend(candidates: seq<FAQGenerationCandidate>, c: FAQGenerationCandidate, next: nat)
    requires Numbered(candidates, next) && c.id == next
    ensures Numbered(candidates + [c], next + 1)
  {
  }

  lemma OrderedConcat(faqs: seq<Faq>, added: seq<Faq>, next: nat)
    requires Ordered(faqs, next) && forall k :: 0 <= k < |added| ==> added[k].id == next + k
    ensures Ordered(faqs + added, next + |added|)
  {
  }

  lemma NumberedDistinct(candidates: seq<FAQGenerationCandidate>, next: nat)
    requires Numbered(candidates, next)
    ensures forall i, j :: 0 <= i < j < |CandidatesOf(candidates)| ==>
              CandidatesOf(candidates)[i].id < CandidatesOf(candidates)[j].id
  {
    hide CandidatesOf;
    CandidatesAt(candidates);
  }

  lemma NotConfirmed(s: State, catalog: Catalog, session: nat, approved: seq<Item>, result: Result)
    requires !result.Confirmed? && (result.SessionNotFound? <==> session !in s.sessions)
    requires session in s.sessions ==>
               (result.ValidationFailed? <==> !forall k :: 0 <= k < |approved| ==> Resolvable(catalog, approved[k]))
    requires result.Conflict? ==> exists k :: 0 <= k < |approved| && !Storable(approved[k])
    ensures Confirms(s, s, catalog, session, approved, result)
  {
    hide Resolvable, Storable, Misses, Repeats;
    ItemsFine(catalog, approved);
  }

  lemma AllConfirmed(s: State, s': State, catalog: Catalog, session: nat, approved: seq<Item>, added: seq<Faq>, result: Result)
    requires result.Confirmed? && session in s.sessions
    requires forall k :: 0 <= k < |approved| ==> Resolvable(catalog, approved[k]) && Storable(approved[k])
    requires |added| == |result.created| == |approved|
    requires forall k :: 0 <= k < |approved| ==>
               approved[k].questionCategories != [] && added[k] == NewFaq(result.created[k], approved[k])
    requires s'.faqs == s.faqs + added && s'.sessions == s.sessions[session := true]
    requires |s'.candidates| == |s.candidates|
    requires forall i :: 0 <= i < |s.candidates| ==> s'.candidates[i] == Reviewed(s.candidates[i], session, approved)
    requires forall i, j :: 0 <= i < j < |s.candidates| ==> s.candidates[i].id < s.candidates[j].id
    requires result.discarded == Discarded(s.candidates, session, approved)
    ensures Confirms(s, s', catalog, session, approved, result)
  {
    hide Resolvable, Storable, NewFaq, Discarded, Reviewed, Distinct, IsApproved, Made, Misses, Repeats, IsReviewed;
    forall k | 0 <= k < |approved| ensures added[k].id == result.created[k] && Made(added[k], approved[k]) {
      NewFaqMade(result.created[k], approved[k]);
    }
    forall i | 0 <= i < |s.candidates| ensures IsReviewed(s.candidates[i], s'.candidates[i], session, approved) {
      ReviewedExact(s.candidates[i], session, approved);
    }
    forall id ensures IsApproved(approved, id) <==> exists k :: 0 <= k < |approved| && approved[k].candidate == id {
      ApprovedExact(approved, id);
    }
    DiscardedExact(s.candidates, session, approved);
    ItemsFine(catalog, approved);
  }

  lemma ApprovedExact(approved: seq<Item>, id: nat)
    ensures IsApproved(approved, id) <==> exists k :: 0 <= k < |approved| && approved[k].candidate == id
  {
  }

  lemma ItemsFine(catalog: Catalog, approved: seq<Item>)
    ensures forall k :: 0 <= k < |approved| ==> (Misses(catalog, approved[k]) <==> !Resolvable(catalog, approved[k]))
    ensures forall k :: 0 <= k < |approved| ==> (Repeats(approved[k]) <==> !Storable(approved[k]))
  {
    hide Misses, Resolvable, Repeats, Storable;
    forall k | 0 <= k < |approved|
      ensures Misses(catalog, approved[k]) <==> !Resolvable(catalog, approved[k])
      ensures Repeats(approved[k]) <==> !Storable(approved[k])
    {
      MissesExact(catalog, approved[k]);
      RepeatsExact(approved[k]);
    }
  }

  lemma MissesExact(catalog: Catalog, item: Item)
    ensures Misses(catalog, item) <==> !Resolvable(catalog, item)
  {
  }

  lemma RepeatsExact(item: Item)
    ensures Repeats(item) <==> !Storable(item)
  {
  }

  lemma CandidatesAppend(candidates: seq<FAQGenerationCandidate>, c: FAQGenerationCandidate)
    ensures CandidatesOf(candidates + [c]) == CandidatesOf(candidates) + [c.Current()]
  {
    hide CandidatesOf;
    CandidatesAt(candidates);
    CandidatesAt(candidates + [c]);
  }

  /** The rows the drafts become. */
  function Drafted(drafts: seq<Draft>, session: nat, first: nat): seq<Candidate> {
    seq(|drafts|, i requires 0 <= i < |drafts| =>
          Candidate(first + i, session, drafts[i].question, drafts[i].answer, PendingReview))
  }

  lemma AllStaged(s: State, s': State, drafts: seq<Draft>, session: nat, first: nat)
    requires s'.faqs == s.faqs && session !in s.sessions && s'.sessions == s.sessions[session := false]
    requires s'.candidates == s.candidates + Drafted(drafts, session, first)
    ensures Stages(s, s', drafts, session)
  {
  }

  lemma NothingDrafted(session: nat, first: nat)
    ensures Drafted([], session, first) == []
  {
  }

  lemma DraftedAppend(drafts: seq<Draft>, draft: Draft, session: nat, first: nat)
    ensures Drafted(drafts + [draft], session, first)
         == Drafted(drafts, session, first)
            + [Candidate(first + |drafts|, session, draft.question, draft.answer, PendingReview)]
  {
  }

  class FaqService {
    var faqs: seq<Faq>
    var sessions: map<nat, bool>
    var candidates: seq<FAQGenerationCandidate>
    var nextFaq: nat
    var nextSession: nat
    var nextCandidate: nat

    ghost predicate Valid()
      reads this
    {
      && Numbered(candidates, nextCandidate) && Ordered(faqs, nextFaq)
      && forall session :: session in sessions ==> session < nextSession
    }

    function Current(): State
      reads this, candidates
    {
      State(faqs, sessions, CandidatesOf(candidates))
    }

    constructor ()
      ensures Valid() && Current() == EMPTY
    {
      faqs, sessions, candidates, nextFaq, nextSession, nextCandidate := [], map[], [], 0, 0, 0;
    }

    /** The generated drafts wait as candidates of a new session. */
    method CreateSession(drafts: seq<Draft>) returns (session: nat)
      requires Valid()
      modifies this
      ensures Valid() && Stages(old(Current()), Current(), drafts, session)
    {
      hide CandidatesOf, Numbered, Ordered, Drafted, Stages;
      NothingDrafted(nextSession, nextCandidate);
      session := nextSession;
      nextSession := nextSession + 1;
      sessions := sessions[session := false];
      ghost var before := CandidatesOf(candidates);
      ghost var first := nextCandidate;
      for k := 0 to |drafts|
        invariant Valid() && faqs == old(faqs) && sessions == old(sessions)[session := false] && nextCandidate == first + k
        invariant CandidatesOf(candidates) == before + Drafted(drafts[..k], session, first)
      {
        var candidate := new FAQGenerationCandidate(nextCandidate, session, drafts[k]);
        CandidatesAppend(candidates, candidate);
        NumberedAppend(candidates, candidate, nextCandidate);
        DraftedAppend(drafts[..k], drafts[k], session, first);
        assert drafts[..k + 1] == drafts[..k] + [drafts[k]];
        nextCandidate := nextCandidate + 1;
        candidates := candidates + [candidate];
      }
      assert drafts[..|drafts|] == drafts;
      AllStaged(old(Current()), Current(), drafts, session, first);
    }

    method Validate(catalog: Catalog, approved: seq<Item>) returns (ok: bool)
      ensures ok <==> forall k :: 0 <= k < |approved| ==> Resolvable(catalog, approved[k])
    {
      hide Resolvable;
      for k := 0 to |approved|
        invariant forall j :: 0 <= j < k ==> Resolvable(catalog, approved[j])
      {
        if !Resolvable(catalog, approved[k]) {
          return false;
        }
      }
      ok := true;
    }

    /** Builds the FAQs and their junction rows; the first junction row that cannot be stored gives up
        all of them. */
    method BuildFaqs(catalog: Catalog, approved: seq<Item>) returns (added: Option<seq<Faq>>, created: seq<nat>)
      requires forall k :: 0 <= k < |approved| ==> Resolvable(catalog, approved[k])
      ensures added.None? <==> exists k :: 0 <= k < |approved| && !Storable(approved[k])
      ensures added.Some? ==> |added.value| == |created| == |approved|
      ensures added.Some? ==> forall k :: 0 <= k < |approved| ==>
                && created[k] == added.value[k].id == nextFaq + k
                && approved[k].questionCategories != [] && added.value[k] == NewFaq(created[k], approved[k])
    {
      hide Storable, Resolvable, NewFaq;
      var faqs: seq<Faq> := [];
      created := [];
      for k := 0 to |approved|
        invariant |faqs| == |created| == k
        invariant forall j :: 0 <= j < k ==> Storable(approved[j]) && approved[j].questionCategories != []
        invariant forall j :: 0 <= j < k ==> created[j] == faqs[j].id == nextFaq + j && faqs[j] == NewFaq(created[j], approved[j])
      {
        if !Storable(approved[k]) {
          return None, [];
        }
        HasCategory(catalog, approved[k], nextFaq + k);
        faqs := faqs + [NewFaq(nextFaq + k, approved[k])];
        created := created + [nextFaq + k];
      }
      added := Some(faqs);
    }

    /** Validates everything before it writes anything. */
    method Confirm(catalog: Catalog, session: nat, approved: seq<Item>) returns (result: Result)
      requires Valid()
      modifies this, candidates
      ensures Valid() && Confirms(old(Current()), Current(), catalog, session, approved, result)
    {
      hide CandidatesOf, Resolvable, Storable, NewFaq, IsApproved, Discarded, Reviewed, Numbered, Ordered, Confirms;
      ghost var before := Current();
      if session !in sessions {
        NotConfirmed(before, catalog, session, approved, SessionNotFound);
        return SessionNotFound;
      }
      var ok := Validate(catalog, approved);
      if !ok {
        NotConfirmed(before, catalog, session, approved, ValidationFailed);
        return ValidationFailed;
      }
      var added, created := BuildFaqs(catalog, approved);
      if added.None? {
        NotConfirmed(before, catalog, session, approved, Conflict);
        return Conflict;
      }
      NumberedDistinct(candidates, nextCandidate);
      var discarded := ReviewCandidates(session, approved);
      OrderedConcat(faqs, added.value, nextFaq);
      sessions := sessions[session := true];
      faqs := faqs + added.value;
      nextFaq := nextFaq + |added.value|;
      result := Confirmed(created, discarded);
      AllConfirmed(before, Current(), catalog, session, approved, added.value, result);
    }

    method ReviewCandidates(session: nat, approved: seq<Item>) returns (discarded: seq<nat>)
      requires Valid()
      modifies candidates
      ensures |CandidatesOf(candidates)| == |old(CandidatesOf(candidates))|
      ensures forall i :: 0 <= i < |CandidatesOf(candidates)| ==>
                CandidatesOf(candidates)[i] == Reviewed(old(CandidatesOf(candidates))[i], session, approved)
      ensures discarded == Discarded(old(CandidatesOf(candidates)), session, approved)
    {
      hide IsApproved, CandidatesOf, Discarded;
      ghost var before := CandidatesOf(candidates);
      NumberedDistinct(candidates, nextCandidate);
      CandidatesAt(candidates);
      NothingDiscarded(session, approved);
      discarded := [];
      for k := 0 to |candidates|
        invariant forall i :: 0 <= i < k ==> candidates[i].Current() == Reviewed(before[i], session, approved)
        invariant forall i :: k <= i < |candidates| ==> candidates[i].Current() == before[i]
        invariant discarded == Discarded(before[..k], session, approved)
      {
        var candidate := candidates[k];
        assert before[..k + 1] == before[..k] + [before[k]];
        DiscardedAppend(before[..k], before[k], session, approved);
        if candidate.session == session {
          if IsApproved(approved, candidate.id) {
            candidate.status := Approved;
          } else {
            candidate.status := Rejected;
            discarded := discarded + [candidate.id];
          }
        }
      }
      CandidatesAt(candidates);
      assert before[..|candidates|] == before;
    }
  }

  lemma HasCategory(catalog: Catalog, item: Item, id: nat)
    requires Resolvable(catalog, item)
    ensures item.questionCategories != [] && NewFaq(id, item).id == id
  {
  }

  // ---------------------------------------------------------------- over whole runs

  datatype Event =
    | Staging(drafts: seq<Draft>, session: nat)
    | Review(catalog: Catalog, session: nat, approved: seq<Item>, result: Result)

  ghost predicate StepOk(s: State, s': State, e: Event) {
    match e
    case Staging(drafts, session) => Stages(s, s', drafts, session)
    case Review(catalog, session, approved, result) => Confirms(s, s', catalog, session, approved, result)
  }

  /** The states of a run from the empty system, one before and one after every event. */
  ghost predicate IsRun(states: seq<State>, events: seq<Event>) {
    && |states| == |events| + 1 && states[0] == EMPTY
    && forall n :: 0 <= n < |events| ==> StepOk(states[n], states[n + 1], events[n])
  }

  /** Everything that was approved in a confirmation that went through, in order. */
  function ApprovedItems(events: seq<Event>): seq<Item> {
    if events == [] then []
    else
      var last := events[|events| - 1];
      ApprovedItems(events[..|events| - 1]) + if last.Review? && last.result.Confirmed? then last.approved else []
  }

  lemma StepFaqs(s: State, s': State, e: Event)
    requires StepOk(s, s', e)
    ensures var items := if e.Review? && e.result.Confirmed? then e.approved else [];
            && s.faqs <= s'.faqs && |s'.faqs| == |s.faqs| + |items|
            && forall k :: 0 <= k < |items| ==> Made(s'.faqs[|s.faqs| + k], items[k])
  {
    hide Misses, Repeats, Made, IsReviewed, Distinct;
  }

  /** Nothing becomes an FAQ without approval: after any run the FAQs are exactly the approved items of
      the confirmations that went through, one each, in order. */
  lemma {:induction false} OnlyApprovedBecomeFaqs(states: seq<State>, events: seq<Event>)
    requires IsRun(states, events)
    ensures var faqs, items := states[|events|].faqs, ApprovedItems(events);
            |faqs| == |items| && forall k :: 0 <= k < |faqs| ==> Made(faqs[k], items[k])
    decreases |events|
  {
    hide StepOk, Made;
    if events != [] {
      var n := |events| - 1;
      OnlyApprovedBecomeFaqs(states[..n + 1], events[..n]);
      StepFaqs(states[n], states[n + 1], events[n]);
      var before := states[n].faqs;
      forall k | 0 <= k < |states[n + 1].faqs| ensures Made(states[n + 1].faqs[k], ApprovedItems(events)[k]) {
        if k >= |before| {
          assert states[n + 1].faqs[|before| + (k - |before|)] == states[n + 1].faqs[k];
        }
      }
    }
  }
}
