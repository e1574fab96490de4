/** LLM provider keys: storing, retiring and resolving them, per organisation or shared by the platform. */
module KeyStore {
  import opened Options
  import opened Text
  import opened TextLaws

  type Org = nat

  /** The organisation a key belongs to; None for a platform-shared key. */
  type Scope = Option<Org>

  /** The stored form of a secret. The cipher is taken to be ideal: what was encrypted comes back. */
  datatype Token = Token(sealed: string)

  function Encrypt(plaintext: string): Token {
    Token(plaintext)
  }

  function Decrypt(token: Token): string {
    token.sealed
  }

  lemma DecryptEncrypt(plaintext: string)
    ensures Decrypt(Encrypt(plaintext)) == plaintext
  {
  }

  const DEFAULT_LLM_PROVIDER := "openai"

  function Normalize(provider: string): string {
    Lower(Strip(provider))
  }

  /** A stored provider name is the one given, without the white space at its ends, with small letters in
      place of the capital ones and nothing else changed. */
  lemma NormalizeExact(provider: string, name: string)
    ensures Normalize(provider) == name <==>
            exists core :: Trims(provider, core) && SmallLetters(core, name)
  {
    hide Strip, Trims, Lower, SmallLetters;
    var core := Strip(provider);
    StripExact(provider, core);
    SmallLettersExact(core, name);
    if core' :| Trims(provider, core') && SmallLetters(core', name) {
      StripExact(provider, core');
    }
  }

  /** Normalising twice is normalising once: a stored provider name reaches its key again. */
  lemma NormalizeTwice(provider: string)
    ensures Normalize(Normalize(provider)) == Normalize(provider)
  {
    hide Strip, Lower, IsSpace, LowerChar;
    var stripped := Strip(provider);
    if stripped != "" {
      LowerCharKeepsSpace(stripped[0]);
      LowerCharKeepsSpace(stripped[|stripped| - 1]);
    }
    StripStripped(Lower(stripped));
    LowerTwice(stripped);
  }

  // ---------------------------------------------------------------- the table as a value

  datatype KeyRow = KeyRow(id: nat, scope: Scope, provider: string, token: Token, active: bool)

  /** The rows in the order of their primary keys, and the organisations with a policy row. */
  datatype Store = Store(rows: seq<KeyRow>, access: map<Org, bool>, nextId: nat)

  const EMPTY := Store([], map[], 1)

  /** `provider` None asks for any provider. */
  predicate Fits(row: KeyRow, scope: Scope, provider: Option<string>) {
    row.active && row.scope == scope && (provider.None? || row.provider == provider.value)
  }

  /** The active row with the highest primary key, of one scope. */
  function Newest(rows: seq<KeyRow>, scope: Scope, provider: Option<string>): Option<KeyRow> {
    if rows == [] then None
    else if Fits(rows[|rows| - 1], scope, provider) then Some(rows[|rows| - 1])
    else Newest(rows[..|rows| - 1], scope, provider)
  }

  function AllowsShared(access: map<Org, bool>, org: Org): bool {
    org in access && access[org]
  }

  /** `resolve_api_key`: the organisation's own key, else the shared one where the policy allows it. */
  function ResolveApiKey(s: Store, provider: string, scope: Scope): Option<string> {
    var own := Newest(s.rows, scope, Some(provider));
    var shared := Newest(s.rows, None, Some(provider));
    if scope.Some? && own.Some? then Some(Decrypt(own.value.token))
    else if (scope.None? || AllowsShared(s.access, scope.value)) && shared.Some? then Some(Decrypt(shared.value.token))
    else None
  }

  /** The key `complete` would use. */
  function KeyForCompletion(s: Store, provider: string, org: Org): Option<string> {
    ResolveApiKey(s, Normalize(provider), Some(org))
  }

  /** `_resolve_configured_provider`, written independently of the above in the assistant. */
  function ConfiguredProvider(s: Store, org: Org): string {
    var own := Newest(s.rows, Some(org), None);
    var shared := Newest(s.rows, None, None);
    if own.Some? && own.value.provider != "" then own.value.provider
    else if AllowsShared(s.access, org) && shared.Some? && shared.value.provider != "" then shared.value.provider
    else DEFAULT_LLM_PROVIDER
  }

  function Deactivated(rows: seq<KeyRow>, provider: string, scope: Scope): seq<KeyRow> {
    if rows == [] then []
    else
      [if Fits(rows[0], scope, Some(provider)) then rows[0].(active := false) else rows[0]]
      + Deactivated(rows[1..], provider, scope)
  }

  function WithoutKey(rows: seq<KeyRow>, id: nat): seq<KeyRow> {
    if rows == [] then []
    else [if rows[0].id == id then rows[0].(active := false) else rows[0]] + WithoutKey(rows[1..], id)
  }

  datatype Op =
    | SetKey(provider: string, plaintext: string, scope: Scope)
    | DeactivateKey(id: nat)
    | SetSharedAccess(org: Org, allow: bool)

  predicate Accepted(provider: string, plaintext: string) {
    Normalize(provider) != "" && Strip(plaintext) != ""
  }

  function Apply(s: Store, op: Op): Store {
    match op
    case SetKey(provider, plaintext, scope) =>
      if !Accepted(provider, plaintext) then s
      else
        var p := Normalize(provider);
        s.(rows := Deactivated(s.rows, p, scope) + [KeyRow(s.nextId, scope, p, Encrypt(Strip(plaintext)), true)],
           nextId := s.nextId + 1)
    case DeactivateKey(id) => s.(rows := WithoutKey(s.rows, id))
    case SetSharedAccess(org, allow) => s.(access := s.access[org := allow])
  }

  function After(s: Store, ops: seq<Op>): Store
    decreases |ops|
  {
    if ops == [] then s else After(Apply(s, ops[0]), ops[1..])
  }

  // ---------------------------------------------------------------- the service, row by row

  class LLMProviderKey {
    const id: nat
    const organization: Scope
    const provider: string
    const encryptedKey: Token
    var isActive: bool

    constructor (id: nat, organization: Scope, provider: string, encryptedKey: Token)
      ensures Row() == KeyRow(id, organization, provider, encryptedKey, true)
    {
      this.id, this.organization, this.provider, this.encryptedKey := id, organization, provider, encryptedKey;
      isActive := true;
    }

    function Row(): KeyRow
      reads this
    {
      KeyRow(id, organization, provider, encryptedKey, isActive)
    }
  }

  datatype Outcome = Stored(key: LLMProviderKey) | ProviderRequired | ApiKeyRequired

  function RowsOf(keys: seq<LLMProviderKey>): seq<KeyRow>
    reads keys
  {
    if keys == [] then [] else [keys[0].Row()] + RowsOf(keys[1..])
  }

  class LLMService {
    var keys: seq<LLMProviderKey>
    var access: map<Org, bool>
    var nextId: nat

    ghost predicate Valid()
      reads this
    {
      && (forall i :: 0 <= i < |keys| ==> keys[i].id < nextId)
      && (forall i, j :: 0 <= i < j < |keys| ==> keys[i].id < keys[j].id)
    }

    function Current(): Store
      reads this, keys
    {
      Store(RowsOf(keys), access, nextId)
    }

    constructor ()
      ensures Valid() && Current() == EMPTY
    {
      keys, access, nextId := [], map[], 1;
    }

    method DeactivateExisting(provider: string, scope: Scope)
      requires Valid()
      modifies keys
      ensures RowsOf(keys) == Deactivated(old(RowsOf(keys)), provider, scope)
    {
      hide RowsOf, Deactivated;
      ghost var before := RowsOf(keys);
      RowsAt(keys);
      for k := 0 to |keys|
        invariant forall i :: 0 <= i < k ==>
                    keys[i].Row() == if Fits(before[i], scope, Some(provider)) then before[i].(active := false) else before[i]
        invariant forall i :: k <= i < |keys| ==> keys[i].Row() == before[i]
      {
        if keys[k].isActive && keys[k].organization == scope && keys[k].provider == provider {
          keys[k].isActive := false;
        }
      }
      RowsAt(keys);
      DeactivatedAt(before, provider, scope);
      assert RowsOf(keys) == Deactivated(before, provider, scope);
    }

    method SetKey(provider: string, plaintext: string, scope: Scope) returns (outcome: Outcome)
      requires Valid()
      modifies this, keys
      ensures Valid() && Current() == Apply(old(Current()), Op.SetKey(provider, plaintext, scope))
      ensures outcome == if Normalize(provider) == "" then ProviderRequired
                         else if Strip(plaintext) == "" then ApiKeyRequired
                         else Stored(keys[|keys| - 1])
      ensures outcome.Stored? ==> fresh(outcome.key) && keys == old(keys) + [outcome.key]
    {
      hide Normalize, Strip, Deactivated, Encrypt, RowsOf;
      var name := Normalize(provider);
      if name == "" {
        return ProviderRequired;
      }
      if Strip(plaintext) == "" {
        return ApiKeyRequired;
      }
      DeactivateExisting(name, scope);
      var key := new LLMProviderKey(nextId, scope, name, Encrypt(Strip(plaintext)));
      RowsAppend(keys, key);
      nextId := nextId + 1;
      keys := keys + [key];
      outcome := Stored(key);
    }

    method DeactivateKey(key: LLMProviderKey)
      requires Valid() && key in keys
      modifies key
      ensures Valid() && Current() == Apply(old(Current()), Op.DeactivateKey(key.id))
    {
      hide RowsOf, WithoutKey;
      ghost var before := RowsOf(keys);
      RowsAt(keys);
      key.isActive := false;
      RowsAt(keys);
      WithoutKeyAt(before, key.id);
      assert RowsOf(keys) == WithoutKey(before, key.id);
    }

    method SetOrgSharedAccess(org: Org, allow: bool)
      requires Valid()
      modifies this
      ensures Valid() && keys == old(keys) && Current() == Apply(old(Current()), SetSharedAccess(org, allow))
    {
      access := access[org := allow];
    }
  }

  lemma {:induction false} RowsAt(keys: seq<LLMProviderKey>)
    ensures |RowsOf(keys)| == |keys| && forall i :: 0 <= i < |keys| ==> RowsOf(keys)[i] == keys[i].Row()
  {
    if keys != [] {
      RowsAt(keys[1..]);
    }
  }

  lemma RowsAppend(keys: seq<LLMProviderKey>, key: LLMProviderKey)
    ensures RowsOf(keys + [key]) == RowsOf(keys) + [key.Row()]
  {
    hide RowsOf;
    RowsAt(keys);
    RowsAt(keys + [key]);
  }

  lemma {:induction false} DeactivatedAt(rows: seq<KeyRow>, provider: string, scope: Scope)
    ensures |Deactivated(rows, provider, scope)| == |rows|
    ensures forall i :: 0 <= i < |rows| ==>
              Deactivated(rows, provider, scope)[i]
              == if Fits(rows[i], scope, Some(provider)) then rows[i].(active := false) else rows[i]
  {
    hide Fits;
    if rows != [] {
      DeactivatedAt(rows[1..], provider, scope);
    }
  }

  lemma {:induction false} WithoutKeyAt(rows: seq<KeyRow>, id: nat)
    ensures |WithoutKey(rows, id)| == |rows|
    ensures forall i :: 0 <= i < |rows| ==>
              WithoutKey(rows, id)[i] == if rows[i].id == id then rows[i].(active := false) else rows[i]
  {
    if rows != [] {
      WithoutKeyAt(rows[1..], id);
    }
  }

  // ---------------------------------------------------------------- the invariant of the table

  /** Primary keys grow, provider names are normalised and not empty, and at most one key per scope
      and provider is active. */
  ghost predicate Inv(s: Store) {
    && (forall i, j :: 0 <= i < j < |s.rows| ==> s.rows[i].id < s.rows[j].id)
    && (forall i :: 0 <= i < |s.rows| ==> RowOk(s, s.rows[i]))
    && (forall i, j :: 0 <= i < j < |s.rows| && s.rows[i].active && s.rows[j].active && s.rows[i].scope == s.rows[j].scope ==>
          s.rows[i].provider != s.rows[j].provider)
  }

  predicate RowOk(s: Store, row: KeyRow) {
    row.id < s.nextId && row.provider != "" && Normalize(row.provider) == row.provider
  }

  lemma InvStep(s: Store, op: Op)
    requires Inv(s)
    ensures Inv(Apply(s, op))
  {
    hide Normalize, Strip, Encrypt, Deactivated, WithoutKey;
    match op
    case SetKey(provider, plaintext, scope) =>
      NormalizeTwice(provider);
      DeactivatedAt(s.rows, Normalize(provider), scope);
    case DeactivateKey(id) => WithoutKeyAt(s.rows, id);
    case SetSharedAccess(_, _) =>
  }

  lemma {:induction false} InvRun(s: Store, ops: seq<Op>)
    requires Inv(s)
    ensures Inv(After(s, ops))
    decreases |ops|
  {
    hide Inv, Apply;
    if ops != [] {
      InvStep(s, ops[0]);
      InvRun(Apply(s, ops[0]), ops[1..]);
    }
  }

  // ---------------------------------------------------------------- the two resolvers agree

  lemma {:induction false} NewestExact(rows: seq<KeyRow>, scope: Scope, provider: Option<string>)
    ensures Newest(rows, scope, provider).None? ==> forall i :: 0 <= i < |rows| ==> !Fits(rows[i], scope, provider)
    ensures Newest(rows, scope, provider).Some? ==>
              exists i :: 0 <= i < |rows| && rows[i] == Newest(rows, scope, provider).value && Fits(rows[i], scope, provider)
                          && forall j :: i < j < |rows| ==> !Fits(rows[j], scope, provider)
  {
    hide Fits;
    if rows != [] && !Fits(rows[|rows| - 1], scope, provider) {
      NewestExact(rows[..|rows| - 1], scope, provider);
    }
  }

  /** The newest key of a scope is also the newest key of its provider in that scope. */
  lemma {:induction false} NewestOfItsProvider(rows: seq<KeyRow>, scope: Scope)
    requires Newest(rows, scope, None).Some?
    ensures Newest(rows, scope, Some(Newest(rows, scope, None).value.provider)) == Newest(rows, scope, None)
  {
    if !Fits(rows[|rows| - 1], scope, None) {
      NewestOfItsProvider(rows[..|rows| - 1], scope);
    }
  }

  /** Some active key the organisation may use: its own, or a shared one where the policy allows it. */
  ghost predicate HasUsableKey(s: Store, org: Org) {
    exists i :: 0 <= i < |s.rows| && s.rows[i].active
      && (s.rows[i].scope == Some(org) || (s.rows[i].scope == None && org in s.access && s.access[org]))
  }

  lemma NoKeyOfAnyProvider(rows: seq<KeyRow>, scope: Scope, provider: string)
    requires Newest(rows, scope, None).None?
    ensures Newest(rows, scope, Some(provider)).None?
  {
    hide Newest;
    NewestExact(rows, scope, None);
    NewestExact(rows, scope, Some(provider));
  }

  lemma ProviderOk(s: Store, scope: Scope)
    requires Inv(s) && Newest(s.rows, scope, None).Some?
    ensures Newest(s.rows, scope, None).value.provider != ""
    ensures Normalize(Newest(s.rows, scope, None).value.provider) == Newest(s.rows, scope, None).value.provider
  {
    hide Newest, Normalize;
    NewestExact(s.rows, scope, None);
  }

  /** What the completion call gets for the provider the assistant chose: the newest own key, else the
      newest shared key the policy allows, whatever their providers, else nothing. */
  lemma ConfiguredProviderResolves(s: Store, org: Org)
    requires Inv(s)
    ensures KeyForCompletion(s, ConfiguredProvider(s, org), org)
         == (if Newest(s.rows, Some(org), None).Some? then Some(Decrypt(Newest(s.rows, Some(org), None).value.token))
             else if org in s.access && s.access[org] && Newest(s.rows, None, None).Some?
                  then Some(Decrypt(Newest(s.rows, None, None).value.token))
             else None)
  {
    hide Newest, Normalize, Inv, Decrypt;
    var own, shared := Newest(s.rows, Some(org), None), Newest(s.rows, None, None);
    var name := Normalize(ConfiguredProvider(s, org));
    if own.Some? {
      ProviderOk(s, Some(org));
      NewestOfItsProvider(s.rows, Some(org));
    } else {
      NoKeyOfAnyProvider(s.rows, Some(org), name);
      if shared.Some? {
        ProviderOk(s, None);
        NewestOfItsProvider(s.rows, None);
      } else {
        NoKeyOfAnyProvider(s.rows, None, name);
      }
    }
  }

  /** Without any usable key the assistant asks for the default provider, and gets no key. */
  lemma DefaultProvider(s: Store, org: Org)
    requires Inv(s) && !HasUsableKey(s, org)
    ensures ConfiguredProvider(s, org) == "openai" && KeyForCompletion(s, ConfiguredProvider(s, org), org).None?
  {
    hide Newest, Normalize, Inv, KeyForCompletion;
    NewestExact(s.rows, Some(org), None);
    NewestExact(s.rows, None, None);
    ConfiguredProviderResolves(s, org);
  }

  /** In every reachable state the provider the assistant chooses resolves to a key exactly when the
      organisation has any usable active key at all. */
  lemma {:induction false} ResolutionSoundAndComplete(ops: seq<Op>, org: Org)
    ensures var s := After(EMPTY, ops);
            KeyForCompletion(s, ConfiguredProvider(s, org), org).Some? <==> HasUsableKey(s, org)
  {
    hide After, Newest, ConfiguredProvider, KeyForCompletion, Decrypt;
    var s := After(EMPTY, ops);
    EmptyInv();
    InvRun(EMPTY, ops);
    ConfiguredProviderResolves(s, org);
    NewestExact(s.rows, Some(org), None);
    NewestExact(s.rows, None, None);
  }

  lemma EmptyInv()
    ensures Inv(EMPTY)
  {
  }

  // ---------------------------------------------------------------- the table refines a map

  /** What the table stands for: one slot per scope and provider, holding the active key. */
  datatype Ledger = Ledger(slots: map<(Scope, string), (nat, string)>, access: map<Org, bool>, nextId: nat)

  const EMPTY_LEDGER := Ledger(map[], map[], 1)

  function Record(l: Ledger, op: Op): Ledger {
    match op
    case SetKey(provider, plaintext, scope) =>
      if !Accepted(provider, plaintext) then l
      else l.(slots := l.slots[(scope, Normalize(provider)) := (l.nextId, Strip(plaintext))], nextId := l.nextId + 1)
    case DeactivateKey(id) => l.(slots := map k | k in l.slots && l.slots[k].0 != id :: l.slots[k])
    case SetSharedAccess(org, allow) => l.(access := l.access[org := allow])
  }

  function Recorded(l: Ledger, ops: seq<Op>): Ledger
    decreases |ops|
  {
    if ops == [] then l else Recorded(Record(l, ops[0]), ops[1..])
  }

  function SlotOf(row: KeyRow): (Scope, string) {
    (row.scope, row.provider)
  }

  ghost predicate StandsFor(s: Store, l: Ledger) {
    && s.access == l.access && s.nextId == l.nextId
    && (forall i :: 0 <= i < |s.rows| && s.rows[i].active ==>
          SlotOf(s.rows[i]) in l.slots && l.slots[SlotOf(s.rows[i])] == (s.rows[i].id, Decrypt(s.rows[i].token)))
    && (forall k :: k in l.slots ==> exists i :: 0 <= i < |s.rows| && s.rows[i].active && SlotOf(s.rows[i]) == k)
  }

  lemma RefinesStep(s: Store, l: Ledger, op: Op)
    requires Inv(s) && StandsFor(s, l)
    ensures StandsFor(Apply(s, op), Record(l, op))
  {
    hide Normalize, Strip, Deactivated, WithoutKey;
    match op
    case SetKey(provider, plaintext, scope) =>
      if Accepted(provider, plaintext) {
        RefinesSet(s, l, Normalize(provider), Strip(plaintext), scope);
      }
    case DeactivateKey(id) => RefinesDeactivate(s, l, id);
    case SetSharedAccess(_, _) =>
  }

  lemma RefinesSet(s: Store, l: Ledger, name: string, secret: string, scope: Scope)
    requires Inv(s) && StandsFor(s, l)
    ensures StandsFor(s.(rows := Deactivated(s.rows, name, scope) + [KeyRow(s.nextId, scope, name, Encrypt(secret), true)],
                         nextId := s.nextId + 1),
                      l.(slots := l.slots[(scope, name) := (l.nextId, secret)], nextId := l.nextId + 1))
  {
    hide Deactivated, RowOk, Decrypt, Encrypt;
    DeactivatedAt(s.rows, name, scope);
    DecryptEncrypt(secret);
    var kept := Deactivated(s.rows, name, scope);
    var rows := kept + [KeyRow(s.nextId, scope, name, Encrypt(secret), true)];
    var slots := l.slots[(scope, name) := (l.nextId, secret)];
    forall k | k in slots ensures exists i :: 0 <= i < |rows| && rows[i].active && SlotOf(rows[i]) == k {
      if k == (scope, name) {
        assert SlotOf(rows[|kept|]) == k;
      } else {
        var i :| 0 <= i < |s.rows| && s.rows[i].active && SlotOf(s.rows[i]) == k;
        assert rows[i] == s.rows[i];
      }
    }
    forall i | 0 <= i < |rows| && rows[i].active
      ensures SlotOf(rows[i]) in slots && slots[SlotOf(rows[i])] == (rows[i].id, Decrypt(rows[i].token))
    {
      if i < |kept| {
        assert rows[i] == s.rows[i] && SlotOf(rows[i]) != (scope, name);
      }
    }
  }

  lemma RefinesDeactivate(s: Store, l: Ledger, id: nat)
    requires Inv(s) && StandsFor(s, l)
    ensures StandsFor(s.(rows := WithoutKey(s.rows, id)), Record(l, DeactivateKey(id)))
  {
    hide WithoutKey, RowOk, Decrypt, SlotOf;
    WithoutKeyAt(s.rows, id);
    var rows := WithoutKey(s.rows, id);
    var slots := Record(l, DeactivateKey(id)).slots;
    forall k | k in slots ensures exists i :: 0 <= i < |rows| && rows[i].active && SlotOf(rows[i]) == k {
      var i :| 0 <= i < |s.rows| && s.rows[i].active && SlotOf(s.rows[i]) == k;
      assert rows[i] == s.rows[i];
    }
    forall i | 0 <= i < |rows| && rows[i].active
      ensures SlotOf(rows[i]) in slots && slots[SlotOf(rows[i])] == (rows[i].id, Decrypt(rows[i].token))
    {
      assert rows[i] == s.rows[i] && s.rows[i].id != id;
    }
  }

  lemma {:induction false} RefinesRun(s: Store, l: Ledger, ops: seq<Op>)
    requires Inv(s) && StandsFor(s, l)
    ensures StandsFor(After(s, ops), Recorded(l, ops))
    decreases |ops|
  {
    hide Inv, StandsFor, Apply, Record;
    if ops != [] {
      InvStep(s, ops[0]);
      RefinesStep(s, l, ops[0]);
      RefinesRun(Apply(s, ops[0]), Record(l, ops[0]), ops[1..]);
    }
  }

  lemma NewestIsSlot(s: Store, l: Ledger, scope: Scope, provider: string)
    requires Inv(s) && StandsFor(s, l)
    ensures Newest(s.rows, scope, Some(provider)).Some? <==> (scope, provider) in l.slots
    ensures (scope, provider) in l.slots ==>
              Decrypt(Newest(s.rows, scope, Some(provider)).value.token) == l.slots[(scope, provider)].1
  {
    hide Newest, RowOk, Decrypt;
    NewestExact(s.rows, scope, Some(provider));
  }

  /** After any run, resolving a key is one lookup in the map of the last keys set and not since
      retired: the last key set for a slot wins, retiring it leaves none (no older key comes back), and
      no operation on one slot touches another. */
  lemma ResolvesLastKeySet(ops: seq<Op>, provider: string, scope: Scope)
    ensures ResolveApiKey(After(EMPTY, ops), provider, scope)
         == var l := Recorded(EMPTY_LEDGER, ops);
            if scope.Some? && (scope, provider) in l.slots then Some(l.slots[(scope, provider)].1)
            else if (scope.None? || (scope.value in l.access && l.access[scope.value])) && (None, provider) in l.slots
                 then Some(l.slots[(None, provider)].1)
            else None
  {
    hide After, Recorded, Newest, Decrypt;
    EmptyInv();
    InvRun(EMPTY, ops);
    RefinesRun(EMPTY, EMPTY_LEDGER, ops);
    var s, l := After(EMPTY, ops), Recorded(EMPTY_LEDGER, ops);
    NewestIsSlot(s, l, scope, provider);
    NewestIsSlot(s, l, None, provider);
  }

  // ---------------------------------------------------------------- resolution, read off the operations

  /** A call that is not refused and stores a key for this scope and provider. */
  predicate Sets(op: Op, scope: Scope, provider: string) {
    && op.SetKey? && op.scope == scope && Normalize(op.provider) == provider
    && provider != "" && Strip(op.plaintext) != ""
  }

  /** How many keys have been stored. */
  function Stores(ops: seq<Op>): nat {
    if ops == [] then 0
    else
      var last := ops[|ops| - 1];
      Stores(ops[..|ops| - 1]) + if last.SetKey? && Sets(last, last.scope, Normalize(last.provider)) then 1 else 0
  }

  /** The primary key and the secret of the key that the i-th operation stores. */
  function IdAt(ops: seq<Op>, i: nat): nat {
    if i < |ops| then 1 + Stores(ops[..i]) else 0
  }

  function SecretAt(ops: seq<Op>, i: nat): string {
    if i < |ops| && ops[i].SetKey? then Strip(ops[i].plaintext) else ""
  }

  /** The key that the i-th operation stored has neither been replaced nor retired since. */
  ghost predicate Standing(ops: seq<Op>, i: nat, scope: Scope, provider: string) {
    && i < |ops| && Sets(ops[i], scope, provider)
    && forall j :: i < j < |ops| ==> !Sets(ops[j], scope, provider) && ops[j] != DeactivateKey(IdAt(ops, i))
  }

  predicate Decides(op: Op, org: Org) {
    op.SetSharedAccess? && op.org == org
  }

  /** The last decision about exactly this organisation exists and allows shared keys. */
  ghost predicate Granted(ops: seq<Op>, org: Org) {
    exists i :: 0 <= i < |ops| && Decides(ops[i], org) && ops[i].allow && forall j :: i < j < |ops| ==> !Decides(ops[j], org)
  }

  lemma {:induction false} RecordedAppend(l: Ledger, ops: seq<Op>, op: Op)
    ensures Recorded(l, ops + [op]) == Record(Recorded(l, ops), op)
    decreases |ops|
  {
    hide Record;
    if ops == [] {
      assert [] + [op] == [op] && [op][1..] == [];
    } else {
      RecordedAppend(Record(l, ops[0]), ops[1..], op);
      assert (ops + [op])[1..] == ops[1..] + [op];
    }
  }

  lemma AtAppend(ops: seq<Op>, op: Op, i: nat)
    ensures i < |ops| ==> IdAt(ops + [op], i) == IdAt(ops, i) && SecretAt(ops + [op], i) == SecretAt(ops, i)
    ensures i == |ops| ==> IdAt(ops + [op], i) == 1 + Stores(ops)
    ensures i == |ops| && op.SetKey? ==> SecretAt(ops + [op], i) == Strip(op.plaintext)
  {
    hide Stores, Strip;
    if i <= |ops| {
      assert (ops + [op])[..i] == ops[..i];
      assert ops[..|ops|] == ops;
    }
  }

  lemma StandingAppend(ops: seq<Op>, op: Op, i: nat, scope: Scope, provider: string)
    ensures Standing(ops + [op], i, scope, provider) <==>
            if i == |ops| then Sets(op, scope, provider)
            else Standing(ops, i, scope, provider) && !Sets(op, scope, provider) && op != DeactivateKey(IdAt(ops, i))
  {
    hide Sets, Stores, IdAt;
    AtAppend(ops, op, i);
    var ops' := ops + [op];
    assert forall j :: 0 <= j < |ops| ==> ops'[j] == ops[j];
    assert ops'[|ops|] == op;
  }

  /** The slot of a provider holds the key of the operation that is standing, and nothing if none is. */
  ghost predicate SlotStands(l: Ledger, ops: seq<Op>, scope: Scope, provider: string) {
    && ((scope, provider) in l.slots ==> exists i: nat :: Standing(ops, i, scope, provider))
    && forall i: nat :: Standing(ops, i, scope, provider) ==>
         (scope, provider) in l.slots && l.slots[(scope, provider)] == (IdAt(ops, i), SecretAt(ops, i))
  }

  lemma SlotStep(l: Ledger, ops: seq<Op>, op: Op, scope: Scope, provider: string)
    requires SlotStands(l, ops, scope, provider) && l.nextId == 1 + Stores(ops)
    ensures SlotStands(Record(l, op), ops + [op], scope, provider)
  {
    hide Standing, Stores, Normalize, Strip, IdAt, SecretAt;
    var l', ops' := Record(l, op), ops + [op];
    forall i: nat | Standing(ops', i, scope, provider)
      ensures (scope, provider) in l'.slots && l'.slots[(scope, provider)] == (IdAt(ops', i), SecretAt(ops', i))
    {
      StandingBound(ops', i, scope, provider);
      StandingAppend(ops, op, i, scope, provider);
      AtAppend(ops, op, i);
    }
    if (scope, provider) in l'.slots {
      if Sets(op, scope, provider) {
        StandingAppend(ops, op, |ops|, scope, provider);
      } else {
        var i: nat :| Standing(ops, i, scope, provider);
        StandingAppend(ops, op, i, scope, provider);
        StandingBound(ops, i, scope, provider);
      }
    }
  }

  lemma StandingBound(ops: seq<Op>, i: nat, scope: Scope, provider: string)
    requires Standing(ops, i, scope, provider)
    ensures i < |ops|
  {
  }

  lemma {:induction false} SlotRun(ops: seq<Op>, scope: Scope, provider: string)
    ensures Recorded(EMPTY_LEDGER, ops).nextId == 1 + Stores(ops)
    ensures SlotStands(Recorded(EMPTY_LEDGER, ops), ops, scope, provider)
  {
    hide SlotStands, Normalize, Strip, Recorded;
    if ops == [] {
      NothingStands(scope, provider);
    } else {
      var before, last := ops[..|ops| - 1], ops[|ops| - 1];
      assert ops == before + [last];
      SlotRun(before, scope, provider);
      RecordedAppend(EMPTY_LEDGER, before, last);
      SlotStep(Recorded(EMPTY_LEDGER, before), before, last, scope, provider);
    }
  }

  lemma NothingStands(scope: Scope, provider: string)
    ensures SlotStands(EMPTY_LEDGER, [], scope, provider) && Recorded(EMPTY_LEDGER, []) == EMPTY_LEDGER && Stores([]) == 0
  {
    hide Sets, IdAt, SecretAt, Record;
  }

  lemma GrantedAppend(ops: seq<Op>, op: Op, org: Org)
    ensures Granted(ops + [op], org) <==> if Decides(op, org) then op.allow else Granted(ops, org)
  {
    var ops' := ops + [op];
    assert forall j :: 0 <= j < |ops| ==> ops'[j] == ops[j];
    assert ops'[|ops|] == op;
    if Granted(ops, org) && !Decides(op, org) {
      var i :| 0 <= i < |ops| && Decides(ops[i], org) && ops[i].allow && forall j :: i < j < |ops| ==> !Decides(ops[j], org);
      assert Decides(ops'[i], org) && ops'[i].allow;
    }
  }

  lemma {:induction false} AccessRun(ops: seq<Op>, org: Org)
    ensures var access := Recorded(EMPTY_LEDGER, ops).access;
            (org in access && access[org]) <==> Granted(ops, org)
  {
    hide Normalize, Strip, Recorded, Granted;
    if ops == [] {
      NothingGranted(org);
    } else {
      var before, last := ops[..|ops| - 1], ops[|ops| - 1];
      assert ops == before + [last];
      AccessRun(before, org);
      RecordedAppend(EMPTY_LEDGER, before, last);
      GrantedAppend(before, last, org);
    }
  }

  lemma NothingGranted(org: Org)
    ensures !Granted([], org) && Recorded(EMPTY_LEDGER, []) == EMPTY_LEDGER
  {
  }

  /** Some operation has stored this secret for the slot, and it stands. */
  ghost predicate StandsWith(ops: seq<Op>, scope: Scope, provider: string, secret: string) {
    exists i: nat :: Standing(ops, i, scope, provider) && SecretAt(ops, i) == secret
  }

  lemma SlotSecret(ops: seq<Op>, scope: Scope, provider: string, secret: string)
    ensures var l := Recorded(EMPTY_LEDGER, ops);
            StandsWith(ops, scope, provider, secret)
            <==> (scope, provider) in l.slots && l.slots[(scope, provider)].1 == secret
  {
    hide Recorded, Standing, SecretAt, IdAt;
    SlotRun(ops, scope, provider);
  }

  /** After any run an organisation gets the key that stands for its own scope; if none stands there, the
      shared one that stands, exactly if the last decision about this organisation allowed it. One that no
      decision was ever made about gets no shared key. */
  lemma ResolvesByHistory(ops: seq<Op>, provider: string, org: Org, secret: string)
    ensures ResolveApiKey(After(EMPTY, ops), provider, Some(org)) == Some(secret) <==>
            || StandsWith(ops, Some(org), provider, secret)
            || ((forall own :: !StandsWith(ops, Some(org), provider, own)) && Granted(ops, org)
                && StandsWith(ops, None, provider, secret))
  {
    hide After, Recorded, ResolveApiKey, StandsWith, Granted;
    var l := Recorded(EMPTY_LEDGER, ops);
    ResolvesLastKeySet(ops, provider, Some(org));
    AccessRun(ops, org);
    SlotSecret(ops, Some(org), provider, secret);
    SlotSecret(ops, None, provider, secret);
    if (Some(org), provider) in l.slots {
      SlotSecret(ops, Some(org), provider, l.slots[(Some(org), provider)].1);
    }
    forall own ensures StandsWith(ops, Some(org), provider, own) ==> (Some(org), provider) in l.slots {
      SlotSecret(ops, Some(org), provider, own);
    }
  }

  /** The same without an organisation: only the shared key counts, and no decision about any. */
  lemma SharedResolvesByHistory(ops: seq<Op>, provider: string, secret: string)
    ensures ResolveApiKey(After(EMPTY, ops), provider, None) == Some(secret) <==> StandsWith(ops, None, provider, secret)
  {
    hide After, Recorded, ResolveApiKey, StandsWith;
    ResolvesLastKeySet(ops, provider, None);
    SlotSecret(ops, None, provider, secret);
  }
}
