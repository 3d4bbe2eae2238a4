/** Agent-bridge leases: the lease table, its bearer-token index, and the envelope that survives a restart. */
module LeaseTable {
  import opened Text

  datatype WriteMode = Deny | Confirm | Allow

  datatype Capability =
    | AccessQueries | ImportRead | UserInteraction | PermissionWrites | AuditQueries | FileHistory
    | ShareManagement | MembershipWrites | Automation

  /** Everything about a lease that never changes; `expiresAtMs` is `None` for a lease that lives as long as its session. */
  datatype Terms = Terms(
    leaseId: string, agentName: string, scopes: seq<string>, allowRead: bool, writeMode: WriteMode,
    capabilities: set<Capability>, createdAt: int, expiresAtMs: Option<int>, persistent: bool,
    maxReadBytes: int, maxSearchResults: int, sessionUserId: Option<string>, sessionVaultId: Option<string>,
    localProjectMemoryMode: bool)

  datatype Lease = Lease(terms: Terms, token: string)

  datatype Record = Record(
    leaseId: string, token: string, agentName: string, scopes: seq<string>, allowRead: bool, writeMode: WriteMode,
    createdAt: int, maxReadBytes: int, maxSearchResults: int, sessionUserId: string, sessionVaultId: string)

  datatype Table = Table(leases: map<string, Lease>, tokenIndex: map<string, string>)

  const EMPTY := Table(map[], map[])

  /** Token `t` finds lease `id` exactly when that lease's current token is `t`. */
  ghost predicate Lockstep(table: Table) {
    forall token, id ::
      (token in table.tokenIndex && table.tokenIndex[token] == id)
      <==> (id in table.leases && table.leases[id].token == token)
  }

  // ---------------------------------------------------------------------------
  // What each operation does to the table
  // ---------------------------------------------------------------------------

  function Put(table: Table, lease: Lease): Table {
    Table(table.leases[lease.terms.leaseId := lease], table.tokenIndex[lease.token := lease.terms.leaseId])
  }

  function Drop(table: Table, leaseId: string, token: string): Table {
    Table(table.leases - {leaseId}, table.tokenIndex - {token})
  }

  function Revoked(table: Table, leaseId: string): Table {
    if leaseId in table.leases then Drop(table, leaseId, table.leases[leaseId].token) else table
  }

  function Rotated(table: Table, leaseId: string, token: string): Table {
    if leaseId !in table.leases then table
    else
      var lease := table.leases[leaseId];
      Table(table.leases[leaseId := lease.(token := token)], (table.tokenIndex - {lease.token})[token := leaseId])
  }

  predicate Expired(lease: Lease, now: int) {
    lease.terms.expiresAtMs.Some? && lease.terms.expiresAtMs.value <= now
  }

  function Pruned(table: Table, now: int): Table {
    Table(
      map id | id in table.leases && !Expired(table.leases[id], now) :: table.leases[id],
      table.tokenIndex - (set id | id in table.leases && Expired(table.leases[id], now) :: table.leases[id].token))
  }

  /** The lease a bearer token stands for on a transport. */
  function Resolve(table: Table, token: string, now: int, mcp: bool): Option<Lease> {
    var kept := Pruned(table, now);
    if token !in kept.tokenIndex || kept.tokenIndex[token] !in kept.leases then None
    else
      var lease := kept.leases[kept.tokenIndex[token]];
      if lease.terms.localProjectMemoryMode && !mcp then None else Some(lease)
  }

  // ---------------------------------------------------------------------------
  // Minting
  // ---------------------------------------------------------------------------

  const DEFAULT_TTL_MINUTES := 30
  const MIN_TTL_MINUTES := 1
  const MAX_TTL_MINUTES := 120
  const DEFAULT_MAX_READ_BYTES := 256 * 1024
  const MAX_READ_BYTES := 1024 * 1024
  const DEFAULT_MAX_SEARCH_RESULTS := 50
  const MAX_SEARCH_RESULTS := 200

  /** `scopes` is `None` when a requested scope is refused; `asked` are the capabilities passed as true. */
  datatype Input = Input(
    agentName: string, scopes: Option<seq<string>>, allowRead: bool, writeMode: WriteMode, asked: set<Capability>,
    persistent: bool, expiresWithSession: bool, localProjectMemoryMode: bool, ttlMinutes: Option<int>,
    maxReadBytes: Option<int>, maxSearchResults: Option<int>)

  function Clamp(value: Option<int>, fallback: int, low: int, high: int): int {
    var v := if value.Some? then value.value else fallback;
    var capped := if high < v then high else v;
    if capped < low then low else capped
  }

  /** `None` when `createLease` throws. An unbound folder has the empty vault id. */
  function TermsOf(
      input: Input, session: Option<string>, vaultId: string, hasStore: bool, now: int, leaseId: string): Option<Terms> {
    var bound := input.persistent || input.expiresWithSession;
    if input.localProjectMemoryMode && (input.persistent || !bound) then None
    else if session.None? || (vaultId == "" && !input.localProjectMemoryMode) then None
    else if input.scopes.None? then None
    else if input.persistent && (!hasStore || input.writeMode == Allow) then None
    else
      var wallClock := !bound || (input.localProjectMemoryMode && input.ttlMinutes.Some?);
      var expires :=
        if !wallClock then None
        else Some(now + Clamp(input.ttlMinutes, DEFAULT_TTL_MINUTES, MIN_TTL_MINUTES, MAX_TTL_MINUTES) * 60_000);
      var mayAutomate := UserInteraction in input.asked && bound && !input.persistent;
      Some(Terms(
        leaseId, input.agentName, input.scopes.value, input.allowRead, input.writeMode,
        if mayAutomate then input.asked else input.asked - {Automation},
        now, expires, input.persistent,
        Clamp(input.maxReadBytes, DEFAULT_MAX_READ_BYTES, 1024, MAX_READ_BYTES),
        Clamp(input.maxSearchResults, DEFAULT_MAX_SEARCH_RESULTS, 1, MAX_SEARCH_RESULTS),
        if bound then session else None,
        if input.persistent && vaultId != "" then Some(vaultId) else None,
        input.localProjectMemoryMode))
  }

  /** What a minted lease may be: each kind of lease has its own boundary in time, person and power. */
  lemma {:induction false} MintedLeasesAreBounded(
      input: Input, session: Option<string>, vaultId: string, hasStore: bool, now: int, leaseId: string)
    requires TermsOf(input, session, vaultId, hasStore, now, leaseId).Some?
    ensures var t := TermsOf(input, session, vaultId, hasStore, now, leaseId).value;
            && (t.sessionUserId.None? ==> t.expiresAtMs.Some?)
            && (t.expiresAtMs.Some? ==> now + 60_000 <= t.expiresAtMs.value <= now + 7_200_000)
            && (t.persistent ==> t.expiresAtMs.None? && t.writeMode != Allow && !t.localProjectMemoryMode
                                 && t.sessionUserId == session && t.sessionVaultId == Some(vaultId))
            && (Automation in t.capabilities ==> UserInteraction in t.capabilities && !t.persistent && t.sessionUserId == session)
            && (t.localProjectMemoryMode ==> t.sessionUserId == session && (input.ttlMinutes.Some? ==> t.expiresAtMs.Some?))
            && 1024 <= t.maxReadBytes <= 1_048_576 && 1 <= t.maxSearchResults <= 200
  {
  }

  /**
   * A lease is minted exactly when someone is logged in, the folder is bound or the lease is a local one, the scopes
   * are accepted, and no rule about persistent or local leases is broken.
   */
  lemma {:induction false} MintsExactly(
      input: Input, session: Option<string>, vaultId: string, hasStore: bool, now: int, leaseId: string)
    ensures TermsOf(input, session, vaultId, hasStore, now, leaseId).Some?
            <==> && session.Some? && input.scopes.Some?
                 && (if input.localProjectMemoryMode then input.expiresWithSession && !input.persistent else vaultId != "")
                 && (input.persistent ==> hasStore && input.writeMode != Allow)
  {
  }

  /** The minted lease is what was asked for: its scopes, rights and powers, but automation only where it may be. */
  lemma {:induction false} MintsWhatWasAsked(
      input: Input, session: Option<string>, vaultId: string, hasStore: bool, now: int, leaseId: string)
    requires TermsOf(input, session, vaultId, hasStore, now, leaseId).Some?
    ensures var t := TermsOf(input, session, vaultId, hasStore, now, leaseId).value;
            && t.leaseId == leaseId && t.agentName == input.agentName && Some(t.scopes) == input.scopes
            && t.allowRead == input.allowRead && t.writeMode == input.writeMode && t.persistent == input.persistent
            && t.localProjectMemoryMode == input.localProjectMemoryMode && t.createdAt == now
            && (forall c :: c != Automation ==> (c in t.capabilities <==> c in input.asked))
            && (Automation in t.capabilities
                <==> Automation in input.asked && UserInteraction in input.asked && input.expiresWithSession && !input.persistent)
            && t.sessionUserId == (if input.persistent || input.expiresWithSession then session else None)
            && t.sessionVaultId == (if input.persistent then Some(vaultId) else None)
    ensures var t := TermsOf(input, session, vaultId, hasStore, now, leaseId).value;
            && (t.expiresAtMs.Some?
                <==> !input.persistent && (input.expiresWithSession ==> input.localProjectMemoryMode && input.ttlMinutes.Some?))
            && (t.expiresAtMs.Some? && input.ttlMinutes.None? ==> t.expiresAtMs.value == now + 30 * 60_000)
            && (t.expiresAtMs.Some? && input.ttlMinutes.Some? && 1 <= input.ttlMinutes.value <= 120 ==>
                  t.expiresAtMs.value == now + input.ttlMinutes.value * 60_000)
            && (input.maxReadBytes.Some? && 1024 <= input.maxReadBytes.value <= 1_048_576 ==>
                  t.maxReadBytes == input.maxReadBytes.value)
            && (input.maxReadBytes.None? ==> t.maxReadBytes == 262_144)
            && (input.maxSearchResults.Some? && 1 <= input.maxSearchResults.value <= 200 ==>
                  t.maxSearchResults == input.maxSearchResults.value)
            && (input.maxSearchResults.None? ==> t.maxSearchResults == 50)
  {
  }

  // ---------------------------------------------------------------------------
  // The envelope
  // ---------------------------------------------------------------------------

  function OrEmpty(name: Option<string>): string {
    if name.Some? then name.value else ""
  }

  function ToRecord(lease: Lease): Record {
    var t := lease.terms;
    Record(t.leaseId, lease.token, t.agentName, t.scopes, t.allowRead, t.writeMode, t.createdAt,
           t.maxReadBytes, t.maxSearchResults, OrEmpty(t.sessionUserId), OrEmpty(t.sessionVaultId))
  }

  function FromRecord(r: Record): Lease {
    Lease(
      Terms(r.leaseId, r.agentName, r.scopes, r.allowRead, r.writeMode, {}, r.createdAt, None, true,
            r.maxReadBytes, r.maxSearchResults, Some(r.sessionUserId), Some(r.sessionVaultId), false),
      r.token)
  }

  /** `records` lists the persistent leases, each once, in some order. */
  ghost predicate Lists(records: seq<Record>, leases: map<string, Lease>) {
    && (forall i, j :: 0 <= i < j < |records| ==> records[i].leaseId != records[j].leaseId)
    && (forall r :: r in records ==>
          r.leaseId in leases && leases[r.leaseId].terms.persistent && r == ToRecord(leases[r.leaseId]))
    && (forall id :: id in leases && leases[id].terms.persistent ==> ToRecord(leases[id]) in records)
  }

  /** The stored envelope says what the table holds; without persistent leases there is none. */
  ghost predicate InStep(stored: Option<seq<Record>>, leases: map<string, Lease>) {
    if stored.Some? then stored.value != [] && Lists(stored.value, leases)
    else forall id :: id in leases ==> !leases[id].terms.persistent
  }

  predicate Mine(r: Record, user: string, vault: string) {
    r.sessionUserId == user && r.sessionVaultId == vault
  }

  function Loaded(table: Table, records: seq<Record>, user: string, vault: string): Table
    decreases |records|
  {
    if records == [] then table
    else
      Loaded(if Mine(records[0], user, vault) then Put(table, FromRecord(records[0])) else table,
             records[1..], user, vault)
  }

  // ---------------------------------------------------------------------------
  // Runs of one process
  // ---------------------------------------------------------------------------

  /**
   * `left` keeps the last token of each lease object that left the table, for the failure handler that may
   * still hold it; `retired` are the tokens that were once in the index and no longer are.
   */
  datatype World = World(table: Table, left: map<string, string>, retired: set<string>, stored: Option<seq<Record>>)

  datatype Change =
    | Create(lease: Lease)
    | CreateFailed(leaseId: string)      // the failure handler of a persistent creation's save
    | Revoke(leaseId: string)
    | RevokeAll
    | Rotate(leaseId: string, token: string)
    | Prune(now: int)
    | SessionEnd

  /**
   * What a save did to the envelope: replaced it, left it, or left nothing that can be read. Whether it also reported
   * success makes no difference but for a creation, where a reported failure is the step `CreateFailed`.
   */
  datatype Effect = Written | Kept | Torn

  /** A change with the effect of the save it starts, if it starts one, and what is stored afterwards. */
  datatype Step = Step(change: Change, effect: Effect, stored: Option<seq<Record>>)

  function After(w: World, change: Change): Table {
    match change
    case Create(lease) => Put(w.table, lease)
    case CreateFailed(id) =>
      if id in w.left then Drop(w.table, id, w.left[id]) else Revoked(w.table, id)
    case Revoke(id) => Revoked(w.table, id)
    case RevokeAll => EMPTY
    case Rotate(id, token) => Rotated(w.table, id, token)
    case Prune(now) => Pruned(w.table, now)
    case SessionEnd => EMPTY
  }

  ghost predicate Saves(w: World, change: Change) {
    match change
    case Create(lease) => lease.terms.persistent
    case Revoke(id) => id in w.table.leases && w.table.leases[id].terms.persistent
    case Rotate(id, _) => id in w.table.leases && w.table.leases[id].terms.persistent
    case RevokeAll => exists id :: id in w.table.leases && w.table.leases[id].terms.persistent
    case SessionEnd => true
    case CreateFailed(_) => false
    case Prune(_) => false
  }

  /** Random ids and tokens are new; persistent leases have no wall-clock expiry. */
  predicate Possible(w: World, change: Change) {
    match change
    case Create(lease) =>
      && lease.terms.leaseId !in w.table.leases && lease.terms.leaseId !in w.left
      && lease.token !in w.table.tokenIndex && lease.token !in w.retired
      && (lease.terms.persistent ==> lease.terms.expiresAtMs.None?)
    case Rotate(_, token) => token !in w.table.tokenIndex && token !in w.retired
    case _ => true
  }

  ghost predicate Enabled(w: World, step: Step) {
    && Possible(w, step.change)
    && if Saves(w, step.change) && step.effect.Written? then InStep(step.stored, After(w, step.change).leases)
       else if Saves(w, step.change) && step.effect.Torn? then step.stored == None
       else step.stored == w.stored
  }

  ghost function Next(w: World, step: Step): World {
    var table := After(w, step.change);
    World(
      table,
      map id | id in w.left.Keys + w.table.leases.Keys && (id in w.left || id !in table.leases) ::
        if id in w.left then w.left[id] else w.table.leases[id].token,
      w.retired + (w.table.tokenIndex.Keys - table.tokenIndex.Keys),
      step.stored)
  }

  ghost predicate Inv(w: World) {
    && Lockstep(w.table)
    && (forall id :: id in w.table.leases ==>
          && w.table.leases[id].terms.leaseId == id && id !in w.left
          && (w.table.leases[id].terms.persistent ==> w.table.leases[id].terms.expiresAtMs.None?))
    && (forall id :: id in w.left ==> w.left[id] in w.retired)
    && w.retired !! w.table.tokenIndex.Keys
  }

  lemma {:induction false} RevokedKeepsLockstep(table: Table, id: string)
    requires Lockstep(table)
    ensures Lockstep(Revoked(table, id))
  {
    if id in table.leases {
      var token := table.leases[id].token;
      assert table.tokenIndex[token] == id;
    }
  }

  lemma {:induction false} RotatedKeepsLockstep(table: Table, id: string, unused: string)
    requires Lockstep(table) && unused !in table.tokenIndex
    ensures Lockstep(Rotated(table, id, unused))
  {
    if id in table.leases {
      assert table.tokenIndex[table.leases[id].token] == id;
    }
  }

  lemma {:induction false} PrunedKeepsLockstep(table: Table, now: int)
    requires Lockstep(table)
    ensures Lockstep(Pruned(table, now))
  {
    var kept := Pruned(table, now);
    forall token, id
      ensures (token in kept.tokenIndex && kept.tokenIndex[token] == id)
              <==> (id in kept.leases && kept.leases[id].token == token)
    {
      assert (token in table.tokenIndex && table.tokenIndex[token] == id)
             <==> (id in table.leases && table.leases[id].token == token);
    }
  }

  lemma {:induction false} AfterKeepsLockstep(w: World, change: Change)
    requires Inv(w) && Possible(w, change)
    ensures Lockstep(After(w, change))
  {
    match change {
      case Create(lease) =>
        var id := lease.terms.leaseId;
        forall token | token in w.table.tokenIndex
          ensures w.table.tokenIndex[token] != id
        {
          assert w.table.tokenIndex[token] in w.table.leases;
        }
      case CreateFailed(id) =>
        if id in w.left {
          assert w.table.leases - {id} == w.table.leases;
          assert w.table.tokenIndex - {w.left[id]} == w.table.tokenIndex;
        } else {
          RevokedKeepsLockstep(w.table, id);
        }
      case Revoke(id) => RevokedKeepsLockstep(w.table, id);
      case Rotate(id, token) => RotatedKeepsLockstep(w.table, id, token);
      case Prune(now) => PrunedKeepsLockstep(w.table, now);
      case _ =>
    }
  }

  /** A lease object leaves the table only with its token, and a token outside the index was never in it or is retired. */
  lemma {:induction false} LeavingRetires(w: World, change: Change, id: string)
    requires Inv(w) && Possible(w, change) && id in w.table.leases && id !in After(w, change).leases
    ensures w.table.leases[id].token in w.table.tokenIndex && w.table.leases[id].token !in After(w, change).tokenIndex
  {
    var token := w.table.leases[id].token;
    assert w.table.tokenIndex[token] == id;
    AfterKeepsLockstep(w, change);
  }

  lemma {:induction false} StepKeepsInv(w: World, step: Step)
    requires Inv(w) && Enabled(w, step)
    ensures Inv(Next(w, step))
  {
    AfterKeepsLockstep(w, step.change);
    StepKeepsTerms(w, step.change);
    LeftAreRetired(w, step);
    RetiredStayOut(w, step.change);
  }

  lemma {:induction false} LeftAreRetired(w: World, step: Step)
    requires Inv(w) && Possible(w, step.change)
    ensures var w' := Next(w, step); forall id :: id in w'.left ==> w'.left[id] in w'.retired
  {
    var w' := Next(w, step);
    forall id | id in w'.left
      ensures w'.left[id] in w'.retired
    {
      if id !in w.left { LeavingRetires(w, step.change, id); }
    }
  }

  lemma {:induction false} StepKeepsTerms(w: World, change: Change)
    requires Inv(w) && Possible(w, change)
    ensures var leases := After(w, change).leases;
            forall id :: id in leases ==>
              && leases[id].terms.leaseId == id && id !in w.left
              && (leases[id].terms.persistent ==> leases[id].terms.expiresAtMs.None?)
  {
  }

  /** No operation brings a retired token back into the index. */
  lemma {:induction false} RetiredStayOut(w: World, change: Change)
    requires Inv(w) && Possible(w, change)
    ensures w.retired !! After(w, change).tokenIndex.Keys
  {
  }

  ghost predicate Runs(w: World, run: seq<Step>)
    decreases run
  {
    run != [] ==> Enabled(w, run[0]) && Runs(Next(w, run[0]), run[1..])
  }

  ghost function End(w: World, run: seq<Step>): World
    decreases run
  {
    if run == [] then w else End(Next(w, run[0]), run[1..])
  }

  lemma {:induction false} RunKeepsInv(w: World, run: seq<Step>)
    requires Inv(w) && Runs(w, run)
    ensures Inv(End(w, run)) && w.retired <= End(w, run).retired
    decreases run
  {
    if run != [] {
      StepKeepsInv(w, run[0]);
      RunKeepsInv(Next(w, run[0]), run[1..]);
    }
  }

  // ---------------------------------------------------------------------------
  // What a bearer token stands for
  // ---------------------------------------------------------------------------

  /** In a table in lockstep a token stands for the one unexpired lease that carries it now, and for nothing else. */
  lemma {:induction false} ResolvesToItsLease(table: Table, token: string, now: int, mcp: bool, lease: Lease)
    requires Lockstep(table)
    requires forall id :: id in table.leases ==> table.leases[id].terms.leaseId == id
    ensures Resolve(table, token, now, mcp) == Some(lease)
            <==> (&& lease in table.leases.Values && lease.token == token && !Expired(lease, now)
                  && (lease.terms.localProjectMemoryMode ==> mcp))
  {
    PrunedKeepsLockstep(table, now);
    var kept := Pruned(table, now);
    if lease in table.leases.Values && lease.token == token && !Expired(lease, now) {
      var id :| id in table.leases && table.leases[id] == lease;
      assert id in kept.leases && kept.leases[id].token == token;
      assert kept.tokenIndex[token] == id;
    }
  }

  predicate LivesOn(lease: Lease, now: int, mcp: bool) {
    && (lease.terms.expiresAtMs.Some? ==> now < lease.terms.expiresAtMs.value)
    && (lease.terms.localProjectMemoryMode ==> mcp)
  }

  lemma {:induction false} ResolvesThroughIndex(table: Table, token: string, now: int, mcp: bool)
    requires Lockstep(table)
    ensures token in table.tokenIndex ==> table.tokenIndex[token] in table.leases
    ensures Resolve(table, token, now, mcp)
            == if token in table.tokenIndex && LivesOn(table.leases[table.tokenIndex[token]], now, mcp)
               then Some(table.leases[table.tokenIndex[token]]) else None
  {
    PrunedKeepsLockstep(table, now);
    var kept := Pruned(table, now);
    if token in table.tokenIndex {
      var id := table.tokenIndex[token];
      assert id in table.leases && table.leases[id].token == token;
      if !Expired(table.leases[id], now) { assert kept.tokenIndex[token] == id; }
    }
  }

  /**
   * What each operation changes about who gets in: a creation adds its lease, a revocation or failed creation takes
   * one token away, a rotation moves a lease from one token to another, and nothing else changes for any token.
   */
  lemma {:induction false} ChangesWhoResolves(w: World, change: Change, token: string, now: int, mcp: bool)
    requires Inv(w) && Possible(w, change)
    ensures var before, after := Resolve(w.table, token, now, mcp), Resolve(After(w, change), token, now, mcp);
            && (change.Create? ==>
                  after == (if token == change.lease.token then (if LivesOn(change.lease, now, mcp) then Some(change.lease) else None)
                            else before))
            && (change.Revoke? || change.CreateFailed? ==>
                  after == if HeldUnder(w.table, change.leaseId, token) then None else before)
            && (change.RevokeAll? || change.SessionEnd? ==> after == None)
            && (change.Prune? && change.now <= now ==> after == before)
  {
    AfterKeepsLockstep(w, change);
    ResolvesThroughIndex(w.table, token, now, mcp);
    ResolvesThroughIndex(After(w, change), token, now, mcp);
    if token in w.table.tokenIndex { assert w.table.leases[w.table.tokenIndex[token]].token == token; }
    if change.CreateFailed? && change.leaseId in w.left { assert w.left[change.leaseId] in w.retired; }
  }

  predicate HeldUnder(table: Table, id: string, token: string) {
    id in table.leases && table.leases[id].token == token
  }

  /** A rotation: the old token stops working, the new one gives the same lease, and every other works as before. */
  lemma {:induction false} RotationSwitches(w: World, id: string, unused: string, token: string, now: int, mcp: bool)
    requires Inv(w) && Possible(w, Rotate(id, unused))
    ensures var before, after := Resolve(w.table, token, now, mcp), Resolve(After(w, Rotate(id, unused)), token, now, mcp);
            if id in w.table.leases && token == unused
            then after == if LivesOn(w.table.leases[id], now, mcp) then Some(Lease(w.table.leases[id].terms, unused)) else None
            else if HeldUnder(w.table, id, token) then after == None
            else after == before
  {
    AfterKeepsLockstep(w, Rotate(id, unused));
    ResolvesThroughIndex(w.table, token, now, mcp);
    ResolvesThroughIndex(After(w, Rotate(id, unused)), token, now, mcp);
    if token in w.table.tokenIndex { assert w.table.leases[w.table.tokenIndex[token]].token == token; }
  }

  /**
   * Lockstep over a process's life: from any table in lockstep, whatever the sequence of operations and whichever
   * saves fail, tokens and leases stay in lockstep, and a token that was once rotated away, revoked, pruned or
   * dropped stands for nothing from then on.
   */
  lemma {:induction false} RetiredTokensResolveToNothing(w: World, before: seq<Step>, after: seq<Step>, token: string, now: int, mcp: bool)
    requires Inv(w) && Runs(w, before) && Runs(End(w, before), after)
    requires token in w.table.tokenIndex && token !in End(w, before).table.tokenIndex
    ensures var e := End(End(w, before), after); Lockstep(e.table) && Resolve(e.table, token, now, mcp) == None
  {
    RunKeepsInv(w, before);
    LostTokenIsRetired(w, before, token);
    RunKeepsInv(End(w, before), after);
  }

  lemma {:induction false} LostTokenIsRetired(w: World, run: seq<Step>, token: string)
    requires Inv(w) && Runs(w, run)
    requires token in w.table.tokenIndex || token in w.retired
    requires token !in End(w, run).table.tokenIndex
    ensures token in End(w, run).retired
    decreases run
  {
    if run != [] {
      StepKeepsInv(w, run[0]);
      LostTokenIsRetired(Next(w, run[0]), run[1..], token);
    }
  }

  // ---------------------------------------------------------------------------
  // Loading
  // ---------------------------------------------------------------------------

  /** The records of this user and vault name each lease and each token once. */
  ghost predicate OneEach(records: seq<Record>, user: string, vault: string) {
    forall i, j :: 0 <= i < j < |records| && Mine(records[i], user, vault) && Mine(records[j], user, vault) ==>
      records[i].leaseId != records[j].leaseId && records[i].token != records[j].token
  }

  ghost predicate Names(records: seq<Record>, user: string, vault: string, id: string) {
    exists r :: r in records && Mine(r, user, vault) && r.leaseId == id
  }

  ghost predicate Carries(records: seq<Record>, user: string, vault: string, token: string) {
    exists r :: r in records && Mine(r, user, vault) && r.token == token
  }

  lemma {:induction false} LoadLeavesOthers(table: Table, records: seq<Record>, user: string, vault: string)
    ensures var l := Loaded(table, records, user, vault);
            && (forall id :: !Names(records, user, vault, id) ==>
                  (id in l.leases <==> id in table.leases) && (id in table.leases ==> l.leases[id] == table.leases[id]))
            && (forall t :: !Carries(records, user, vault, t) ==>
                  && (t in l.tokenIndex <==> t in table.tokenIndex)
                  && (t in table.tokenIndex ==> l.tokenIndex[t] == table.tokenIndex[t]))
    decreases |records|
  {
    if records != [] {
      var r := records[0];
      assert r in records;
      var next := if Mine(r, user, vault) then Put(table, FromRecord(r)) else table;
      LoadLeavesOthers(next, records[1..], user, vault);
      forall id | Names(records[1..], user, vault, id)
        ensures Names(records, user, vault, id)
      {
        var q :| q in records[1..] && Mine(q, user, vault) && q.leaseId == id;
        assert q in records;
      }
      forall t | Carries(records[1..], user, vault, t)
        ensures Carries(records, user, vault, t)
      {
        var q :| q in records[1..] && Mine(q, user, vault) && q.token == t;
        assert q in records;
      }
    }
  }

  lemma {:induction false} LoadRestores(table: Table, records: seq<Record>, user: string, vault: string, i: nat)
    requires OneEach(records, user, vault) && i < |records| && Mine(records[i], user, vault)
    ensures var l := Loaded(table, records, user, vault);
            var r := records[i];
            && r.leaseId in l.leases && l.leases[r.leaseId] == FromRecord(r)
            && r.token in l.tokenIndex && l.tokenIndex[r.token] == r.leaseId
    decreases |records|
  {
    var next := if Mine(records[0], user, vault) then Put(table, FromRecord(records[0])) else table;
    if i == 0 {
      LoadLeavesOthers(next, records[1..], user, vault);
    } else {
      assert records[1..][i - 1] == records[i];
      LoadRestores(next, records[1..], user, vault, i - 1);
    }
  }

  /** The lease `id` of the table is replaced by a record with another token. */
  ghost predicate IdRetaken(table: Table, records: seq<Record>, user: string, vault: string, id: string)
    requires id in table.leases
  {
    exists r :: r in records && Mine(r, user, vault) && r.leaseId == id && r.token != table.leases[id].token
  }

  /** Its token is given to another lease. */
  ghost predicate TokenRetaken(table: Table, records: seq<Record>, user: string, vault: string, id: string)
    requires id in table.leases
  {
    exists r :: r in records && Mine(r, user, vault) && r.leaseId != id && r.token == table.leases[id].token
  }

  lemma {:induction false} LoadRestoresRecord(table: Table, records: seq<Record>, user: string, vault: string, r: Record)
    requires OneEach(records, user, vault) && r in records && Mine(r, user, vault)
    ensures var l := Loaded(table, records, user, vault);
            && r.leaseId in l.leases && l.leases[r.leaseId] == FromRecord(r)
            && r.token in l.tokenIndex && l.tokenIndex[r.token] == r.leaseId
  {
    var i :| 0 <= i < |records| && records[i] == r;
    LoadRestores(table, records, user, vault, i);
  }

  lemma {:induction false} LoadedPairKept(table: Table, records: seq<Record>, user: string, vault: string, token: string, id: string)
    requires Lockstep(table) && OneEach(records, user, vault)
    requires id in table.leases ==> (IdRetaken(table, records, user, vault, id) <==> TokenRetaken(table, records, user, vault, id))
    ensures var l := Loaded(table, records, user, vault);
            (token in l.tokenIndex && l.tokenIndex[token] == id) <==> (id in l.leases && l.leases[id].token == token)
  {
    LoadLeavesOthers(table, records, user, vault);
    if Names(records, user, vault, id) {
      var r :| r in records && Mine(r, user, vault) && r.leaseId == id;
      LoadRestoresRecord(table, records, user, vault, r);
    }
    if Carries(records, user, vault, token) {
      var q :| q in records && Mine(q, user, vault) && q.token == token;
      LoadRestoresRecord(table, records, user, vault, q);
    }
  }

  lemma {:induction false} LoadedPairLost(table: Table, records: seq<Record>, user: string, vault: string, id: string)
    requires Lockstep(table) && OneEach(records, user, vault) && id in table.leases
    requires Lockstep(Loaded(table, records, user, vault))
    ensures IdRetaken(table, records, user, vault, id) <==> TokenRetaken(table, records, user, vault, id)
  {
    LoadLeavesOthers(table, records, user, vault);
    var token := table.leases[id].token;
    assert table.tokenIndex[token] == id;
    if Names(records, user, vault, id) {
      var r :| r in records && Mine(r, user, vault) && r.leaseId == id;
      LoadRestoresRecord(table, records, user, vault, r);
    }
    if Carries(records, user, vault, token) {
      var q :| q in records && Mine(q, user, vault) && q.token == token;
      LoadRestoresRecord(table, records, user, vault, q);
    }
  }

  /**
   * Loading an envelope over a table that already holds leases keeps lockstep exactly when every lease it takes
   * over with another token also loses its old token to another lease. An empty table is always safe.
   */
  lemma {:induction false} LoadKeepsLockstep(table: Table, records: seq<Record>, user: string, vault: string)
    requires Lockstep(table) && OneEach(records, user, vault)
    ensures Lockstep(Loaded(table, records, user, vault))
            <==> forall id :: id in table.leases ==>
                   (IdRetaken(table, records, user, vault, id) <==> TokenRetaken(table, records, user, vault, id))
  {
    if Lockstep(Loaded(table, records, user, vault)) {
      forall id | id in table.leases
        ensures IdRetaken(table, records, user, vault, id) <==> TokenRetaken(table, records, user, vault, id)
      {
        LoadedPairLost(table, records, user, vault, id);
      }
    }
    if forall id :: id in table.leases ==>
         (IdRetaken(table, records, user, vault, id) <==> TokenRetaken(table, records, user, vault, id)) {
      var l := Loaded(table, records, user, vault);
      forall token, id
        ensures (token in l.tokenIndex && l.tokenIndex[token] == id) <==> (id in l.leases && l.leases[id].token == token)
      {
        LoadedPairKept(table, records, user, vault, token, id);
      }
    }
  }

  /** A record loaded over its own lease after a rotation: both tokens then resolve to the lease. */
  lemma {:induction false} LoadOverRotationBreaksLockstep(lease: Lease, token: string, user: string, vault: string)
    requires token != lease.token && Mine(ToRecord(lease), user, vault)
    ensures var table := Rotated(Put(EMPTY, lease), lease.terms.leaseId, token);
            var l := Loaded(table, [ToRecord(lease)], user, vault);
            && Lockstep(table) && !Lockstep(l)
            && token in l.tokenIndex && lease.token in l.tokenIndex
            && l.tokenIndex[token] == l.tokenIndex[lease.token] == lease.terms.leaseId
  {
    var table := Rotated(Put(EMPTY, lease), lease.terms.leaseId, token);
    var l := Loaded(table, [ToRecord(lease)], user, vault);
    assert [ToRecord(lease)][1..] == [];
    assert Loaded(Put(table, FromRecord(ToRecord(lease))), [], user, vault) == Put(table, FromRecord(ToRecord(lease)));
    assert l == Put(table, FromRecord(ToRecord(lease)));
    var id := lease.terms.leaseId;
    assert l.tokenIndex[token] == id && l.leases[id].token == lease.token;
    assert !((token in l.tokenIndex && l.tokenIndex[token] == id) <==> (id in l.leases && l.leases[id].token == token));
  }

  // ---------------------------------------------------------------------------
  // Persist, then load in a fresh process
  // ---------------------------------------------------------------------------

  /** The lease comes back when this user reopens this vault. */
  predicate Returns(lease: Lease, user: string, vault: string) {
    lease.terms.persistent && IsFor(lease.terms.sessionUserId, user) && IsFor(lease.terms.sessionVaultId, vault)
  }

  predicate IsFor(owner: Option<string>, name: string) {
    if owner.Some? then owner.value == name else name == ""
  }

  /** The lease a restart brings back: what a record holds, none of the powers it does not, and no deadline. */
  function Reloaded(lease: Lease, user: string, vault: string): Lease {
    Lease(
      lease.terms.(capabilities := {}, expiresAtMs := None, localProjectMemoryMode := false,
                   sessionUserId := Some(user), sessionVaultId := Some(vault)),
      lease.token)
  }

  lemma {:induction false} ListedOneEach(records: seq<Record>, table: Table, user: string, vault: string)
    requires Lockstep(table) && Lists(records, table.leases)
    ensures OneEach(records, user, vault)
  {
    forall i, j | 0 <= i < j < |records|
      ensures records[i].leaseId != records[j].leaseId && records[i].token != records[j].token
    {
      assert records[i] in records && records[j] in records;
      assert table.tokenIndex[records[i].token] == records[i].leaseId;
      assert table.tokenIndex[records[j].token] == records[j].leaseId;
    }
  }

  /**
   * Any listing of the persistent leases, loaded into an empty table for a user and a vault, gives back exactly
   * their persistent leases, each with everything a record holds and none of the powers it does not, in lockstep.
   */
  lemma {:induction false} PersistThenLoad(table: Table, records: seq<Record>, user: string, vault: string)
    requires Lockstep(table) && Lists(records, table.leases)
    requires forall id :: id in table.leases ==> table.leases[id].terms.leaseId == id
    ensures var l := Loaded(EMPTY, records, user, vault);
            && Lockstep(l)
            && (forall id :: id in l.leases <==> id in table.leases && Returns(table.leases[id], user, vault))
            && (forall id :: id in l.leases ==> l.leases[id] == Reloaded(table.leases[id], user, vault))
  {
    ListedOneEach(records, table, user, vault);
    LoadKeepsLockstep(EMPTY, records, user, vault);
    LoadLeavesOthers(EMPTY, records, user, vault);
    var l := Loaded(EMPTY, records, user, vault);
    forall id
      ensures id in l.leases <==> id in table.leases && Returns(table.leases[id], user, vault)
      ensures id in l.leases ==> l.leases[id] == Reloaded(table.leases[id], user, vault)
    {
      if Names(records, user, vault, id) {
        var r :| r in records && Mine(r, user, vault) && r.leaseId == id;
        LoadRestoresRecord(EMPTY, records, user, vault, r);
      } else if id in table.leases && table.leases[id].terms.persistent {
        assert ToRecord(table.leases[id]) in records;
      }
    }
  }

  function StoredRecords(stored: Option<seq<Record>>): seq<Record> {
    if stored.Some? then stored.value else []
  }

  lemma {:induction false} RestartAgrees(table: Table, stored: Option<seq<Record>>, user: string, vault: string, token: string)
    requires Lockstep(table) && InStep(stored, table.leases)
    requires forall id :: id in table.leases ==> table.leases[id].terms.leaseId == id
    ensures var l := Loaded(EMPTY, StoredRecords(stored), user, vault);
            && (token in l.tokenIndex <==>
                  && token in table.tokenIndex && table.tokenIndex[token] in table.leases
                  && Returns(table.leases[table.tokenIndex[token]], user, vault))
            && (token in l.tokenIndex ==> l.tokenIndex[token] == table.tokenIndex[token])
  {
    PersistThenLoad(table, StoredRecords(stored), user, vault);
    var l := Loaded(EMPTY, StoredRecords(stored), user, vault);
    assert token in l.tokenIndex ==> l.tokenIndex[token] in l.leases && l.leases[l.tokenIndex[token]].token == token;
    assert forall id :: id in l.leases ==> l.leases[id].token == table.leases[id].token;
  }

  // ---------------------------------------------------------------------------
  // What a restart brings back
  // ---------------------------------------------------------------------------

  /** The table as the stored envelope knows it: at the last save that had an effect, or `from` if none had. */
  ghost function LastSaved(w: World, run: seq<Step>, from: Option<Table>): Option<Table>
    decreases run
  {
    if run == [] then from
    else
      var next := Next(w, run[0]);
      LastSaved(next, run[1..],
        if !Saves(w, run[0].change) || run[0].effect.Kept? then from
        else if run[0].effect.Written? then Some(next.table)
        else Some(EMPTY))
  }

  /** The envelope is that of `table`, and the table is in order. */
  ghost predicate Matches(stored: Option<seq<Record>>, table: Table) {
    && InStep(stored, table.leases) && Lockstep(table)
    && forall id :: id in table.leases ==> table.leases[id].terms.leaseId == id
  }

  lemma {:induction false} RunMatchesLastSaved(w: World, run: seq<Step>, from: Option<Table>)
    requires Inv(w) && Runs(w, run) && (from.Some? ==> Matches(w.stored, from.value))
    ensures LastSaved(w, run, from).Some? ==> Matches(End(w, run).stored, LastSaved(w, run, from).value)
    decreases run
  {
    if run != [] {
      StepKeepsInv(w, run[0]);
      var next := Next(w, run[0]);
      var from' := if !Saves(w, run[0].change) || run[0].effect.Kept? then from
                   else if run[0].effect.Written? then Some(next.table)
                   else Some(EMPTY);
      RunMatchesLastSaved(next, run[1..], from');
    }
  }

  /** What is known to be stored at the beginning of a run: the table's own envelope, or nothing is known. */
  ghost function KnownStored(w: World): Option<Table> {
    if InStep(w.stored, w.table.leases) then Some(w.table) else None
  }

  /** `token` is held in `table` for a persistent lease of this user and vault. */
  ghost predicate HeldFor(table: Table, token: string, user: string, vault: string) {
    && token in table.tokenIndex && table.tokenIndex[token] in table.leases
    && Returns(table.leases[table.tokenIndex[token]], user, vault)
  }

  /**
   * After any run, whichever saves had an effect and whichever creations failed, a new process for a user and a vault
   * accepts a bearer token exactly when it was held for a persistent lease of theirs at the last save that had an
   * effect, and then for that same lease.
   */
  lemma {:induction false} RestartAcceptsLastSaved(w: World, run: seq<Step>, user: string, vault: string, token: string)
    requires Inv(w) && Runs(w, run) && LastSaved(w, run, KnownStored(w)).Some?
    ensures var last := LastSaved(w, run, KnownStored(w)).value;
            var l := Loaded(EMPTY, StoredRecords(End(w, run).stored), user, vault);
            && (token in l.tokenIndex <==> HeldFor(last, token, user, vault))
            && (token in l.tokenIndex ==> l.tokenIndex[token] == last.tokenIndex[token])
  {
    RunMatchesLastSaved(w, run, KnownStored(w));
    RestartAgrees(LastSaved(w, run, KnownStored(w)).value, End(w, run).stored, user, vault, token);
  }

  ghost predicate SomePersistent(leases: map<string, Lease>) {
    exists id :: id in leases && leases[id].terms.persistent
  }

  /** The step changes which persistent leases there are, or their tokens, and the envelope does not follow. */
  ghost predicate LeavesBehind(w: World, step: Step) {
    if !Saves(w, step.change) then
      step.change.CreateFailed? && step.change.leaseId in w.table.leases && w.table.leases[step.change.leaseId].terms.persistent
    else match step.effect
      case Written => false
      case Torn => SomePersistent(After(w, step.change).leases)
      case Kept => step.change.SessionEnd? ==> SomePersistent(w.table.leases)
  }

  lemma {:induction false} SamePersistentInStep(stored: Option<seq<Record>>, a: map<string, Lease>, b: map<string, Lease>)
    requires InStep(stored, a)
    requires forall id :: id in a && a[id].terms.persistent ==> id in b && b[id] == a[id]
    requires forall id :: id in b && b[id].terms.persistent ==> id in a && a[id] == b[id]
    ensures InStep(stored, b)
  {
  }

  lemma {:induction false} MissingIsBehind(stored: Option<seq<Record>>, a: map<string, Lease>, b: map<string, Lease>, id: string)
    requires InStep(stored, a) && id in a && a[id].terms.persistent && a[id].terms.leaseId == id
    requires id in b ==> b[id].token != a[id].token
    ensures !InStep(stored, b)
  {
    assert ToRecord(a[id]) in stored.value;
  }

  lemma {:induction false} KeptIsBehind(w: World, change: Change)
    requires Inv(w) && Possible(w, change) && InStep(w.stored, w.table.leases)
    requires Saves(w, change) && (change.SessionEnd? ==> SomePersistent(w.table.leases))
    ensures !InStep(w.stored, After(w, change).leases)
  {
    var before, after := w.table.leases, After(w, change).leases;
    match change {
      case Create(lease) =>
        assert after[lease.terms.leaseId] == lease;
      case Rotate(id, token) =>
        assert w.table.tokenIndex[before[id].token] == id;
        MissingIsBehind(w.stored, before, after, id);
      case Revoke(id) => MissingIsBehind(w.stored, before, after, id);
      case RevokeAll =>
        var id :| id in before && before[id].terms.persistent;
        MissingIsBehind(w.stored, before, after, id);
      case SessionEnd =>
        var id :| id in before && before[id].terms.persistent;
        MissingIsBehind(w.stored, before, after, id);
      case _ =>
    }
  }

  lemma {:induction false} UnsavedInStep(w: World, step: Step)
    requires Inv(w) && Enabled(w, step) && InStep(w.stored, w.table.leases) && !Saves(w, step.change)
    ensures InStep(w.stored, After(w, step.change).leases) <==> !LeavesBehind(w, step)
  {
    var before, after := w.table.leases, After(w, step.change).leases;
    if LeavesBehind(w, step) {
      MissingIsBehind(w.stored, before, after, step.change.leaseId);
    } else {
      SamePersistentInStep(w.stored, before, after);
    }
  }

  /** Step by step: an envelope in step stays in step exactly when the step does not leave it behind. */
  lemma {:induction false} StaysInStepExactly(w: World, step: Step)
    requires Inv(w) && Enabled(w, step) && InStep(w.stored, w.table.leases)
    ensures InStep(Next(w, step).stored, Next(w, step).table.leases) <==> !LeavesBehind(w, step)
  {
    if !Saves(w, step.change) {
      UnsavedInStep(w, step);
    } else if step.effect.Kept? {
      if LeavesBehind(w, step) { KeptIsBehind(w, step.change); }
    }
  }

  /**
   * While no step leaves the envelope behind, or after a save that took effect with none doing so since, a new process
   * accepts exactly the tokens the old one holds for persistent leases of the user and vault.
   */
  lemma {:induction false} TokensSurviveRestart(w: World, run: seq<Step>, user: string, vault: string, token: string)
    requires Inv(w) && Runs(w, run)
    requires InStep(w.stored, w.table.leases) || (run != [] && Saves(w, run[0].change) && run[0].effect.Written?)
    requires NoneLeftBehind(w, run)
    ensures var e := End(w, run);
            var l := Loaded(EMPTY, StoredRecords(e.stored), user, vault);
            && (token in l.tokenIndex <==> HeldFor(e.table, token, user, vault))
            && (token in l.tokenIndex ==> l.tokenIndex[token] == e.table.tokenIndex[token])
  {
    RunKeepsInv(w, run);
    RunStaysInStep(w, run);
    RestartAgrees(End(w, run).table, End(w, run).stored, user, vault, token);
  }

  ghost predicate NoneLeftBehind(w: World, run: seq<Step>)
    decreases run
  {
    run != [] ==> !LeavesBehind(w, run[0]) && NoneLeftBehind(Next(w, run[0]), run[1..])
  }

  lemma {:induction false} RunStaysInStep(w: World, run: seq<Step>)
    requires Inv(w) && Runs(w, run) && NoneLeftBehind(w, run)
    requires InStep(w.stored, w.table.leases) || (run != [] && Saves(w, run[0].change) && run[0].effect.Written?)
    ensures InStep(End(w, run).stored, End(w, run).table.leases)
    decreases run
  {
    if run != [] {
      StepKeepsInv(w, run[0]);
      if InStep(w.stored, w.table.leases) { StaysInStepExactly(w, run[0]); }
      RunStaysInStep(Next(w, run[0]), run[1..]);
    }
  }

  // ---------------------------------------------------------------------------
  // What is left behind comes back
  // ---------------------------------------------------------------------------

  /**
   * A rotation whose save has no effect, in any world whose envelope is in step: the running process refuses the old
   * token from then on, and a new one accepts it again, for the same lease, and refuses the new token.
   */
  lemma {:induction false} UnsavedRotationRevives(w: World, id: string, token: string, user: string, vault: string, now: int, mcp: bool)
    requires Inv(w) && InStep(w.stored, w.table.leases) && Possible(w, Rotate(id, token))
    requires id in w.table.leases && Returns(w.table.leases[id], user, vault)
    ensures var old_ := w.table.leases[id].token;
            var step := Step(Rotate(id, token), Kept, w.stored);
            var l := Loaded(EMPTY, StoredRecords(Next(w, step).stored), user, vault);
            && Enabled(w, step)
            && Resolve(Next(w, step).table, old_, now, mcp) == None
            && old_ in l.tokenIndex && l.tokenIndex[old_] == id && token !in l.tokenIndex
  {
    var old_ := w.table.leases[id].token;
    assert w.table.tokenIndex[old_] == id;
    RestartAgrees(w.table, w.stored, user, vault, old_);
    RestartAgrees(w.table, w.stored, user, vault, token);
    var table := Rotated(w.table, id, token);
    assert old_ !in table.tokenIndex;
  }

  /**
   * A failed creation that comes back: its own save has no effect, the save of a second creation takes its snapshot of
   * both, and only then does the first one's failure handler drop it. It resolves to nothing in the running process,
   * and a new one accepts its token.
   */
  lemma {:induction false} FailedCreationComesBack(
      w: World, a: Lease, b: Lease, records: seq<Record>, user: string, vault: string, now: int, mcp: bool)
    requires Inv(w) && Possible(w, Create(a)) && Possible(Next(w, Step(Create(a), Kept, w.stored)), Create(b))
    requires a.terms.persistent && b.terms.persistent && Returns(a, user, vault)
    requires InStep(Some(records), Put(Put(w.table, a), b).leases)
    ensures var run := [Step(Create(a), Kept, w.stored), Step(Create(b), Written, Some(records)),
                        Step(CreateFailed(a.terms.leaseId), Kept, Some(records))];
            && Runs(w, run)
            && Resolve(End(w, run).table, a.token, now, mcp) == None
            && a.token in Loaded(EMPTY, StoredRecords(End(w, run).stored), user, vault).tokenIndex
  {
    var s1, s2 := Step(Create(a), Kept, w.stored), Step(Create(b), Written, Some(records));
    var s3 := Step(CreateFailed(a.terms.leaseId), Kept, Some(records));
    StepKeepsInv(w, s1);
    StepKeepsInv(Next(w, s1), s2);
    BothCreated(w, a, b);
    DroppedButStored(Next(Next(w, s1), s2), a, records, user, vault, now, mcp);
    RunOfThree(w, s1, s2, s3);
  }

  lemma {:induction false} RunOfThree(w: World, s1: Step, s2: Step, s3: Step)
    requires Enabled(w, s1) && Enabled(Next(w, s1), s2) && Enabled(Next(Next(w, s1), s2), s3)
    ensures Runs(w, [s1, s2, s3]) && End(w, [s1, s2, s3]) == Next(Next(Next(w, s1), s2), s3)
  {
    var w1 := Next(w, s1);
    var w2 := Next(w1, s2);
    RunPrepends(w2, s3, []);
    RunPrepends(w1, s2, [s3]);
    RunPrepends(w, s1, [s2, s3]);
    assert [s2] + [s3] == [s2, s3] && [s1] + [s2, s3] == [s1, s2, s3] && [s3] + [] == [s3];
  }

  lemma {:induction false} RunPrepends(w: World, step: Step, run: seq<Step>)
    requires Enabled(w, step) && Runs(Next(w, step), run)
    ensures Runs(w, [step] + run) && End(w, [step] + run) == End(Next(w, step), run)
  {
    assert ([step] + run)[1..] == run;
  }

  lemma {:induction false} BothCreated(w: World, a: Lease, b: Lease)
    requires Inv(w) && Possible(w, Create(a)) && Possible(Next(w, Step(Create(a), Kept, w.stored)), Create(b))
    ensures var table := Put(Put(w.table, a), b);
            && a.terms.leaseId in table.leases && table.leases[a.terms.leaseId] == a
            && a.token in table.tokenIndex && table.tokenIndex[a.token] == a.terms.leaseId
  {
  }

  /** Dropping a lease that the envelope lists. */
  lemma {:induction false} DroppedButStored(
      w: World, a: Lease, records: seq<Record>, user: string, vault: string, now: int, mcp: bool)
    requires Inv(w) && w.stored == Some(records) && InStep(w.stored, w.table.leases) && Returns(a, user, vault)
    requires a.terms.leaseId in w.table.leases && w.table.leases[a.terms.leaseId] == a
    requires a.token in w.table.tokenIndex && w.table.tokenIndex[a.token] == a.terms.leaseId
    ensures var step := Step(CreateFailed(a.terms.leaseId), Kept, Some(records));
            && Enabled(w, step) && Next(w, step).stored == Some(records)
            && Resolve(Next(w, step).table, a.token, now, mcp) == None
            && a.token in Loaded(EMPTY, records, user, vault).tokenIndex
  {
    RestartAgrees(w.table, w.stored, user, vault, a.token);
  }

  /**
   * Exactly: after a failed creation was dropped, a new process accepts its token if and only if the last save that had
   * an effect held it.
   */
  lemma {:induction false} FailedCreationComesBackExactly(
      w: World, run: seq<Step>, id: string, user: string, vault: string, now: int, mcp: bool)
    requires Inv(w) && Runs(w, run) && LastSaved(w, run, KnownStored(w)).Some?
    requires id in End(w, run).table.leases && Returns(End(w, run).table.leases[id], user, vault)
    ensures var e := End(w, run);
            var step := Step(CreateFailed(id), Kept, e.stored);
            var token := e.table.leases[id].token;
            var l := Loaded(EMPTY, StoredRecords(Next(e, step).stored), user, vault);
            && Enabled(e, step) && Resolve(Next(e, step).table, token, now, mcp) == None
            && (token in l.tokenIndex <==> HeldFor(LastSaved(w, run, KnownStored(w)).value, token, user, vault))
  {
    var e := End(w, run);
    RunKeepsInv(w, run);
    var token := e.table.leases[id].token;
    assert e.table.tokenIndex[token] == id;
    RestartAcceptsLastSaved(w, run, user, vault, token);
  }
}
