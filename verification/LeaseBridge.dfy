/** The lease table of `AgentBridge` in place: leases are objects whose `token` field is overwritten by a rotation. */
module LeaseBridge {
  import opened Text
  import opened LeaseTable

  class AgentBridgeLease {
    const terms: Terms
    var token: string

    constructor (terms: Terms, token: string)
      ensures this.terms == terms && this.token == token
    {
      this.terms, this.token := terms, token;
    }
  }

  /** The encrypted envelope as the host keeps it. */
  class LeaseStore {
    var envelope: Option<seq<Record>>

    constructor (envelope: Option<seq<Record>>)
      ensures this.envelope == envelope
    {
      this.envelope := envelope;
    }
  }

  /** What a save leaves in the store. */
  ghost predicate Saved(before: Option<seq<Record>>, after: Option<seq<Record>>, effect: Effect, leases: map<string, Lease>) {
    match effect
    case Written => InStep(after, leases)
    case Kept => after == before
    case Torn => after == None
  }

  /** The lease is there and unexpired, someone is logged in, the folder is bound or the lease local, and it is theirs. */
  predicate Usable(table: Table, leaseId: string, session: Option<string>, vaultId: string, now: int) {
    && leaseId in table.leases && session.Some?
    && (table.leases[leaseId].terms.expiresAtMs.Some? ==> now < table.leases[leaseId].terms.expiresAtMs.value)
    && (vaultId == "" ==> table.leases[leaseId].terms.localProjectMemoryMode)
    && (table.leases[leaseId].terms.sessionUserId.Some? ==> table.leases[leaseId].terms.sessionUserId.value in {"", session.value})
  }

  class AgentBridge {
    const store: LeaseStore?
    var leases: map<string, AgentBridgeLease>
    var tokenIndex: map<string, string>
    var persistedLoaded: bool

    ghost predicate Valid()
      reads this, leases.Values
    {
      forall id :: id in leases ==> leases[id].terms.leaseId == id
    }

    ghost function Leases(): map<string, Lease>
      reads this, leases.Values
    {
      map id | id in leases :: Lease(leases[id].terms, leases[id].token)
    }

    ghost function Contents(): Table
      reads this, leases.Values
    {
      Table(Leases(), tokenIndex)
    }

    constructor (store: LeaseStore?)
      ensures Valid() && Contents() == EMPTY && this.store == store && !persistedLoaded
    {
      this.store, leases, tokenIndex, persistedLoaded := store, map[], map[], false;
    }

    /** `persistLeases`: the snapshot is taken at once; `effect` is what becomes of the write. */
    method PersistLeases(effect: Effect)
      requires Valid()
      modifies store
      ensures store != null ==> Saved(old(store.envelope), store.envelope, effect, Leases())
    {
      if store == null { return; }
      var records: seq<Record> := [];
      var ids := leases.Keys;
      ghost var table := Leases();
      while ids != {}
        invariant ids <= leases.Keys && store != null && unchanged(store) && table == Leases()
        invariant forall i, j :: 0 <= i < j < |records| ==> records[i].leaseId != records[j].leaseId
        invariant forall r :: r in records ==>
                    r.leaseId in table && r.leaseId !in ids && table[r.leaseId].terms.persistent && r == ToRecord(table[r.leaseId])
        invariant forall id :: id in table && id !in ids && table[id].terms.persistent ==> ToRecord(table[id]) in records
        decreases ids
      {
        var id :| id in ids;
        var lease := leases[id];
        if lease.terms.persistent {
          assert forall i :: 0 <= i < |records| ==> records[i] in records;
          records := records + [ToRecord(Lease(lease.terms, lease.token))];
        }
        ids := ids - {id};
      }
      match effect {
        case Written => store.envelope := if records == [] then None else Some(records);
        case Kept =>
        case Torn => store.envelope := None;
      }
    }

    /** `null` when it throws. A failed save is reported later, to `CreationNotSaved`. */
    method CreateLease(
        input: Input, session: Option<string>, vaultId: string, now: int, freshId: string, freshToken: string, effect: Effect)
      returns (lease: AgentBridgeLease?)
      requires Valid()
      modifies this`leases, this`tokenIndex, store
      ensures Valid()
      ensures var terms := TermsOf(input, session, vaultId, store != null, now, freshId);
              && (lease == null <==> terms.None?)
              && (lease == null ==> Contents() == old(Contents()) && (store != null ==> unchanged(store)))
              && (lease != null ==>
                    && fresh(lease) && lease.terms == terms.value && lease.token == freshToken
                    && freshId in leases && leases[freshId] == lease
                    && Contents() == Put(old(Contents()), Lease(terms.value, freshToken))
                    && (store != null ==>
                          if terms.value.persistent then Saved(old(store.envelope), store.envelope, effect, Leases())
                          else unchanged(store)))
    {
      var terms := TermsOf(input, session, vaultId, store != null, now, freshId);
      if terms.None? { return null; }
      lease := AddLease(terms.value, freshToken);
      if lease.terms.persistent { PersistLeases(effect); }
    }

    method AddLease(terms: Terms, token: string) returns (lease: AgentBridgeLease)
      requires Valid()
      modifies this`leases, this`tokenIndex
      ensures Valid() && Contents() == Put(old(Contents()), Lease(terms, token))
      ensures fresh(lease) && lease.terms == terms && lease.token == token
      ensures terms.leaseId in leases && leases[terms.leaseId] == lease
    {
      lease := new AgentBridgeLease(terms, token);
      leases := leases[terms.leaseId := lease];
      tokenIndex := tokenIndex[token := terms.leaseId];
      assert Leases() == old(Leases())[terms.leaseId := Lease(terms, token)];
    }

    /** The failure handler of a creation's save: it drops the lease under whatever token the object has by now. */
    method CreationNotSaved(lease: AgentBridgeLease)
      requires Valid()
      modifies this`leases, this`tokenIndex
      ensures Valid()
      ensures Contents() == Drop(old(Contents()), lease.terms.leaseId, lease.token)
    {
      leases := leases - {lease.terms.leaseId};
      tokenIndex := tokenIndex - {lease.token};
    }

    method RevokeLease(leaseId: string, effect: Effect) returns (found: bool)
      requires Valid()
      modifies this`leases, this`tokenIndex, store
      ensures Valid() && found == (leaseId in old(leases))
      ensures Contents() == Revoked(old(Contents()), leaseId)
      ensures store != null ==>
                if found && old(leases)[leaseId].terms.persistent then Saved(old(store.envelope), store.envelope, effect, Leases())
                else unchanged(store)
    {
      if leaseId !in leases { return false; }
      var lease := leases[leaseId];
      leases := leases - {leaseId};
      tokenIndex := tokenIndex - {lease.token};
      if lease.terms.persistent { PersistLeases(effect); }
      found := true;
    }

    method RevokeAllLeases(effect: Effect)
      requires Valid()
      modifies this`leases, this`tokenIndex, store
      ensures Valid() && Contents() == EMPTY
      ensures store != null ==>
                if SomePersistent(old(Leases())) then Saved(old(store.envelope), store.envelope, effect, Leases()) else unchanged(store)
    {
      var any := exists id :: id in leases && leases[id].terms.persistent;
      assert forall id :: id in leases ==> leases[id].terms == Leases()[id].terms;
      leases, tokenIndex := map[], map[];
      if any { PersistLeases(effect); }
    }

    method PruneExpiredLeases(now: int)
      requires Valid()
      modifies this`leases, this`tokenIndex
      ensures Valid() && Contents() == Pruned(old(Contents()), now)
      ensures forall id :: id in leases ==> id in old(leases) && leases[id] == old(leases)[id]
    {
      var ids := leases.Keys;
      ghost var table := Contents();
      ghost var objects := leases;
      while ids != {}
        invariant ids <= leases.Keys && Reaping(table, now, ids, leases.Keys, tokenIndex)
        invariant forall id :: id in leases ==> id in objects && leases[id] == objects[id]
        invariant forall id :: id in leases ==> id in table.leases && table.leases[id] == Lease(leases[id].terms, leases[id].token)
        decreases ids
      {
        var id :| id in ids;
        var lease := leases[id];
        ReapOne(table, now, ids, id, leases.Keys, tokenIndex);
        ids := ids - {id};
        if lease.terms.expiresAtMs.Some? && lease.terms.expiresAtMs.value <= now {
          leases := leases - {id};
          tokenIndex := tokenIndex - {lease.token};
        }
      }
      PrunedAll(table, now, Contents());
    }

    /** `null` when the lease is missing or expired, or belongs to another login or no longer usable here. */
    method RequireLease(leaseId: string, session: Option<string>, vaultId: string, now: int) returns (lease: AgentBridgeLease?)
      requires Valid()
      modifies this`leases, this`tokenIndex
      ensures Valid() && Contents() == Pruned(old(Contents()), now)
      ensures lease != null ==> leaseId in leases && leases[leaseId] == lease && leaseId in old(leases) && old(leases)[leaseId] == lease
      ensures lease != null <==> Usable(old(Contents()), leaseId, session, vaultId, now)
    {
      PruneExpiredLeases(now);
      assert leaseId in leases <==> leaseId in Pruned(old(Contents()), now).leases;
      if leaseId !in leases { return null; }
      lease := leases[leaseId];
      if session.None? || (!lease.terms.localProjectMemoryMode && vaultId == "") { return null; }
      if lease.terms.sessionUserId.Some? && lease.terms.sessionUserId.value != ""
         && lease.terms.sessionUserId.value != session.value {
        return null;
      }
    }

    /** The old bearer token stops working as the new one starts to. */
    method ReplaceToken(lease: AgentBridgeLease, token: string)
      requires Valid() && lease.terms.leaseId in leases && leases[lease.terms.leaseId] == lease
      modifies this`tokenIndex, lease
      ensures Valid() && Contents() == Rotated(old(Contents()), lease.terms.leaseId, token)
    {
      var oldToken := lease.token;
      lease.token := token;
      tokenIndex := tokenIndex - {oldToken};
      tokenIndex := tokenIndex[token := lease.terms.leaseId];
      assert Leases() == Rotated(old(Contents()), lease.terms.leaseId, token).leases;
    }

    method RotateLeaseToken(
        leaseId: string, session: Option<string>, vaultId: string, now: int, freshToken: string, effect: Effect)
      returns (lease: AgentBridgeLease?)
      requires Valid()
      modifies this`leases, this`tokenIndex, leases.Values, store
      ensures Valid()
      ensures lease != null <==> Usable(old(Contents()), leaseId, session, vaultId, now)
      ensures lease != null ==>
                && leaseId in old(leases) && lease == old(leases)[leaseId] && lease.token == freshToken
                && leaseId in leases && leases[leaseId] == lease
      ensures var pruned := Pruned(old(Contents()), now);
              && (lease == null ==> Contents() == pruned && (store != null ==> unchanged(store)))
              && (lease != null ==>
                    && leaseId in pruned.leases && Contents() == Rotated(pruned, leaseId, freshToken)
                    && (store != null ==>
                          if pruned.leases[leaseId].terms.persistent
                          then Saved(old(store.envelope), store.envelope, effect, Leases()) else unchanged(store)))
    {
      lease := RequireLease(leaseId, session, vaultId, now);
      if lease == null { return; }
      ReplaceToken(lease, freshToken);
      if lease.terms.persistent { PersistLeases(effect); }
    }

    /** The wire's only authentication: prune, look the bearer token up, look the lease up. */
    method ResolveLeaseFromBearer(token: string, now: int, mcp: bool) returns (lease: AgentBridgeLease?)
      requires Valid()
      modifies this`leases, this`tokenIndex
      ensures Valid() && Contents() == Pruned(old(Contents()), now)
      ensures lease == null <==> Resolve(old(Contents()), token, now, mcp) == None
      ensures lease != null ==> Resolve(old(Contents()), token, now, mcp) == Some(Lease(lease.terms, lease.token))
    {
      PruneExpiredLeases(now);
      if token !in tokenIndex || tokenIndex[token] !in leases { return null; }
      lease := leases[tokenIndex[token]];
      if lease.terms.localProjectMemoryMode && !mcp { lease := null; }
    }

    method EndSession(effect: Effect)
      requires Valid()
      modifies this, store
      ensures Valid() && Contents() == EMPTY && !persistedLoaded
      ensures store != null ==> Saved(old(store.envelope), store.envelope, effect, Leases())
    {
      leases, tokenIndex, persistedLoaded := map[], map[], false;
      if store != null && !effect.Kept? { store.envelope := None; }
    }

    /** `readable` is false when the envelope cannot be read or has the wrong shape. */
    method LoadPersistedLeases(session: Option<string>, vaultId: string, readable: bool, effect: Effect)
      returns (restored: nat, dropped: nat)
      requires Valid()
      modifies this, store
      ensures Valid()
      ensures old(persistedLoaded) || store == null || session.None? || vaultId == "" ==>
                Contents() == old(Contents()) && persistedLoaded == old(persistedLoaded) && (store != null ==> unchanged(store))
      ensures !old(persistedLoaded) && store != null && session.Some? && vaultId != "" ==>
                && persistedLoaded
                && (var records := if readable then StoredRecords(old(store.envelope)) else [];
                    && Contents() == Loaded(old(Contents()), records, session.value, vaultId)
                    && restored + dropped == |records|
                    && (dropped == 0 <==> forall r :: r in records ==> Mine(r, session.value, vaultId))
                    && (if dropped == 0 then unchanged(store) else Saved(old(store.envelope), store.envelope, effect, Leases())))
    {
      restored, dropped := 0, 0;
      if persistedLoaded || store == null || session.None? || vaultId == "" { return; }
      persistedLoaded := true;
      if !readable || store.envelope.None? { return; }
      assert Contents() == old(Contents());
      restored, dropped := RestoreAll(store.envelope.value, session.value, vaultId);
      ghost var loaded := Contents();
      assert loaded == Loaded(old(Contents()), old(store.envelope.value), session.value, vaultId);
      if dropped > 0 { PersistLeases(effect); }
      assert Contents() == loaded;
    }

    method RestoreAll(records: seq<Record>, user: string, vaultId: string) returns (restored: nat, dropped: nat)
      requires Valid()
      modifies this`leases, this`tokenIndex
      ensures Valid() && Contents() == Loaded(old(Contents()), records, user, vaultId)
      ensures restored + dropped == |records|
      ensures dropped == 0 <==> forall r :: r in records ==> Mine(r, user, vaultId)
    {
      restored, dropped := 0, 0;
      for k := 0 to |records|
        invariant Valid()
        invariant Loaded(Contents(), records[k..], user, vaultId) == Loaded(old(Contents()), records, user, vaultId)
        invariant restored + dropped == k
        invariant dropped == 0 <==> forall r :: r in records[..k] ==> Mine(r, user, vaultId)
      {
        assert records[k..][0] == records[k] && records[k..][1..] == records[k + 1..];
        assert records[..k + 1] == records[..k] + [records[k]];
        if records[k].sessionUserId != user || records[k].sessionVaultId != vaultId {
          dropped := dropped + 1;
        } else {
          var lease := FromRecord(records[k]);
          var _ := AddLease(lease.terms, lease.token);
          restored := restored + 1;
        }
      }
      assert records[..|records|] == records;
    }
  }

  /** Pruning midway, with the leases `todo` not visited yet. */
  ghost predicate Reaping(table: Table, now: int, todo: set<string>, kept: set<string>, index: map<string, string>) {
    && kept == (set id | id in table.leases && (id in todo || !Expired(table.leases[id], now)))
    && index == table.tokenIndex
                - (set id | id in table.leases && id !in todo && Expired(table.leases[id], now) :: table.leases[id].token)
  }

  lemma {:induction false} ReapOne(
      table: Table, now: int, todo: set<string>, id: string, kept: set<string>, index: map<string, string>)
    requires Reaping(table, now, todo, kept, index) && id in todo && id in table.leases
    ensures if Expired(table.leases[id], now)
            then Reaping(table, now, todo - {id}, kept - {id}, index - {table.leases[id].token})
            else Reaping(table, now, todo - {id}, kept, index)
  {
  }

  lemma {:induction false} PrunedAll(table: Table, now: int, result: Table)
    requires Reaping(table, now, {}, result.leases.Keys, result.tokenIndex)
    requires forall id :: id in result.leases ==> id in table.leases && result.leases[id] == table.leases[id]
    ensures result == Pruned(table, now)
  {
    assert result.leases == Pruned(table, now).leases;
  }
}
