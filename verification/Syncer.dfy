/** The code of a config sync cycle: a syncer that remembers namespace checks, and a result
    its six passes share. */
module Syncer {
  import opened Sequences
  import opened Versioned
  import opened InstanceAccess
  import opened ConfigSync

  /** syncResult, shared by the six kinds of a cycle: how many of each kind are synced and
      how many unmanaged, and the totals. `tally` adds to it the trace of the cycle. */
  class SyncResult {
    var synced: multiset<Kind>
    var unmanaged: multiset<Kind>
    var drift: nat
    var pruned: nat
    var errors: seq<SyncError>
    ghost var tally: Tally

    ghost predicate Valid()
      reads this
    {
      && tally.synced == synced
      && tally.unmanaged == unmanaged
      && tally.drift == drift
      && tally.prunes == pruned + |PruneFailures(errors)|
    }

    constructor ()
      ensures Valid() && tally == EMPTY && errors == []
    {
      synced, unmanaged, drift, pruned, errors := multiset{}, multiset{}, 0, 0, [];
      tally := EMPTY;
    }

    /** addError. */
    method AddError(e: SyncError)
      requires Valid() && !e.PruneFailed?
      modifies this`errors
      ensures Valid() && errors == old(errors) + [e]
    {
      PruneFailuresSnoc(errors, e);
      errors := errors + [e];
    }

    method CountSynced(kind: Kind)
      requires Valid()
      modifies this`synced, this`tally
      ensures Valid() && tally == NoteSynced(old(tally), kind)
    {
      synced := synced + multiset{kind};
      tally := NoteSynced(tally, kind);
    }

    method CountUnmanaged(kind: Kind)
      requires Valid()
      modifies this`unmanaged, this`tally
      ensures Valid() && tally == NoteUnmanaged(old(tally), kind)
    {
      unmanaged := unmanaged + multiset{kind};
      tally := NoteUnmanaged(tally, kind);
    }

    method CountDrift()
      requires Valid()
      modifies this`drift, this`tally
      ensures Valid() && tally == old(tally).(drift := old(tally).drift + 1)
    {
      drift := drift + 1;
      tally := tally.(drift := tally.drift + 1);
    }

    /** A delete was tried: counted when it went through, reported when not. */
    method CountPrune(kind: Kind, id: string, ok: bool)
      requires Valid()
      modifies this`pruned, this`errors, this`tally
      ensures Valid() && tally == NotePrune(old(tally), kind, id)
      ensures pruned == old(pruned) + if ok then 1 else 0
      ensures errors == if ok then old(errors) else old(errors) + [PruneFailed(kind, id)]
    {
      PruneFailuresSnoc(errors, PruneFailed(kind, id));
      if ok {
        pruned := pruned + 1;
      } else {
        errors := errors + [PruneFailed(kind, id)];
      }
      tally := NotePrune(tally, kind, id);
    }

    /** A CR write was tried: reported when it failed. */
    method TraceWrite(kind: Kind, i: nat, ok: bool)
      requires Valid()
      modifies this`errors, this`tally
      ensures Valid() && tally == NoteWrite(old(tally), kind, i)
      ensures errors == if ok then old(errors) else old(errors) + [WriteFailed(kind, i)]
    {
      if !ok {
        AddError(WriteFailed(kind, i));
      }
      tally := NoteWrite(tally, kind, i);
    }
  }

  /** configSyncer. `lookup(ns, n)` is what a lookup of namespace `ns` gives when it is
      the n-th of the cycle, `fails(n)` whether the n-th write or delete fails, and the two
      lists of a kind are None when listing fails. `asked` holds the namespaces looked up. */
  class ConfigSyncer {
    const instance: Instance
    const rules: Rules
    const lookup: (string, nat) -> Lookup
    const fails: nat -> bool
    const listCrs: Kind -> Option<seq<Cr>>
    const listApi: Kind -> Option<seq<ApiEntry>>

    var allowedNamespaces: map<string, bool>
    var asked: seq<string>

    var calls: nat

    constructor (instance: Instance, rules: Rules, lookup: (string, nat) -> Lookup, fails: nat -> bool,
                 listCrs: Kind -> Option<seq<Cr>>, listApi: Kind -> Option<seq<ApiEntry>>)
      ensures this.instance == instance && this.rules == rules && this.lookup == lookup && this.fails == fails
      ensures this.listCrs == listCrs && this.listApi == listApi
      ensures allowedNamespaces == map[] && asked == [] && calls == 0 && MemoSound()
    {
      this.instance, this.rules, this.lookup, this.fails := instance, rules, lookup, fails;
      this.listCrs, this.listApi := listCrs, listApi;
      allowedNamespaces, asked, calls := map[], [], 0;
    }

    ghost predicate MemoSound()
      reads this`allowedNamespaces, this`asked
    {
      Sound(instance, lookup, allowedNamespaces, asked)
    }

    /** scope. */
    method ScopeFor(kind: Kind, cr: Cr) returns (scope: Scope)
      requires MemoSound()
      modifies this`allowedNamespaces, this`asked
      ensures MemoSound() && Keeps(old(allowedNamespaces), allowedNamespaces) && old(asked) <= asked
      ensures ReferencesInstance(cr.namespace, cr.ref, instance) ==> cr.namespace in allowedNamespaces
      ensures scope == ScopeOf(instance, allowedNamespaces, kind, cr)
    {
      if !ReferencesInstance(cr.namespace, cr.ref, instance) {
        return Outside;
      }
      if cr.namespace !in allowedNamespaces {
        var answer := AllowsNamespace(instance, cr.namespace, lookup(cr.namespace, |asked|));
        var allowed := if answer.Some? then answer.value else true;
        allowedNamespaces, asked := allowedNamespaces[cr.namespace := allowed], asked + [cr.namespace];
      }
      if !allowedNamespaces[cr.namespace] {
        return Outside;
      }
      if !AllowsKind(instance, cr.namespace, kind) {
        return Protected;
      }
      return Managed;
    }

    /** A write or a delete. */
    method Call() returns (ok: bool)
      modifies this`calls
      ensures calls == old(calls) + 1 && ok == !fails(old(calls))
    {
      ok := !fails(calls);
      calls := calls + 1;
    }

    /** No call from the n-th on has failed. */
    ghost predicate Quiet(n: nat)
      reads this`calls
    {
      forall k :: n <= k < calls ==> !fails(k)
    }

    /** How many more call errors are reported than calls have failed. */
    ghost function Unexplained(result: SyncResult): int
      reads this`calls, result`errors
    {
      CallErrors(result.errors) - Failures(fails, calls)
    }

    /** A delete, counted or reported. */
    method TryPrune(kind: Kind, id: string, result: SyncResult)
      requires result.Valid()
      modifies this`calls, result
      ensures result.Valid() && result.tally == NotePrune(old(result.tally), kind, id)
      ensures old(calls) <= calls && Unexplained(result) == old(Unexplained(result))
      ensures result.pruned == old(result.pruned) + if fails(old(calls)) then 0 else 1
    {
      var ok := Call();
      CallErrorsSnoc(result.errors, PruneFailed(kind, id));
      result.CountPrune(kind, id, ok);
    }

    /** A write of a CR, reported when it fails. */
    method TryWrite(kind: Kind, i: nat, result: SyncResult) returns (ok: bool)
      requires result.Valid()
      modifies this`calls, result
      ensures result.Valid() && result.tally == NoteWrite(old(result.tally), kind, i)
      ensures calls == old(calls) + 1 && ok == !fails(old(calls))
      ensures Unexplained(result) == old(Unexplained(result)) && result.pruned == old(result.pruned)
    {
      ok := Call();
      CallErrorsSnoc(result.errors, WriteFailed(kind, i));
      result.TraceWrite(kind, i, ok);
    }

    /** handleDrift. A CR is `memory` in the list at hand and `stored` in the cluster; a
        failed write changes the first and not the second. */
    method HandleDrift(kind: Kind, i: nat, memory: Cr, stored: Cr, result: SyncResult)
      returns (memory': Cr, stored': Cr)
      requires result.Valid()
      modifies this`calls, result
      ensures result.Valid() && result.tally == NoteDrift(old(result.tally), rules, kind, i, memory)
      ensures old(calls) <= calls && Unexplained(result) == old(Unexplained(result))
      ensures memory' == if rules.resolution == CrdWins then WithoutHash(memory) else memory
      ensures stored' == stored ||
              (rules.resolution == CrdWins && stored' == stored.(annotations := memory'.annotations))
      ensures memory == stored && Quiet(old(calls)) ==> stored' == memory'
    {
      result.CountDrift();
      memory', stored' := memory, stored;
      if rules.resolution == CrdWins {
        if memory.annotations.Some? {
          memory' := WithoutHash(memory);
          var ok := TryWrite(kind, i, result);
          if !ok {
            return;
          }
          stored' := stored.(annotations := memory'.annotations);
        }
      }
    }

    /** The second write of a vanished object's CR. */
    method DropHash(kind: Kind, i: nat, memory: Cr, stored: Cr, result: SyncResult)
      returns (memory': Cr, stored': Cr)
      requires result.Valid() && (kind, i) in result.tally.written
      modifies this`calls, result
      ensures result.Valid() && result.tally == old(result.tally)
      ensures calls == old(calls) + 1 && Unexplained(result) == old(Unexplained(result))
      ensures memory'.annotations.Some?
      ensures memory' == WithoutHash(memory.(annotations := Some(if memory.annotations.None? then map[]
                                                                 else memory.annotations.value)))
      ensures stored' == if fails(old(calls)) then stored else stored.(annotations := memory'.annotations)
    {
      var annotations := if memory.annotations.None? then map[] else memory.annotations.value;
      memory', stored' := memory.(annotations := Some(annotations - {SYNC_HASH})), stored;
      assert result.tally.written + {(kind, i)} == result.tally.written;
      var ok := TryWrite(kind, i, result);
      if ok {
        stored' := stored.(annotations := memory'.annotations);
      }
    }

    /** handleDeletedFromAPI: first the status, then the sync hash. */
    method HandleDeletedFromAPI(kind: Kind, i: nat, memory: Cr, stored: Cr, result: SyncResult)
      returns (memory': Cr, stored': Cr)
      requires result.Valid()
      modifies this`calls, result
      ensures result.Valid() && result.tally == NoteVanished(old(result.tally), rules, kind, i)
      ensures old(calls) <= calls && Unexplained(result) == old(Unexplained(result))
      ensures rules.resolution != CrdWins ==> memory' == memory && stored' == stored
      ensures memory == stored ==> stored' == stored || stored' == WithoutStatus(stored) || stored' == Recreated(stored)
      ensures rules.resolution == CrdWins && memory == stored && Quiet(old(calls)) ==>
                stored' == Recreated(stored)
    {
      result.CountDrift();
      memory', stored' := memory, stored;
      if rules.resolution == CrdWins {
        memory' := WithoutStatus(memory);
        var ok := TryWrite(kind, i, result);
        if !ok {
          return;
        }
        stored' := stored.(id := memory'.id, synced := memory'.synced);
        memory', stored' := DropHash(kind, i, memory', stored', result);
      }
    }

    /** handleUnmanaged, and the count before it. */
    method HandleUnmanaged(kind: Kind, id: string, result: SyncResult)
      requires result.Valid()
      modifies this`calls, result
      ensures result.Valid() && result.tally == NoteUnclaimed(old(result.tally), rules, kind, id)
      ensures old(calls) <= calls && Unexplained(result) == old(Unexplained(result))
      ensures result.pruned == old(result.pruned) + if rules.policy == Prune && !fails(old(calls)) then 1 else 0
    {
      result.CountUnmanaged(kind);
      if rules.policy == Prune {
        TryPrune(kind, id, result);
      }
    }

    /** The first loop of a pass: what the listed CRs claim. */
    method CollectClaims(kind: Kind, crds: seq<Cr>) returns (c: Claims)
      requires MemoSound()
      modifies this`allowedNamespaces, this`asked
      ensures MemoSound() && Keeps(old(allowedNamespaces), allowedNamespaces)
      ensures Covers(instance, allowedNamespaces, crds)
      ensures c == ClaimsOf(instance, allowedNamespaces, kind, crds) && c.Owned()
    {
      var managed, protected := map[], {};
      for i := 0 to |crds|
        invariant MemoSound() && Keeps(old(allowedNamespaces), allowedNamespaces)
        invariant Covers(instance, allowedNamespaces, crds[..i])
        invariant managed == ManagedMap(instance, allowedNamespaces, kind, crds[..i])
        invariant protected == ProtectedIds(instance, allowedNamespaces, kind, crds[..i])
      {
        ghost var memo := allowedNamespaces;
        var cr := crds[i];
        var scope := ScopeFor(kind, cr);
        ClaimsSnoc(instance, memo, allowedNamespaces, kind, crds, i);
        if scope == Outside || cr.deleting {
          continue;
        }
        if scope == Protected {
          if HasProtection(cr) {
            protected := protected + {ClaimedId(cr)};
          }
          continue;
        }
        if HasClaim(cr) {
          managed := managed[ClaimedId(cr) := i];
        }
      }
      assert crds[..|crds|] == crds;
      ClaimsAreOwned(instance, allowedNamespaces, kind, crds);
      c := Claims(kind, crds, managed, protected);
    }

    /** One entry of the second loop. */
    method CompareEntry(e: ApiEntry, c: Claims, memory: seq<Cr>, stored: seq<Cr>, result: SyncResult)
      returns (memory': seq<Cr>, stored': seq<Cr>)
      requires c.Owned() && Alike(c.crds, memory) && Between(c.crds, stored, memory)
      requires result.Valid()
      modifies this`calls, result
      ensures result.Valid() && result.tally == NoteEntry(old(result.tally), rules, e, c)
      ensures old(calls) <= calls && Unexplained(result) == old(Unexplained(result))
      ensures memory' == HoldEntry(rules, e, c, memory)
      ensures Between(c.crds, stored', memory')
      ensures stored == memory && Quiet(old(calls)) ==> stored' == memory'
    {
      memory', stored' := memory, stored;
      if e.id in c.managed {
        var i := c.managed[e.id];
        result.CountSynced(c.kind);
        assert memory[i].desired == c.crds[i].desired && memory[i].annotations.Some? == c.crds[i].annotations.Some?;
        if rules.drifted(memory[i].desired, e.observed) {
          var m, s := HandleDrift(c.kind, i, memory[i], stored[i], result);
          if rules.resolution == CrdWins {
            RemedyKeepsBetween(c.crds, memory, stored, i, s);
          }
          memory', stored' := memory[i := m], stored[i := s];
        }
      } else if e.id !in c.protected {
        HandleUnmanaged(c.kind, e.id, result);
      }
    }

    /** The second loop: compare what LiteLLM lists with what the CRs claim. */
    method WalkApi(apis: seq<ApiEntry>, c: Claims, result: SyncResult)
      returns (memory: seq<Cr>, stored: seq<Cr>, seen: set<string>)
      requires c.Owned() && result.Valid()
      modifies this`calls, result
      ensures seen == ListedIds(apis) * c.managed.Keys
      ensures result.Valid() && result.tally == NoteEntries(old(result.tally), rules, apis, c)
      ensures old(calls) <= calls && Unexplained(result) == old(Unexplained(result))
      ensures memory == Held(rules, apis, c)
      ensures Between(c.crds, stored, memory)
      ensures Quiet(old(calls)) ==> stored == memory
    {
      memory, stored, seen := c.crds, c.crds, {};
      for j := 0 to |apis|
        invariant seen == ListedIds(apis[..j]) * c.managed.Keys
        invariant result.Valid() && result.tally == NoteEntries(old(result.tally), rules, apis[..j], c)
        invariant old(calls) <= calls && Unexplained(result) == old(Unexplained(result))
        invariant memory == Held(rules, apis[..j], c)
        invariant Between(c.crds, stored, memory)
        invariant Quiet(old(calls)) ==> stored == memory
      {
        WalkSnoc(old(result.tally), rules, apis, j, c);
        if apis[j].id in c.managed {
          seen := seen + {apis[j].id};
        }
        memory, stored := CompareEntry(apis[j], c, memory, stored, result);
      }
      assert apis[..|apis|] == apis;
    }

    /** One CR of the third loop, with those in `slots` done since call `start`. */
    method RecreateOne(kind: Kind, i: nat, memory: seq<Cr>, ghost stored: seq<Cr>,
                       ghost slots: set<nat>, current: seq<Cr>, ghost start: nat, result: SyncResult)
      returns (next: seq<Cr>)
      requires i < |stored| == |memory| && i !in slots && start <= calls
      requires memory[i] == stored[i]
      requires Redone(slots, stored, current, rules.resolution == CrdWins, Quiet(start))
      requires result.Valid()
      modifies this`calls, result
      ensures result.Valid() && result.tally == NoteVanished(old(result.tally), rules, kind, i)
      ensures old(calls) <= calls && Unexplained(result) == old(Unexplained(result))
      ensures Redone(slots + {i}, stored, next, rules.resolution == CrdWins, Quiet(start))
    {
      assert current[i] == stored[i];
      var m, s := HandleDeletedFromAPI(kind, i, memory[i], current[i], result);
      next := current[i := s];
    }

    /** The order in which a loop over a map meets its keys. */
    method Enumerate(keys: set<string>) returns (order: seq<string>)
      ensures NoDuplicates(order) && Elements(order) == keys
    {
      order := [];
      var rest := keys;
      while rest != {}
        invariant NoDuplicates(order) && Elements(order) == keys - rest && rest <= keys
      {
        var id :| id in rest;
        assert id !in Elements(order);
        assert Elements(order + [id]) == Elements(order) + {id};
        order, rest := order + [id], rest - {id};
      }
    }

    /** The third loop: CRs whose object is gone, in the order the map gives them. */
    method RecreateVanished(order: seq<string>, c: Claims, memory: seq<Cr>, stored: seq<Cr>, result: SyncResult)
      returns (stored': seq<Cr>)
      requires |stored| == |memory| == |c.crds| && c.Owned() && NoDuplicates(order)
      requires forall j :: 0 <= j < |order| ==>
        order[j] in c.managed && memory[c.managed[order[j]]] == stored[c.managed[order[j]]]
      requires result.Valid()
      modifies this`calls, result
      ensures result.Valid() && result.tally == NoteAllVanished(old(result.tally), rules, Elements(order), c)
      ensures old(calls) <= calls && Unexplained(result) == old(Unexplained(result))
      ensures Redone(c.Slots(Elements(order)), stored, stored', rules.resolution == CrdWins, Quiet(old(calls)))
    {
      stored' := stored;
      for j := 0 to |order|
        invariant result.Valid() && result.tally == NoteAllVanished(old(result.tally), rules, Elements(order[..j]), c)
        invariant old(calls) <= calls && Unexplained(result) == old(Unexplained(result))
        invariant Redone(c.Slots(Elements(order[..j])), stored, stored', rules.resolution == CrdWins, Quiet(old(calls)))
      {
        VanishedSnoc(old(result.tally), rules, order, j, c);
        stored' := RecreateOne(c.kind, c.managed[order[j]], memory, stored, c.Slots(Elements(order[..j])), stored',
                               old(calls), result);
      }
      assert order[..|order|] == order;
    }

    /** Both loops over what LiteLLM lists. */
    method Remediate(apis: seq<ApiEntry>, c: Claims, result: SyncResult) returns (stored: seq<Cr>)
      requires c.Owned() && result.Valid()
      modifies this`calls, result
      ensures result.Valid() && result.tally == Pass(old(result.tally), rules, Some(apis), Some(c))
      ensures old(calls) <= calls && Unexplained(result) == old(Unexplained(result))
      ensures Settles(rules, apis, c, stored, Quiet(old(calls)))
    {
      var memory, walked, seen := WalkApi(apis, c, result);
      var order := Enumerate(c.managed.Keys - seen);
      MissingIsUntouched(rules, apis, c, order, seen, walked);
      stored := RecreateVanished(order, c, memory, walked, result);
      LoopsSettle(rules, apis, c, walked, stored, Quiet(old(calls)));
    }

    /** syncModels to syncCustomers. */
    method SyncKind(kind: Kind, result: SyncResult) returns (stored: Option<seq<Cr>>)
      requires MemoSound() && result.Valid()
      modifies this, result
      ensures MemoSound() && Keeps(old(allowedNamespaces), allowedNamespaces) && old(calls) <= calls
      ensures listCrs(kind).Some? ==> Covers(instance, allowedNamespaces, listCrs(kind).value)
      ensures var c := ClaimsFor(instance, allowedNamespaces, kind, listCrs(kind));
        && result.Valid() && result.tally == Pass(old(result.tally), rules, listApi(kind), c)
        && KindSettled(rules, listCrs(kind), listApi(kind), c, stored, Quiet(old(calls)))
      ensures listCrs(kind).None? || listApi(kind).None? ==> result.errors == old(result.errors) + [ListFailed(kind)]
      ensures Unexplained(result) == old(Unexplained(result))
    {
      CallErrorsSnoc(result.errors, ListFailed(kind));
      stored := listCrs(kind);
      if stored.None? {
        result.AddError(ListFailed(kind));
        return;
      }
      var c := CollectClaims(kind, stored.value);
      var listed := listApi(kind);
      if listed.None? {
        result.AddError(ListFailed(kind));
        return;
      }
      var after := Remediate(listed.value, c, result);
      stored := Some(after);
    }

    /** sync: the six kinds in order, sharing the memo and the result. */
    method Sync() returns (result: SyncResult, stored: map<Kind, Option<seq<Cr>>>)
      requires MemoSound()
      modifies this
      ensures fresh(result) && result.Valid()
      ensures MemoSound() && Keeps(old(allowedNamespaces), allowedNamespaces)
      ensures AllCovered(instance, allowedNamespaces, ORDER, listCrs)
      ensures result.tally == Cycle(rules, instance, allowedNamespaces, ORDER, listCrs, listApi)
      ensures AllSettled(rules, instance, allowedNamespaces, ORDER, listCrs, listApi, stored, Quiet(old(calls)))
      ensures CallErrors(result.errors) == Failures(fails, calls) - Failures(fails, old(calls))
    {
      result := new SyncResult();
      stored := map[];
      for n := 0 to |ORDER|
        invariant MemoSound() && Keeps(old(allowedNamespaces), allowedNamespaces) && old(calls) <= calls
        invariant AllCovered(instance, allowedNamespaces, ORDER[..n], listCrs)
        invariant result.Valid() && Unexplained(result) == 0 - Failures(fails, old(calls))
        invariant result.tally == Cycle(rules, instance, allowedNamespaces, ORDER[..n], listCrs, listApi)
        invariant AllSettled(rules, instance, allowedNamespaces, ORDER[..n], listCrs, listApi, stored,
                             Quiet(old(calls)))
      {
        ghost var memo, was := allowedNamespaces, Quiet(old(calls));
        var after := SyncKind(ORDER[n], result);
        OrderSnoc(n);
        CycleSnoc(rules, instance, memo, allowedNamespaces, ORDER, n, listCrs, listApi);
        SettledSnoc(rules, instance, memo, allowedNamespaces, ORDER[..n], ORDER[n], listCrs, listApi, stored, after,
                    was, Quiet(old(calls)));
        stored := stored[ORDER[n] := after];
      }
      assert ORDER[..|ORDER|] == ORDER;
    }
  }
}
