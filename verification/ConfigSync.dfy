/** One cycle of config sync (internal/controller/configsync_syncer.go): classify every
    CR, compare the CRs of each kind with what LiteLLM lists, and prune, remediate or
    recreate.

    The six kinds run the same code over their own lists, so there is one pass here,
    with the parts that differ (what a CR claims, what drift is) chosen by the CR. This
    module says what a cycle comes to; module Syncer holds the code that does it. */
module ConfigSync {
  import opened Sequences
  import opened Versioned
  import opened InstanceAccess

  const SYNC_HASH := "litellm.palena.ai/sync-hash"

  datatype Scope = Outside | Protected | Managed

  /** The parts of a spec that drift detection compares. */
  datatype Desired =
    | ModelSpec(modelName: string, model: string)
    | TeamSpec(alias: string)
    | UserSpec(email: string, role: string)
    | KeySpec(alias: string)
    | OrganizationSpec(alias: string)
    | CustomerSpec(customerId: string, alias: string, blocked: Option<bool>)

  /** And what LiteLLM reports for them. */
  datatype Observed =
    | ModelInfo(modelName: string, model: string)
    | TeamInfo(alias: string)
    | UserInfo(email: string, role: string)
    | KeyInfo(alias: string)
    | OrganizationInfo(alias: string)
    | CustomerInfo(alias: string, blocked: bool)

  /** A CR as listed. `id` is the id or token in its status; annotations may be nil. */
  datatype Cr = Cr(
    namespace: string,
    ref: InstanceRef,
    deleting: bool,
    desired: Desired,
    annotations: Option<map<string, string>>,
    id: string,
    synced: bool)

  datatype ApiEntry = ApiEntry(id: string, observed: Observed)

  /** An empty conflictResolution is CrdWins, an empty unmanagedResourcePolicy Preserve. */
  datatype Resolution = CrdWins | ApiWins | Manual
  datatype Policy = Preserve | Adopt | Prune

  /** What steers a cycle: the instance's sync settings, and the drift test of each kind. */
  datatype Rules = Rules(resolution: Resolution, policy: Policy, drifted: (Desired, Observed) -> bool)

  datatype SyncError =
    | ListFailed(kind: Kind)
    | WriteFailed(kind: Kind, index: nat)
    | PruneFailed(kind: Kind, id: string)

  /** The isXDrifted tests. */
  predicate Drifted(d: Desired, o: Observed) {
    match d
    case ModelSpec(name, model) => !o.ModelInfo? || name != o.modelName || model != o.model
    case TeamSpec(alias) => !o.TeamInfo? || alias != o.alias
    case UserSpec(email, role) => !o.UserInfo? || email != o.email || role != o.role
    case KeySpec(alias) => !o.KeyInfo? || alias != o.alias
    case OrganizationSpec(alias) => !o.OrganizationInfo? || alias != o.alias
    case CustomerSpec(_, alias, blocked) =>
      !o.CustomerInfo? || alias != o.alias || (blocked.Some? && blocked.value != o.blocked)
  }

  // ---- What a CR claims ----

  /** The LiteLLM id a CR stands for: customers are named by their spec. */
  function ClaimedId(cr: Cr): string {
    if cr.desired.CustomerSpec? then cr.desired.customerId else cr.id
  }

  /** Whether a managed CR claims an id: once its status has one, or, for customers,
      once it has been synced. */
  predicate HasClaim(cr: Cr) {
    if cr.desired.CustomerSpec? then cr.synced else cr.id != ""
  }

  /** Whether a protected CR does. An unbound one claims the empty id. */
  predicate HasProtection(cr: Cr) {
    !cr.desired.CustomerSpec? || cr.synced
  }

  /** How a cycle whose namespace checks gave `memo` treats a CR. */
  function ScopeOf(instance: Instance, memo: map<string, bool>, kind: Kind, cr: Cr): Scope {
    if !ReferencesInstance(cr.namespace, cr.ref, instance) then Outside
    else if cr.namespace !in memo || !memo[cr.namespace] then Outside
    else if !AllowsKind(instance, cr.namespace, kind) then Protected
    else Managed
  }

  predicate IsManaged(instance: Instance, memo: map<string, bool>, kind: Kind, cr: Cr) {
    !cr.deleting && ScopeOf(instance, memo, kind, cr) == Managed && HasClaim(cr)
  }

  predicate IsProtected(instance: Instance, memo: map<string, bool>, kind: Kind, cr: Cr) {
    !cr.deleting && ScopeOf(instance, memo, kind, cr) == Protected && HasProtection(cr)
  }

  /** managedIDs: each claimed id with the last CR that claims it. */
  function ManagedMap(instance: Instance, memo: map<string, bool>, kind: Kind, crds: seq<Cr>): (m: map<string, nat>)
    ensures forall id :: id in m ==> m[id] < |crds|
  {
    if crds == [] then map[]
    else
      var n := |crds| - 1;
      var m := ManagedMap(instance, memo, kind, crds[..n]);
      if IsManaged(instance, memo, kind, crds[n]) then m[ClaimedId(crds[n]) := n] else m
  }

  /** protectedIDs. */
  function ProtectedIds(instance: Instance, memo: map<string, bool>, kind: Kind, crds: seq<Cr>): set<string> {
    if crds == [] then {}
    else
      var n := |crds| - 1;
      var p := ProtectedIds(instance, memo, kind, crds[..n]);
      if IsProtected(instance, memo, kind, crds[n]) then p + {ClaimedId(crds[n])} else p
  }

  /** What the listed CRs of one kind claim. */
  datatype Claims = Claims(kind: Kind, crds: seq<Cr>, managed: map<string, nat>, protected: set<string>) {
    /** Every managed id maps to a CR that claims it, so to one of its own. */
    ghost predicate Owned() {
      forall id :: id in managed ==> managed[id] < |crds| && ClaimedId(crds[managed[id]]) == id
    }

    /** No CR claims `id`. */
    predicate Unclaimed(id: string) {
      id !in managed && id !in protected
    }

    /** Entry `e` belongs to a managed CR and differs from its spec. */
    predicate ShowsDrift(rules: Rules, e: ApiEntry) {
      e.id in managed && managed[e.id] < |crds| && rules.drifted(crds[managed[e.id]].desired, e.observed)
    }

    /** Some listed entry of CR `i` differs from its spec. */
    ghost predicate DriftSeen(rules: Rules, apis: seq<ApiEntry>, i: nat) {
      exists j :: 0 <= j < |apis| && ShowsDrift(rules, apis[j]) && managed[apis[j].id] == i
    }

    /** The managed ids LiteLLM does not list. */
    function Missing(apis: seq<ApiEntry>): set<string> {
      managed.Keys - ListedIds(apis)
    }

    /** The places of the CRs of some ids. */
    function Slots(ids: set<string>): set<nat> {
      set id | id in ids && id in managed :: managed[id]
    }
  }

  function ClaimsOf(instance: Instance, memo: map<string, bool>, kind: Kind, crds: seq<Cr>): Claims {
    Claims(kind, crds, ManagedMap(instance, memo, kind, crds), ProtectedIds(instance, memo, kind, crds))
  }

  function ListedIds(apis: seq<ApiEntry>): set<string> {
    set e | e in apis :: e.id
  }

  // ---- What a cycle makes of the CRs ----

  /** Dropping the sync hash makes the CR's own controller push its spec again. */
  function WithoutHash(cr: Cr): Cr {
    if cr.annotations.None? then cr else cr.(annotations := Some(cr.annotations.value - {SYNC_HASH}))
  }

  /** Forgetting the id makes it create the object again. */
  function WithoutStatus(cr: Cr): Cr {
    if cr.desired.CustomerSpec? then cr.(synced := false) else cr.(id := "", synced := false)
  }

  /** A CR whose object vanished: unbound, and with annotations that are not nil. */
  function Recreated(cr: Cr): Cr {
    var c := WithoutStatus(cr);
    WithoutHash(if c.annotations.None? then c.(annotations := Some(map[])) else c)
  }

  function AnnotationOr(cr: Cr, key: string, none: string): string {
    if cr.annotations.Some? && key in cr.annotations.value then cr.annotations.value[key] else none
  }

  /** What the remedies touch: the sync hash goes and no other annotation; a vanished object
      takes id and status with it; the spec and the references stay. */
  lemma RemediesKeepTheRest(cr: Cr, key: string, none: string)
    ensures var hashless, recreated := WithoutHash(cr), Recreated(cr);
      && AnnotationOr(hashless, key, none) == AnnotationOr(recreated, key, none) ==
         (if key == SYNC_HASH then none else AnnotationOr(cr, key, none))
      && hashless == cr.(annotations := hashless.annotations) && hashless.annotations.Some? == cr.annotations.Some?
      && recreated == cr.(annotations := recreated.annotations, id := recreated.id, synced := false)
      && recreated.id == (if cr.desired.CustomerSpec? then cr.id else "")
  {
  }

  /** The CRs at hand differ from the listed ones at most in the sync hash. */
  predicate Alike(crds: seq<Cr>, memory: seq<Cr>) {
    |memory| == |crds| &&
    forall i :: 0 <= i < |crds| ==> memory[i] == crds[i] || memory[i] == WithoutHash(crds[i])
  }

  /** Each stored CR is still as listed, or as held in memory. */
  predicate Between(crds: seq<Cr>, stored: seq<Cr>, memory: seq<Cr>) {
    |stored| == |memory| == |crds| &&
    forall i :: 0 <= i < |crds| ==> stored[i] == crds[i] || stored[i] == memory[i]
  }

  function HoldEntry(rules: Rules, e: ApiEntry, c: Claims, memory: seq<Cr>): (r: seq<Cr>)
    requires Alike(c.crds, memory)
    ensures Alike(c.crds, r)
  {
    if rules.resolution == CrdWins && c.ShowsDrift(rules, e)
    then memory[c.managed[e.id] := WithoutHash(c.crds[c.managed[e.id]])]
    else memory
  }

  /** The CRs at hand once the entries of `apis` have been compared. */
  function Held(rules: Rules, apis: seq<ApiEntry>, c: Claims): (r: seq<Cr>)
    ensures Alike(c.crds, r)
  {
    if apis == [] then c.crds
    else HoldEntry(rules, apis[|apis| - 1], c, Held(rules, apis[..|apis| - 1], c))
  }

  /** What handling a vanished object may do to its CR: nothing unless `crdWins`, all of it
      if `quiet`. */
  ghost predicate Unbound(before: Cr, after: Cr, crdWins: bool, quiet: bool) {
    && (after == before || (crdWins && (after == WithoutStatus(before) || after == Recreated(before))))
    && (crdWins && quiet ==> after == Recreated(before))
  }

  /** Just the CRs in `slots` have been handled. */
  ghost predicate Redone(slots: set<nat>, before: seq<Cr>, after: seq<Cr>, crdWins: bool, quiet: bool) {
    && |after| == |before|
    && forall i :: 0 <= i < |before| ==>
         if i in slots then Unbound(before[i], after[i], crdWins, quiet) else after[i] == before[i]
  }

  /** What a pass under crd-wins makes of CR `i` when its writes land. */
  ghost function Settled(rules: Rules, apis: seq<ApiEntry>, c: Claims, i: nat): Cr
    requires i < |c.crds|
  {
    if i in c.Slots(c.Missing(apis)) then Recreated(c.crds[i])
    else if c.DriftSeen(rules, apis, i) then WithoutHash(c.crds[i])
    else c.crds[i]
  }

  /** What becomes of the listed CRs: only those that drifted or vanished change, only under
      crd-wins, and to what Settled says when no call fails. */
  ghost predicate Settles(rules: Rules, apis: seq<ApiEntry>, c: Claims, stored: seq<Cr>, quiet: bool) {
    && |stored| == |c.crds|
    && forall i :: 0 <= i < |c.crds| ==>
         var cr := c.crds[i];
         && (stored[i] != cr ==>
              && rules.resolution == CrdWins
              && (c.DriftSeen(rules, apis, i) || i in c.Slots(c.Missing(apis)))
              && (stored[i] == WithoutHash(cr) || stored[i] == WithoutStatus(cr) || stored[i] == Recreated(cr)))
         && (rules.resolution == CrdWins && quiet ==> stored[i] == Settled(rules, apis, c, i))
  }

  // ---- What it counts ----

  /** What a cycle adds up: the counters (those per kind as multisets of kinds), the prunes
      attempted, done or failed, the objects they were for, and the CRs written. Which
      calls fail does not show. */
  datatype Tally = Tally(
    synced: multiset<Kind>,
    unmanaged: multiset<Kind>,
    drift: nat,
    prunes: nat,
    deletes: seq<(Kind, string)>,
    written: set<(Kind, nat)>)

  const EMPTY := Tally(multiset{}, multiset{}, 0, 0, [], {})

  function NoteSynced(t: Tally, kind: Kind): Tally {
    t.(synced := t.synced + multiset{kind})
  }

  function NoteUnmanaged(t: Tally, kind: Kind): Tally {
    t.(unmanaged := t.unmanaged + multiset{kind})
  }

  function NoteWrite(t: Tally, kind: Kind, i: nat): Tally {
    t.(written := t.written + {(kind, i)})
  }

  function NotePrune(t: Tally, kind: Kind, id: string): Tally {
    t.(prunes := t.prunes + 1, deletes := t.deletes + [(kind, id)])
  }

  /** CR `i` differs from its object; under crd-wins it is written if it has annotations. */
  function NoteDrift(t: Tally, rules: Rules, kind: Kind, i: nat, cr: Cr): Tally {
    var t := t.(drift := t.drift + 1);
    if rules.resolution == CrdWins && cr.annotations.Some? then NoteWrite(t, kind, i) else t
  }

  function NoteVanished(t: Tally, rules: Rules, kind: Kind, i: nat): Tally {
    var t := t.(drift := t.drift + 1);
    if rules.resolution == CrdWins then NoteWrite(t, kind, i) else t
  }

  function NoteUnclaimed(t: Tally, rules: Rules, kind: Kind, id: string): Tally {
    var t := NoteUnmanaged(t, kind);
    if rules.policy == Prune then NotePrune(t, kind, id) else t
  }

  function NoteEntry(t: Tally, rules: Rules, e: ApiEntry, c: Claims): Tally {
    if e.id in c.managed then
      var t := NoteSynced(t, c.kind);
      if c.ShowsDrift(rules, e) then NoteDrift(t, rules, c.kind, c.managed[e.id], c.crds[c.managed[e.id]]) else t
    else if e.id !in c.protected then NoteUnclaimed(t, rules, c.kind, e.id)
    else t
  }

  /** The second loop of a pass. */
  function NoteEntries(t: Tally, rules: Rules, apis: seq<ApiEntry>, c: Claims): Tally {
    if apis == [] then t
    else NoteEntry(NoteEntries(t, rules, apis[..|apis| - 1], c), rules, apis[|apis| - 1], c)
  }

  function Tagged(kind: Kind, slots: set<nat>): set<(Kind, nat)> {
    set i | i in slots :: (kind, i)
  }

  /** The third loop of a pass, over the ids LiteLLM did not list. */
  function NoteAllVanished(t: Tally, rules: Rules, ids: set<string>, c: Claims): Tally {
    t.(drift := t.drift + |ids|,
       written := if rules.resolution == CrdWins then t.written + Tagged(c.kind, c.Slots(ids)) else t.written)
  }

  /** One kind of a cycle. A list that cannot be had ends it at once. */
  function Pass(t: Tally, rules: Rules, apis: Option<seq<ApiEntry>>, c: Option<Claims>): Tally {
    if c.None? || apis.None? then t
    else NoteAllVanished(NoteEntries(t, rules, apis.value, c.value), rules, c.value.Missing(apis.value), c.value)
  }

  /** The places of the prune failures among the errors. */
  function PruneFailures(errors: seq<SyncError>): set<nat> {
    set i: nat | i < |errors| && errors[i].PruneFailed?
  }

  /** How many errors report a failed write or delete. */
  function CallErrors(errors: seq<SyncError>): nat {
    if errors == [] then 0
    else CallErrors(errors[..|errors| - 1]) + if errors[|errors| - 1].ListFailed? then 0 else 1
  }

  /** How many of the first `n` writes and deletes failed. */
  function Failures(fails: nat -> bool, n: nat): nat {
    if n == 0 then 0 else Failures(fails, n - 1) + if fails(n - 1) then 1 else 0
  }

  lemma CallErrorsSnoc(errors: seq<SyncError>, e: SyncError)
    ensures CallErrors(errors + [e]) == CallErrors(errors) + if e.ListFailed? then 0 else 1
  {
    assert (errors + [e])[..|errors|] == errors;
  }

  /** Whether resources of `namespace` may reference the instance, for config sync: a
      failed lookup is not a revocation. */
  predicate Grants(instance: Instance, namespace: string, lookup: Lookup) {
    AllowsNamespace(instance, namespace, lookup) != Some(false)
  }

  /** The cycle looked up the namespaces `asked`, in this order and each once, and remembers
      what those lookups came to, and nothing else. */
  ghost predicate Sound(instance: Instance, lookup: (string, nat) -> Lookup, memo: map<string, bool>,
                        asked: seq<string>)
  {
    && NoDuplicates(asked)
    && (forall ns :: ns in memo <==> ns in asked)
    && forall k :: 0 <= k < |asked| ==> memo[asked[k]] == Grants(instance, asked[k], lookup(asked[k], k))
  }

  // ---- Steps of the loops ----

  lemma PruneFailuresSnoc(errors: seq<SyncError>, e: SyncError)
    ensures |PruneFailures(errors + [e])| == |PruneFailures(errors)| + if e.PruneFailed? then 1 else 0
  {
    assert PruneFailures(errors + [e]) ==
      PruneFailures(errors) + if e.PruneFailed? then {|errors|} else {};
  }

  /** The namespaces of all CRs that reference the instance have been checked. */
  ghost predicate Covers(instance: Instance, memo: map<string, bool>, crds: seq<Cr>) {
    forall i :: 0 <= i < |crds| && ReferencesInstance(crds[i].namespace, crds[i].ref, instance) ==>
      crds[i].namespace in memo
  }

  /** The answers of an earlier point of the cycle still stand. */
  ghost predicate Keeps(memo: map<string, bool>, memo': map<string, bool>) {
    forall ns :: ns in memo ==> ns in memo' && memo'[ns] == memo[ns]
  }

  /** Once its namespaces are checked, what a list claims no longer changes. */
  lemma {:induction false} ClaimsStand(instance: Instance, memo: map<string, bool>, memo': map<string, bool>,
                                       kind: Kind, crds: seq<Cr>)
    requires Covers(instance, memo, crds) && Keeps(memo, memo')
    ensures ClaimsOf(instance, memo', kind, crds) == ClaimsOf(instance, memo, kind, crds)
    decreases |crds|
  {
    if crds != [] {
      var n := |crds| - 1;
      ClaimsStand(instance, memo, memo', kind, crds[..n]);
      assert ScopeOf(instance, memo', kind, crds[n]) == ScopeOf(instance, memo, kind, crds[n]);
    }
  }

  /** Taking one more CR into account, its namespace having been checked. */
  lemma ClaimsSnoc(instance: Instance, memo: map<string, bool>, memo': map<string, bool>,
                   kind: Kind, crds: seq<Cr>, n: nat)
    requires n < |crds| && Covers(instance, memo, crds[..n]) && Keeps(memo, memo')
    requires ReferencesInstance(crds[n].namespace, crds[n].ref, instance) ==> crds[n].namespace in memo'
    ensures Covers(instance, memo', crds[..n + 1])
    ensures ManagedMap(instance, memo', kind, crds[..n + 1]) ==
      var m := ManagedMap(instance, memo, kind, crds[..n]);
      if IsManaged(instance, memo', kind, crds[n]) then m[ClaimedId(crds[n]) := n] else m
    ensures ProtectedIds(instance, memo', kind, crds[..n + 1]) ==
      var p := ProtectedIds(instance, memo, kind, crds[..n]);
      if IsProtected(instance, memo', kind, crds[n]) then p + {ClaimedId(crds[n])} else p
  {
    assert crds[..n + 1][..n] == crds[..n];
    ClaimsStand(instance, memo, memo', kind, crds[..n]);
    forall i | 0 <= i < n + 1 && ReferencesInstance(crds[i].namespace, crds[i].ref, instance)
      ensures crds[i].namespace in memo'
    {
      if i < n { assert crds[..n][i] == crds[i]; }
    }
  }

  /** The CR an id maps to claims it. */
  lemma {:induction false} ManagedMapSound(instance: Instance, memo: map<string, bool>, kind: Kind,
                                           crds: seq<Cr>, id: string)
    requires id in ManagedMap(instance, memo, kind, crds)
    ensures var cr := crds[ManagedMap(instance, memo, kind, crds)[id]];
      ClaimedId(cr) == id && IsManaged(instance, memo, kind, cr)
    decreases |crds|
  {
    var n := |crds| - 1;
    if !(IsManaged(instance, memo, kind, crds[n]) && ClaimedId(crds[n]) == id) {
      ManagedMapSound(instance, memo, kind, crds[..n], id);
    }
  }

  lemma ClaimsAreOwned(instance: Instance, memo: map<string, bool>, kind: Kind, crds: seq<Cr>)
    ensures ClaimsOf(instance, memo, kind, crds).Owned()
  {
    forall id | id in ManagedMap(instance, memo, kind, crds)
      ensures ClaimedId(crds[ManagedMap(instance, memo, kind, crds)[id]]) == id
    {
      ManagedMapSound(instance, memo, kind, crds, id);
    }
  }

  /** Taking one more listed entry into account. */
  lemma WalkSnoc(t: Tally, rules: Rules, apis: seq<ApiEntry>, j: nat, c: Claims)
    requires j < |apis|
    ensures ListedIds(apis[..j + 1]) * c.managed.Keys ==
            ListedIds(apis[..j]) * c.managed.Keys + if apis[j].id in c.managed then {apis[j].id} else {}
    ensures NoteEntries(t, rules, apis[..j + 1], c) == NoteEntry(NoteEntries(t, rules, apis[..j], c), rules, apis[j], c)
    ensures Held(rules, apis[..j + 1], c) == HoldEntry(rules, apis[j], c, Held(rules, apis[..j], c))
  {
    assert apis[..j + 1][..j] == apis[..j];
    assert apis[..j + 1] == apis[..j] + [apis[j]];
  }

  /** Remediating CR `i` keeps the lists in step. */
  lemma RemedyKeepsBetween(crds: seq<Cr>, memory: seq<Cr>, stored: seq<Cr>, i: nat, s: Cr)
    requires Alike(crds, memory) && Between(crds, stored, memory) && i < |crds|
    requires s == stored[i] || s == stored[i].(annotations := WithoutHash(memory[i]).annotations)
    ensures memory[i].desired == crds[i].desired
    ensures WithoutHash(memory[i]) == WithoutHash(crds[i])
    ensures Between(crds, stored[i := s], memory[i := WithoutHash(crds[i])])
  {
    if crds[i].annotations.Some? {
      assert crds[i].annotations.value - {SYNC_HASH} - {SYNC_HASH} == crds[i].annotations.value - {SYNC_HASH};
    }
  }

  /** Taking one more vanished id into account. */
  lemma VanishedSnoc(t: Tally, rules: Rules, order: seq<string>, j: nat, c: Claims)
    requires NoDuplicates(order) && j < |order| && order[j] in c.managed && c.Owned()
    ensures var done, i := Elements(order[..j]), c.managed[order[j]];
      && i !in c.Slots(done)
      && c.Slots(Elements(order[..j + 1])) == c.Slots(done) + {i}
      && NoteAllVanished(t, rules, Elements(order[..j + 1]), c) ==
         NoteVanished(NoteAllVanished(t, rules, done, c), rules, c.kind, i)
  {
    var done, i := Elements(order[..j]), c.managed[order[j]];
    assert order[..j + 1] == order[..j] + [order[j]];
    assert Elements(order[..j + 1]) == done + {order[j]};
    assert order[j] !in done;
    assert c.Slots(done + {order[j]}) == c.Slots(done) + {i};
    assert Tagged(c.kind, c.Slots(done) + {i}) == Tagged(c.kind, c.Slots(done)) + {(c.kind, i)};
  }

  lemma {:induction false} HeldAt(rules: Rules, apis: seq<ApiEntry>, c: Claims, i: nat)
    requires i < |c.crds|
    ensures Held(rules, apis, c)[i] ==
      if rules.resolution == CrdWins && c.DriftSeen(rules, apis, i) then WithoutHash(c.crds[i]) else c.crds[i]
    decreases |apis|
  {
    if apis != [] {
      var n := |apis| - 1;
      HeldAt(rules, apis[..n], c, i);
      if c.ShowsDrift(rules, apis[n]) && c.managed[apis[n].id] == i {
        assert c.DriftSeen(rules, apis, i);
      } else if c.DriftSeen(rules, apis, i) {
        var j :| 0 <= j < |apis| && c.ShowsDrift(rules, apis[j]) && c.managed[apis[j].id] == i;
        assert apis[..n][j] == apis[j];
      }
    }
  }

  /** The CR of an id that is not listed has not been touched by the second loop. */
  lemma VanishedIsUntouched(rules: Rules, apis: seq<ApiEntry>, c: Claims, id: string)
    requires c.Owned() && id in c.Missing(apis)
    ensures !c.DriftSeen(rules, apis, c.managed[id])
    ensures Held(rules, apis, c)[c.managed[id]] == c.crds[c.managed[id]]
  {
    HeldAt(rules, apis, c, c.managed[id]);
  }

  /** So the third loop starts from CRs that are stored as they are held. */
  lemma MissingIsUntouched(rules: Rules, apis: seq<ApiEntry>, c: Claims,
                           order: seq<string>, seen: set<string>, walked: seq<Cr>)
    requires c.Owned() && Between(c.crds, walked, Held(rules, apis, c))
    requires seen == ListedIds(apis) * c.managed.Keys && Elements(order) == c.managed.Keys - seen
    ensures Elements(order) == c.Missing(apis)
    ensures forall j :: 0 <= j < |order| ==>
      order[j] in c.managed && Held(rules, apis, c)[c.managed[order[j]]] == walked[c.managed[order[j]]]
  {
    forall j | 0 <= j < |order|
      ensures order[j] in c.managed && Held(rules, apis, c)[c.managed[order[j]]] == walked[c.managed[order[j]]]
    {
      assert order[j] in Elements(order);
      VanishedIsUntouched(rules, apis, c, order[j]);
    }
  }

  /** The second and the third loop together. */
  lemma LoopsSettle(rules: Rules, apis: seq<ApiEntry>, c: Claims, walked: seq<Cr>, stored: seq<Cr>, quiet: bool)
    requires c.Owned()
    requires Between(c.crds, walked, Held(rules, apis, c)) && (quiet ==> walked == Held(rules, apis, c))
    requires Redone(c.Slots(c.Missing(apis)), walked, stored, rules.resolution == CrdWins, quiet)
    ensures Settles(rules, apis, c, stored, quiet)
  {
    forall i | 0 <= i < |c.crds|
      ensures stored[i] != c.crds[i] ==>
         && rules.resolution == CrdWins
         && (c.DriftSeen(rules, apis, i) || i in c.Slots(c.Missing(apis)))
         && (stored[i] == WithoutHash(c.crds[i]) || stored[i] == WithoutStatus(c.crds[i]) ||
             stored[i] == Recreated(c.crds[i]))
      ensures rules.resolution == CrdWins && quiet ==> stored[i] == Settled(rules, apis, c, i)
    {
      HeldAt(rules, apis, c, i);
      if i in c.Slots(c.Missing(apis)) {
        var id :| id in c.Missing(apis) && c.managed[id] == i;
        VanishedIsUntouched(rules, apis, c, id);
      } else {
        assert stored[i] == walked[i];
      }
    }
  }

  // ---- A whole cycle ----

  const ORDER: seq<Kind> := [Model, Team, User, VirtualKey, Organization, Customer]

  /** What the CRs of `kind` claim, if they could be listed. */
  function ClaimsFor(instance: Instance, memo: map<string, bool>, kind: Kind, crds: Option<seq<Cr>>): Option<Claims> {
    if crds.None? then None else Some(ClaimsOf(instance, memo, kind, crds.value))
  }

  function Cycle(rules: Rules, instance: Instance, memo: map<string, bool>, kinds: seq<Kind>,
                 listCrs: Kind -> Option<seq<Cr>>, listApi: Kind -> Option<seq<ApiEntry>>): Tally
  {
    if kinds == [] then EMPTY
    else
      var k := kinds[|kinds| - 1];
      Pass(Cycle(rules, instance, memo, kinds[..|kinds| - 1], listCrs, listApi),
           rules, listApi(k), ClaimsFor(instance, memo, k, listCrs(k)))
  }

  ghost predicate AllCovered(instance: Instance, memo: map<string, bool>, kinds: seq<Kind>,
                             listCrs: Kind -> Option<seq<Cr>>)
  {
    forall k :: k in kinds && listCrs(k).Some? ==> Covers(instance, memo, listCrs(k).value)
  }

  /** A kind whose lists could not be had is left as it was. */
  ghost predicate KindSettled(rules: Rules, crds: Option<seq<Cr>>, apis: Option<seq<ApiEntry>>, c: Option<Claims>,
                              stored: Option<seq<Cr>>, quiet: bool)
  {
    if c.None? || apis.None? then stored == crds
    else stored.Some? && Settles(rules, apis.value, c.value, stored.value, quiet)
  }

  ghost predicate AllSettled(rules: Rules, instance: Instance, memo: map<string, bool>, kinds: seq<Kind>,
                             listCrs: Kind -> Option<seq<Cr>>, listApi: Kind -> Option<seq<ApiEntry>>,
                             stored: map<Kind, Option<seq<Cr>>>, quiet: bool)
  {
    forall k :: k in kinds ==>
      k in stored &&
      KindSettled(rules, listCrs(k), listApi(k), ClaimsFor(instance, memo, k, listCrs(k)), stored[k], quiet)
  }

  /** Answers added by a later kind leave what the earlier ones did as it was. */
  lemma {:induction false} CycleStands(rules: Rules, instance: Instance,
                                       memo: map<string, bool>, memo': map<string, bool>, kinds: seq<Kind>,
                                       listCrs: Kind -> Option<seq<Cr>>, listApi: Kind -> Option<seq<ApiEntry>>)
    requires AllCovered(instance, memo, kinds, listCrs) && Keeps(memo, memo')
    ensures Cycle(rules, instance, memo', kinds, listCrs, listApi) ==
            Cycle(rules, instance, memo, kinds, listCrs, listApi)
    decreases |kinds|
  {
    if kinds != [] {
      var k := kinds[|kinds| - 1];
      CycleStands(rules, instance, memo, memo', kinds[..|kinds| - 1], listCrs, listApi);
      if listCrs(k).Some? {
        ClaimsStand(instance, memo, memo', k, listCrs(k).value);
      }
    }
  }

  /** One more kind of the cycle. */
  lemma CycleSnoc(rules: Rules, instance: Instance, memo: map<string, bool>, memo': map<string, bool>,
                  kinds: seq<Kind>, n: nat, listCrs: Kind -> Option<seq<Cr>>, listApi: Kind -> Option<seq<ApiEntry>>)
    requires n < |kinds| && Keeps(memo, memo')
    requires AllCovered(instance, memo, kinds[..n], listCrs)
    ensures Cycle(rules, instance, memo', kinds[..n + 1], listCrs, listApi) ==
            Pass(Cycle(rules, instance, memo, kinds[..n], listCrs, listApi),
                 rules, listApi(kinds[n]), ClaimsFor(instance, memo', kinds[n], listCrs(kinds[n])))
  {
    assert kinds[..n + 1][..n] == kinds[..n];
    CycleStands(rules, instance, memo, memo', kinds[..n], listCrs, listApi);
  }

  lemma SettledSnoc(rules: Rules, instance: Instance, memo: map<string, bool>, memo': map<string, bool>,
                    kinds: seq<Kind>, k: Kind, listCrs: Kind -> Option<seq<Cr>>, listApi: Kind -> Option<seq<ApiEntry>>,
                    stored: map<Kind, Option<seq<Cr>>>, after: Option<seq<Cr>>, was: bool, quiet: bool)
    requires k !in kinds && Keeps(memo, memo') && (quiet ==> was)
    requires AllCovered(instance, memo, kinds, listCrs)
    requires AllSettled(rules, instance, memo, kinds, listCrs, listApi, stored, was)
    requires listCrs(k).Some? ==> Covers(instance, memo', listCrs(k).value)
    requires KindSettled(rules, listCrs(k), listApi(k), ClaimsFor(instance, memo', k, listCrs(k)), after, quiet)
    ensures AllCovered(instance, memo', kinds + [k], listCrs)
    ensures AllSettled(rules, instance, memo', kinds + [k], listCrs, listApi, stored[k := after], quiet)
  {
    forall x | x in kinds
      ensures listCrs(x).Some? ==> Covers(instance, memo', listCrs(x).value)
      ensures KindSettled(rules, listCrs(x), listApi(x), ClaimsFor(instance, memo', x, listCrs(x)), stored[x], quiet)
    {
      if listCrs(x).Some? {
        ClaimsStand(instance, memo, memo', x, listCrs(x).value);
      }
    }
  }

  lemma OrderSnoc(n: nat)
    requires n < |ORDER|
    ensures ORDER[n] !in ORDER[..n] && ORDER[..n + 1] == ORDER[..n] + [ORDER[n]]
  {
  }
}
