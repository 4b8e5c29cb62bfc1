/** What a config sync cycle promises: every listed entry is accounted for, a prune deletes
    exactly what no CR claims, and config sync and the controllers agree on who may
    reference the instance. */
module SyncProperties {
  import opened Sequences
  import opened Versioned
  import opened InstanceAccess
  import opened ConfigSync

  // ---- Drift ----

  /** LiteLLM's record with the fields of the spec in place; a customer's block flag only if the
      spec sets it. */
  function Brought(d: Desired, o: Observed): Observed {
    match d
    case ModelSpec(modelName, model) => ModelInfo(modelName, model)
    case TeamSpec(alias) => TeamInfo(alias)
    case UserSpec(email, role) => UserInfo(email, role)
    case KeySpec(alias) => KeyInfo(alias)
    case OrganizationSpec(alias) => OrganizationInfo(alias)
    case CustomerSpec(_, alias, blocked) =>
      CustomerInfo(alias, if blocked.Some? then blocked.value else o.CustomerInfo? && o.blocked)
  }

  /** Drift is what bringing the record to the spec would change. */
  lemma DriftIsDifference(d: Desired, o: Observed)
    ensures Drifted(d, o) <==> Brought(d, o) != o
  {
  }

  // ---- One pass ----

  /** Places of the entries a managed CR claims. */
  function ManagedAt(apis: seq<ApiEntry>, c: Claims): set<nat> {
    set j: nat | j < |apis| && apis[j].id in c.managed
  }

  /** Entries only a protected CR claims. */
  function ProtectedAt(apis: seq<ApiEntry>, c: Claims): set<nat> {
    set j: nat | j < |apis| && apis[j].id !in c.managed && apis[j].id in c.protected
  }

  /** Entries no CR claims. */
  function UnclaimedAt(apis: seq<ApiEntry>, c: Claims): set<nat> {
    set j: nat | j < |apis| && c.Unclaimed(apis[j].id)
  }

  /** Entries that differ from the spec of their CR. */
  function DriftedAt(rules: Rules, apis: seq<ApiEntry>, c: Claims): set<nat> {
    set j: nat | j < |apis| && c.ShowsDrift(rules, apis[j])
  }

  function OccursAt(apis: seq<ApiEntry>, id: string): set<nat> {
    set j: nat | j < |apis| && apis[j].id == id
  }

  lemma ManagedAtSnoc(apis: seq<ApiEntry>, n: nat, c: Claims)
    requires |apis| == n + 1
    ensures |ManagedAt(apis, c)| == |ManagedAt(apis[..n], c)| + if apis[n].id in c.managed then 1 else 0
  {
    assert ManagedAt(apis, c) == ManagedAt(apis[..n], c) + if apis[n].id in c.managed then {n} else {};
  }

  lemma ProtectedAtSnoc(apis: seq<ApiEntry>, n: nat, c: Claims)
    requires |apis| == n + 1
    ensures |ProtectedAt(apis, c)| ==
            |ProtectedAt(apis[..n], c)| + if apis[n].id !in c.managed && apis[n].id in c.protected then 1 else 0
  {
    assert ProtectedAt(apis, c) ==
      ProtectedAt(apis[..n], c) + if apis[n].id !in c.managed && apis[n].id in c.protected then {n} else {};
  }

  lemma UnclaimedAtSnoc(apis: seq<ApiEntry>, n: nat, c: Claims)
    requires |apis| == n + 1
    ensures |UnclaimedAt(apis, c)| == |UnclaimedAt(apis[..n], c)| + if c.Unclaimed(apis[n].id) then 1 else 0
  {
    assert UnclaimedAt(apis, c) == UnclaimedAt(apis[..n], c) + if c.Unclaimed(apis[n].id) then {n} else {};
  }

  lemma DriftedAtSnoc(rules: Rules, apis: seq<ApiEntry>, n: nat, c: Claims)
    requires |apis| == n + 1
    ensures |DriftedAt(rules, apis, c)| ==
            |DriftedAt(rules, apis[..n], c)| + if c.ShowsDrift(rules, apis[n]) then 1 else 0
  {
    assert DriftedAt(rules, apis, c) ==
      DriftedAt(rules, apis[..n], c) + if c.ShowsDrift(rules, apis[n]) then {n} else {};
  }

  lemma OccursAtSnoc(apis: seq<ApiEntry>, n: nat, id: string)
    requires |apis| == n + 1
    ensures |OccursAt(apis, id)| == |OccursAt(apis[..n], id)| + if apis[n].id == id then 1 else 0
  {
    assert OccursAt(apis, id) == OccursAt(apis[..n], id) + if apis[n].id == id then {n} else {};
  }

  /** Every entry is synced, unmanaged, or kept by a protected CR alone. */
  lemma {:induction false} EntriesAreAccountedFor(apis: seq<ApiEntry>, c: Claims)
    ensures |apis| == |ManagedAt(apis, c)| + |ProtectedAt(apis, c)| + |UnclaimedAt(apis, c)|
    decreases |apis|
  {
    if apis != [] {
      var n := |apis| - 1;
      EntriesAreAccountedFor(apis[..n], c);
      ManagedAtSnoc(apis, n, c);
      ProtectedAtSnoc(apis, n, c);
      UnclaimedAtSnoc(apis, n, c);
    }
  }

  lemma NoteEntrySynced(t: Tally, rules: Rules, e: ApiEntry, c: Claims)
    ensures NoteEntry(t, rules, e, c).synced == if e.id in c.managed then t.synced + multiset{c.kind} else t.synced
  {
  }

  lemma NoteEntryUnmanaged(t: Tally, rules: Rules, e: ApiEntry, c: Claims)
    ensures NoteEntry(t, rules, e, c).unmanaged ==
            if c.Unclaimed(e.id) then t.unmanaged + multiset{c.kind} else t.unmanaged
  {
  }

  lemma NoteEntryTotals(t: Tally, rules: Rules, e: ApiEntry, c: Claims)
    ensures NoteEntry(t, rules, e, c).drift == t.drift + if c.ShowsDrift(rules, e) then 1 else 0
    ensures NoteEntry(t, rules, e, c).prunes == t.prunes + if rules.policy == Prune && c.Unclaimed(e.id) then 1 else 0
    ensures NoteEntry(t, rules, e, c).deletes ==
            t.deletes + if rules.policy == Prune && c.Unclaimed(e.id) then [(c.kind, e.id)] else []
  {
  }

  lemma {:induction false} NoteEntriesCounts(t: Tally, rules: Rules, apis: seq<ApiEntry>, c: Claims, k: Kind)
    ensures var p := NoteEntries(t, rules, apis, c);
      && p.synced[k] == t.synced[k] + (if k == c.kind then |ManagedAt(apis, c)| else 0)
      && p.unmanaged[k] == t.unmanaged[k] + (if k == c.kind then |UnclaimedAt(apis, c)| else 0)
    decreases |apis|
  {
    if apis != [] {
      var n := |apis| - 1;
      NoteEntriesCounts(t, rules, apis[..n], c, k);
      NoteEntrySynced(NoteEntries(t, rules, apis[..n], c), rules, apis[n], c);
      NoteEntryUnmanaged(NoteEntries(t, rules, apis[..n], c), rules, apis[n], c);
      ManagedAtSnoc(apis, n, c);
      UnclaimedAtSnoc(apis, n, c);
    }
  }

  lemma {:induction false} NoteEntriesTotals(t: Tally, rules: Rules, apis: seq<ApiEntry>, c: Claims)
    ensures var p := NoteEntries(t, rules, apis, c);
      && p.drift == t.drift + |DriftedAt(rules, apis, c)|
      && p.prunes == t.prunes + (if rules.policy == Prune then |UnclaimedAt(apis, c)| else 0)
      && |p.unmanaged| == |t.unmanaged| + |UnclaimedAt(apis, c)|
    decreases |apis|
  {
    if apis != [] {
      var n := |apis| - 1;
      NoteEntriesTotals(t, rules, apis[..n], c);
      NoteEntryTotals(NoteEntries(t, rules, apis[..n], c), rules, apis[n], c);
      NoteEntryUnmanaged(NoteEntries(t, rules, apis[..n], c), rules, apis[n], c);
      DriftedAtSnoc(rules, apis, n, c);
      UnclaimedAtSnoc(apis, n, c);
    }
  }

  /** How often the trace asks LiteLLM to delete an object. */
  function Asked(t: Tally, kind: Kind, id: string): nat {
    multiset(t.deletes)[(kind, id)]
  }

  lemma {:induction false} NoteEntriesDeletes(t: Tally, rules: Rules, apis: seq<ApiEntry>, c: Claims,
                                              k: Kind, id: string)
    ensures Asked(NoteEntries(t, rules, apis, c), k, id) == Asked(t, k, id) +
      if k == c.kind && rules.policy == Prune && c.Unclaimed(id) then |OccursAt(apis, id)| else 0
    decreases |apis|
  {
    if apis != [] {
      var n := |apis| - 1;
      NoteEntriesDeletes(t, rules, apis[..n], c, k, id);
      OccursAtSnoc(apis, n, id);
      NoteEntryTotals(NoteEntries(t, rules, apis[..n], c), rules, apis[n], c);
    }
  }

  // ---- A whole cycle ----

  /** Everything a cycle gets to see, and the answers its lookups gave. */
  datatype World = World(
    rules: Rules,
    instance: Instance,
    memo: map<string, bool>,
    listCrs: Kind -> Option<seq<Cr>>,
    listApi: Kind -> Option<seq<ApiEntry>>)
  {
    predicate Listed(k: Kind) {
      listCrs(k).Some? && listApi(k).Some?
    }

    function Entries(k: Kind): seq<ApiEntry>
      requires Listed(k)
    {
      listApi(k).value
    }

    function ClaimsOn(k: Kind): Claims
      requires Listed(k)
    {
      ClaimsOf(instance, memo, k, listCrs(k).value)
    }

    function After(kinds: seq<Kind>): Tally {
      Cycle(rules, instance, memo, kinds, listCrs, listApi)
    }

    /** Drifted entries and missing objects of the kinds that could be listed. */
    function DriftIn(kinds: seq<Kind>): nat {
      if kinds == [] then 0
      else
        var k := kinds[|kinds| - 1];
        DriftIn(kinds[..|kinds| - 1]) +
        if Listed(k) then |DriftedAt(rules, Entries(k), ClaimsOn(k))| + |ClaimsOn(k).Missing(Entries(k))| else 0
    }
  }

  /** What kind `last` adds to the counts of kind `k`. */
  lemma PassCounts(w: World, t: Tally, last: Kind, k: Kind)
    ensures var p := Pass(t, w.rules, w.listApi(last), ClaimsFor(w.instance, w.memo, last, w.listCrs(last)));
      if k == last && w.Listed(k) then
        && p.synced[k] == t.synced[k] + |ManagedAt(w.Entries(k), w.ClaimsOn(k))|
        && p.unmanaged[k] == t.unmanaged[k] + |UnclaimedAt(w.Entries(k), w.ClaimsOn(k))|
      else p.synced[k] == t.synced[k] && p.unmanaged[k] == t.unmanaged[k]
  {
    if w.Listed(last) {
      NoteEntriesCounts(t, w.rules, w.Entries(last), w.ClaimsOn(last), k);
    }
  }

  lemma LastIsNew(kinds: seq<Kind>, n: nat, k: Kind)
    requires |kinds| == n + 1 && NoDuplicates(kinds)
    ensures NoDuplicates(kinds[..n]) && kinds[n] !in kinds[..n]
    ensures k in kinds <==> k in kinds[..n] || k == kinds[n]
  {
    assert kinds == kinds[..n] + [kinds[n]];
  }

  lemma {:induction false} CycleCounts(w: World, kinds: seq<Kind>, k: Kind)
    requires NoDuplicates(kinds)
    ensures k in kinds && w.Listed(k) ==>
      && w.After(kinds).synced[k] == |ManagedAt(w.Entries(k), w.ClaimsOn(k))|
      && w.After(kinds).unmanaged[k] == |UnclaimedAt(w.Entries(k), w.ClaimsOn(k))|
    ensures !(k in kinds && w.Listed(k)) ==> w.After(kinds).synced[k] == w.After(kinds).unmanaged[k] == 0
    decreases |kinds|
  {
    if kinds != [] {
      var n := |kinds| - 1;
      var last := kinds[n];
      CycleCounts(w, kinds[..n], k);
      LastIsNew(kinds, n, k);
      PassCounts(w, w.After(kinds[..n]), last, k);
    }
  }

  lemma PassTotals(w: World, t: Tally, last: Kind)
    ensures var p := Pass(t, w.rules, w.listApi(last), ClaimsFor(w.instance, w.memo, last, w.listCrs(last)));
      if w.Listed(last) then
        var unclaimed := |UnclaimedAt(w.Entries(last), w.ClaimsOn(last))|;
        && p.drift == t.drift + |DriftedAt(w.rules, w.Entries(last), w.ClaimsOn(last))| +
                      |w.ClaimsOn(last).Missing(w.Entries(last))|
        && p.prunes == t.prunes + (if w.rules.policy == Prune then unclaimed else 0)
        && |p.unmanaged| == |t.unmanaged| + unclaimed
      else p == t
  {
    if w.Listed(last) {
      NoteEntriesTotals(t, w.rules, w.Entries(last), w.ClaimsOn(last));
    }
  }

  lemma {:induction false} CycleTotals(w: World, kinds: seq<Kind>)
    ensures w.After(kinds).drift == w.DriftIn(kinds)
    ensures w.After(kinds).prunes == if w.rules.policy == Prune then |w.After(kinds).unmanaged| else 0
    decreases |kinds|
  {
    if kinds != [] {
      var n := |kinds| - 1;
      CycleTotals(w, kinds[..n]);
      PassTotals(w, w.After(kinds[..n]), kinds[n]);
    }
  }

  lemma OrderHolds(k: Kind)
    ensures k in ORDER <==> k in {Model, Team, User, VirtualKey, Organization, Customer}
  {
  }

  /** The accounting of a cycle: per kind, entries = synced + unmanaged + protected only; in
      all, drift = drifted entries + missing objects, and prunes = unmanaged under prune. */
  lemma SyncAccounting(w: World, k: Kind)
    requires k in {Model, Team, User, VirtualKey, Organization, Customer}
    ensures var t := w.After(ORDER);
      && t.drift == w.DriftIn(ORDER)
      && t.prunes == (if w.rules.policy == Prune then |t.unmanaged| else 0)
      && (w.Listed(k) ==> |w.Entries(k)| == t.synced[k] + t.unmanaged[k] + |ProtectedAt(w.Entries(k), w.ClaimsOn(k))|)
      && (!w.Listed(k) ==> t.synced[k] == t.unmanaged[k] == 0)
  {
    OrderHolds(k);
    CycleCounts(w, ORDER, k);
    CycleTotals(w, ORDER);
    if w.Listed(k) {
      EntriesAreAccountedFor(w.Entries(k), w.ClaimsOn(k));
    }
  }

  // ---- Who may reference an instance, in its own fields ----

  /** Namespace `ns` is open: it is the instance's own, or spec.allowedNamespaces takes all, or
      selects, and the selection does not rule it out. */
  predicate OpenNamespace(instance: Instance, ns: string, lookup: Lookup) {
    ns == instance.namespace ||
    (instance.allowed.Some? &&
     (instance.allowed.value.from == All ||
      (instance.allowed.value.from == Selector && instance.allowed.value.hasSelector && lookup != Some(false))))
  }

  /** Other namespaces may hold this kind: those listed may, and virtual keys if none is. */
  predicate OpenKind(instance: Instance, kind: Kind) {
    instance.allowed.Some? &&
    (kind in instance.allowed.value.kinds || (kind == VirtualKey && |instance.allowed.value.kinds| == 0))
  }

  lemma GrantsExactly(instance: Instance, ns: string, lookup: Lookup)
    ensures Grants(instance, ns, lookup) <==> OpenNamespace(instance, ns, lookup)
  {
  }

  /** The selection of namespaces could not be made. */
  predicate Undecided(instance: Instance, lookup: Lookup) {
    && instance.allowed.Some? && instance.allowed.value.from == Selector && instance.allowed.value.hasSelector
    && lookup == None
  }

  /** Whom a controller lets reference an instance: its own namespace, and from an open one whose
      selection is decided, an open kind. Readiness and the master key come after that, and the
      clean-up of a deletion asks for no more than those. */
  lemma AdmittedExactly(instances: map<(string, string), Served>, ns: string, kind: Kind, ref: InstanceRef,
                        lookup: Lookup)
    ensures var key := (if ref.namespace == "" then ns else ref.namespace, ref.name);
      var r := ResolveInstanceRef(instances, ns, kind, ref, lookup, true);
      var cleanup := ResolveInstanceRef(instances, ns, kind, ref, lookup, false);
      if key !in instances then r == cleanup == InstanceNotFound
      else
        var i, usable := instances[key].instance, instances[key].ready && instances[key].hasMasterKey;
        var open := OpenKind(i, kind) && OpenNamespace(i, ns, lookup) && !Undecided(i, lookup);
        && (Admitted(r) <==> ns == i.namespace || open)
        && (r == CheckFailed <==> ns != i.namespace && Undecided(i, lookup))
        && (r.Resolved? <==> Admitted(r) && usable) && (cleanup.Resolved? <==> usable)
        && (r.Resolved? ==> r.instance == i) && (cleanup.Resolved? ==> cleanup.instance == i)
  {
  }

  // ---- Claims, in the fields of the CRs ----

  /** A CR that is not being deleted, references the instance, and is in a granted namespace. */
  predicate Live(instance: Instance, granted: string -> bool, cr: Cr) {
    && !cr.deleting && granted(cr.namespace) && cr.ref.name == instance.name
    && instance.namespace == (if cr.ref.namespace == "" then cr.namespace else cr.ref.namespace)
  }

  /** The CR stands for object `id`: by its status, or, for a customer, by its spec once synced. */
  predicate StandsFor(cr: Cr, id: string) {
    match cr.desired
    case CustomerSpec(customerId, _, _) => cr.synced && customerId == id
    case _ => cr.id == id
  }

  /** Its kind is admitted from where it is. */
  predicate AtHome(instance: Instance, kind: Kind, cr: Cr) {
    cr.namespace == instance.namespace || OpenKind(instance, kind)
  }

  /** A CR that a cycle manages object `id` for. */
  predicate Claimant(instance: Instance, granted: string -> bool, kind: Kind, cr: Cr, id: string) {
    && Live(instance, granted, cr) && StandsFor(cr, id)
    && (cr.desired.CustomerSpec? || id != "") && AtHome(instance, kind, cr)
  }

  /** A CR that keeps object `id` of its kind from being pruned, when `granted` are the
      namespaces that may reference the instance: its kind need not be admitted. An unbound CR
      whose kind is not keeps the empty id. */
  predicate Keeper(instance: Instance, granted: string -> bool, kind: Kind, cr: Cr, id: string) {
    && Live(instance, granted, cr) && StandsFor(cr, id)
    && (cr.desired.CustomerSpec? || id != "" || !AtHome(instance, kind, cr))
  }

  /** `memo` holds what `granted` says, as far as the CRs are concerned. */
  ghost predicate Remembers(instance: Instance, memo: map<string, bool>, granted: string -> bool, crds: seq<Cr>) {
    forall i :: 0 <= i < |crds| && ReferencesInstance(crds[i].namespace, crds[i].ref, instance) ==>
      crds[i].namespace in memo && memo[crds[i].namespace] == granted(crds[i].namespace)
  }

  lemma ManagedIsClaimant(instance: Instance, memo: map<string, bool>, granted: string -> bool, kind: Kind,
                          cr: Cr, id: string)
    requires ReferencesInstance(cr.namespace, cr.ref, instance) ==>
      cr.namespace in memo && memo[cr.namespace] == granted(cr.namespace)
    ensures IsManaged(instance, memo, kind, cr) && ClaimedId(cr) == id <==> Claimant(instance, granted, kind, cr, id)
  {
  }

  /** CR `i` is the last one for which `claims` holds. */
  ghost predicate IsLast(crds: seq<Cr>, claims: Cr -> bool, i: int) {
    0 <= i < |crds| && claims(crds[i]) && forall j :: i < j < |crds| ==> !claims(crds[j])
  }

  ghost predicate NoneOf(crds: seq<Cr>, claims: Cr -> bool) {
    forall j :: 0 <= j < |crds| ==> !claims(crds[j])
  }

  lemma LastSnoc(crds: seq<Cr>, n: nat, claims: Cr -> bool, i: int)
    requires |crds| == n + 1
    ensures claims(crds[n]) ==> IsLast(crds, claims, n)
    ensures !claims(crds[n]) && IsLast(crds[..n], claims, i) ==> IsLast(crds, claims, i)
    ensures !claims(crds[n]) && NoneOf(crds[..n], claims) ==> NoneOf(crds, claims)
  {
    assert crds == crds[..n] + [crds[n]];
  }

  /** The managed ids are those with a claimant, each with the last one. */
  lemma {:induction false} ManagedExactly(instance: Instance, memo: map<string, bool>, granted: string -> bool,
                                          kind: Kind, crds: seq<Cr>, id: string)
    requires Remembers(instance, memo, granted, crds)
    ensures var m := ManagedMap(instance, memo, kind, crds);
      var claims := (cr: Cr) => Claimant(instance, granted, kind, cr, id);
      if id in m then IsLast(crds, claims, m[id]) else NoneOf(crds, claims)
    decreases |crds|
  {
    if crds != [] {
      var n := |crds| - 1;
      var m := ManagedMap(instance, memo, kind, crds[..n]);
      var claims := (cr: Cr) => Claimant(instance, granted, kind, cr, id);
      assert forall i :: 0 <= i < n ==> crds[..n][i] == crds[i];
      ManagedExactly(instance, memo, granted, kind, crds[..n], id);
      ManagedIsClaimant(instance, memo, granted, kind, crds[n], id);
      LastSnoc(crds, n, claims, if id in m then m[id] else 0);
    }
  }

  // ---- Prunes ----

  lemma KeptIsKeeper(instance: Instance, memo: map<string, bool>, granted: string -> bool, kind: Kind,
                     cr: Cr, id: string)
    requires ReferencesInstance(cr.namespace, cr.ref, instance) ==>
      cr.namespace in memo && memo[cr.namespace] == granted(cr.namespace)
    ensures (IsManaged(instance, memo, kind, cr) || IsProtected(instance, memo, kind, cr)) && ClaimedId(cr) == id <==>
      Keeper(instance, granted, kind, cr, id)
  {
  }

  lemma UnclaimedSnoc(instance: Instance, memo: map<string, bool>, kind: Kind, crds: seq<Cr>, n: nat, id: string)
    requires |crds| == n + 1
    ensures var cr := crds[n];
      ClaimsOf(instance, memo, kind, crds).Unclaimed(id) <==>
        && ClaimsOf(instance, memo, kind, crds[..n]).Unclaimed(id)
        && !((IsManaged(instance, memo, kind, cr) || IsProtected(instance, memo, kind, cr)) && ClaimedId(cr) == id)
  {
  }

  /** An id is unclaimed exactly when no CR keeps it. */
  lemma {:induction false} UnclaimedExactly(instance: Instance, memo: map<string, bool>, granted: string -> bool,
                                            kind: Kind, crds: seq<Cr>, id: string)
    requires Remembers(instance, memo, granted, crds)
    ensures ClaimsOf(instance, memo, kind, crds).Unclaimed(id) <==>
      forall i :: 0 <= i < |crds| ==> !Keeper(instance, granted, kind, crds[i], id)
    decreases |crds|
  {
    if crds != [] {
      var n := |crds| - 1;
      assert forall i :: 0 <= i < n ==> crds[..n][i] == crds[i];
      UnclaimedExactly(instance, memo, granted, kind, crds[..n], id);
      KeptIsKeeper(instance, memo, granted, kind, crds[n], id);
      UnclaimedSnoc(instance, memo, kind, crds, n, id);
    }
  }

  /** What kind `last` adds to the deletes of object `id` of kind `k`. */
  lemma PassDeletes(w: World, t: Tally, last: Kind, k: Kind, id: string)
    ensures var p := Pass(t, w.rules, w.listApi(last), ClaimsFor(w.instance, w.memo, last, w.listCrs(last)));
      Asked(p, k, id) == Asked(t, k, id) +
      if k == last && w.Listed(k) && w.rules.policy == Prune && w.ClaimsOn(k).Unclaimed(id)
      then |OccursAt(w.Entries(k), id)| else 0
  {
    if w.Listed(last) {
      NoteEntriesDeletes(t, w.rules, w.Entries(last), w.ClaimsOn(last), k, id);
    }
  }

  lemma {:induction false} CycleDeletes(w: World, kinds: seq<Kind>, k: Kind, id: string)
    requires NoDuplicates(kinds)
    ensures Asked(w.After(kinds), k, id) ==
      if k in kinds && w.Listed(k) && w.rules.policy == Prune && w.ClaimsOn(k).Unclaimed(id)
      then |OccursAt(w.Entries(k), id)| else 0
    decreases |kinds|
  {
    if kinds != [] {
      var n := |kinds| - 1;
      var last := kinds[n];
      CycleDeletes(w, kinds[..n], k, id);
      LastIsNew(kinds, n, k);
      PassDeletes(w, w.After(kinds[..n]), last, k, id);
    }
  }

  /** No CR of kind `k` keeps object `id`. */
  ghost predicate NobodyKeeps(w: World, granted: string -> bool, k: Kind, id: string)
    requires w.Listed(k)
  {
    forall i :: 0 <= i < |w.listCrs(k).value| ==> !Keeper(w.instance, granted, k, w.listCrs(k).value[i], id)
  }

  lemma PruneIsExactFor(w: World, granted: string -> bool, k: Kind, id: string)
    requires k in ORDER && w.Listed(k) ==> Remembers(w.instance, w.memo, granted, w.listCrs(k).value)
    ensures Asked(w.After(ORDER), k, id) ==
      if w.rules.policy == Prune && k in ORDER && w.Listed(k) && NobodyKeeps(w, granted, k, id)
      then |OccursAt(w.Entries(k), id)| else 0
  {
    CycleDeletes(w, ORDER, k, id);
    if k in ORDER && w.Listed(k) {
      UnclaimedExactly(w.instance, w.memo, granted, k, w.listCrs(k).value, id);
    }
  }

  /** Prune exactness, whatever the lookups answer: LiteLLM is asked to delete an object once
      per listed entry if the policy is prune, its kind is one of six and could be listed, and
      no CR keeps it; and never else. */
  lemma PruneIsExact(w: World, k: Kind, id: string)
    requires AllCovered(w.instance, w.memo, ORDER, w.listCrs)
    ensures Asked(w.After(ORDER), k, id) ==
      if && w.rules.policy == Prune && k in {Model, Team, User, VirtualKey, Organization, Customer} && w.Listed(k)
         && NobodyKeeps(w, ns => ns in w.memo && w.memo[ns], k, id)
      then |OccursAt(w.Entries(k), id)| else 0
  {
    OrderHolds(k);
    if k in ORDER && w.Listed(k) {
      assert Covers(w.instance, w.memo, w.listCrs(k).value);
    }
    PruneIsExactFor(w, ns => ns in w.memo && w.memo[ns], k, id);
  }

  /** What a remembered answer is worth when a namespace's lookups all come out alike: the
      uncached answer, and a failed lookup grants. */
  lemma StableAnswers(instance: Instance, lookup: (string, nat) -> Lookup, memo: map<string, bool>,
                      asked: seq<string>, ns: string)
    requires Sound(instance, lookup, memo, asked) && ns in memo
    requires forall k: nat :: lookup(ns, k) == lookup(ns, 0)
    ensures memo[ns] == Grants(instance, ns, lookup(ns, 0))
    ensures AllowsNamespace(instance, ns, lookup(ns, 0)).None? ==> memo[ns]
  {
  }

  /** The same with no word of the memo, for lookups that come out alike: it is the instance's
      own fields that decide who keeps an object, and a failed lookup prunes nothing. */
  lemma StablePrune(w: World, lookup: (string, nat) -> Lookup, asked: seq<string>, answer: string -> Lookup,
                    k: Kind, id: string)
    requires AllCovered(w.instance, w.memo, ORDER, w.listCrs) && Sound(w.instance, lookup, w.memo, asked)
    requires forall ns, n: nat :: lookup(ns, n) == answer(ns)
    ensures Asked(w.After(ORDER), k, id) ==
      if && w.rules.policy == Prune && k in {Model, Team, User, VirtualKey, Organization, Customer} && w.Listed(k)
         && NobodyKeeps(w, ns => OpenNamespace(w.instance, ns, answer(ns)), k, id)
      then |OccursAt(w.Entries(k), id)| else 0
  {
    OrderHolds(k);
    var granted := ns => OpenNamespace(w.instance, ns, answer(ns));
    if k in ORDER && w.Listed(k) {
      var crds := w.listCrs(k).value;
      assert Covers(w.instance, w.memo, crds);
      forall i | 0 <= i < |crds| && ReferencesInstance(crds[i].namespace, crds[i].ref, w.instance)
        ensures crds[i].namespace in w.memo && w.memo[crds[i].namespace] == granted(crds[i].namespace)
      {
        StableAnswers(w.instance, lookup, w.memo, asked, crds[i].namespace);
        GrantsExactly(w.instance, crds[i].namespace, answer(crds[i].namespace));
      }
    }
    PruneIsExactFor(w, granted, k, id);
  }

  // ---- Scope agreement ----

  /** A CR is managed exactly when its own controller's reference check admits it; when the
      lookup fails the controller reports an error and config sync keeps the CR in scope. */
  lemma ScopeAgreement(instances: map<(string, string), Served>, instance: Instance, memo: map<string, bool>,
                       lookup: Lookup, kind: Kind, cr: Cr)
    requires (instance.namespace, instance.name) in instances
    requires instances[(instance.namespace, instance.name)].instance == instance
    requires ReferencesInstance(cr.namespace, cr.ref, instance) ==>
      cr.namespace in memo && memo[cr.namespace] == Grants(instance, cr.namespace, lookup)
    ensures var scope := ScopeOf(instance, memo, kind, cr);
      var r := ResolveInstanceRef(instances, cr.namespace, kind, cr.ref, lookup, true);
      if !ReferencesInstance(cr.namespace, cr.ref, instance) then scope == Outside
      else if AllowsNamespace(instance, cr.namespace, lookup).None? then scope != Outside && r == CheckFailed
      else scope == Managed <==> Admitted(r)
  {
  }

  /** As long as only listable kinds are listed, models of another namespace are not managed. */
  lemma ForeignModelsAreNeverManaged(instance: Instance, memo: map<string, bool>, cr: Cr)
    requires cr.namespace != instance.namespace
    requires instance.allowed.Some? ==> forall k :: k in instance.allowed.value.kinds ==> k in LISTABLE
    ensures ScopeOf(instance, memo, Model, cr) != Managed
  {
    if instance.allowed.Some? && Model in instance.allowed.value.kinds {
      assert Model in LISTABLE;
    }
  }
}
