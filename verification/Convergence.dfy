/** crd-wins convergence: a config sync pass followed by one reconcile of a model or a team
    brings LiteLLM back to the spec, so that the next pass has nothing to report or write.

    The reconcilers here are the failure-free paths of reconcileModel
    (litellmmodel_controller.go) and reconcileTeam (litellmteam_controller.go), over one CR
    and LiteLLM's objects of its kind. */
module Convergence {
  import opened Versioned
  import opened ConfigSync
  import opened SyncProperties

  const AUTH_MODE := "litellm.palena.ai/auth-mode"
  const ADOPTED := "litellm.palena.ai/adopted"

  /** One CR, and LiteLLM's objects of its kind as its list call reports them. */
  datatype Site = Site(cr: Cr, records: map<string, Observed>)

  function Annotation(cr: Cr, key: string): string {
    if cr.annotations.Some? && key in cr.annotations.value then cr.annotations.value[key] else ""
  }

  function Annotated(cr: Cr, key: string, value: string): Cr {
    cr.(annotations := Some((if cr.annotations.Some? then cr.annotations.value else map[])[key := value]))
  }

  /** The record a create makes. */
  function NewRecord(d: Desired): Observed
    requires d.ModelSpec? || d.TeamSpec? || d.KeySpec?
  {
    match d
    case ModelSpec(modelName, model) => ModelInfo(modelName, model)
    case TeamSpec(alias) => TeamInfo(alias)
    case KeySpec(alias) => KeyInfo(alias)
  }

  /** An update merges: a model's two fields are always sent, an empty team alias is not, and
      the update of a key has no alias. */
  function MergedRecord(o: Observed, d: Desired): Observed
    requires d.ModelSpec? || d.TeamSpec? || d.KeySpec?
  {
    if d.KeySpec? || (d.TeamSpec? && d.alias == "") then o else NewRecord(d)
  }

  // ---- What a reconcile comes to ----

  /** The CR is bound to an object that agrees with its spec. */
  predicate InStep(s: Site) {
    s.cr.id in s.records && !Drifted(s.cr.desired, s.records[s.cr.id])
  }

  /** Nothing but the objects named may differ. */
  ghost predicate SameBut(ids: set<string>, before: map<string, Observed>, after: map<string, Observed>) {
    forall id :: id !in ids ==>
      (id in before <==> id in after) && (id in before ==> before[id] == after[id])
  }

  /** recordSync. */
  function Recorded(cr: Cr, id: string, hash: string, mode: string): Cr {
    Annotated(Annotated(cr.(id := id, synced := true), SYNC_HASH, hash), AUTH_MODE, mode)
  }

  /** The model was last pushed with this hash and this auth mode. */
  predicate Current(cr: Cr, hash: string, mode: string) {
    cr.id != "" && Annotation(cr, SYNC_HASH) == hash && Annotation(cr, AUTH_MODE) == mode
  }

  /** A switch of auth mode, which is made by deleting and creating. */
  predicate Flips(cr: Cr, mode: string) {
    Annotation(cr, AUTH_MODE) != "" && Annotation(cr, AUTH_MODE) != mode
  }

  /** `hash` is the current sync hash, `mode` the auth mode, and `newId` the id LiteLLM
      gives to what is created next: whatever the CR was bound to makes way for one object
      with the spec's fields. None is an update or delete of an unknown id. */
  function ModelReconciled(s: Site, hash: string, mode: string, newId: string): Option<Site>
    requires s.cr.desired.ModelSpec?
  {
    var cr := s.cr;
    if Current(cr, hash, mode) then Some(s)
    else if cr.id != "" && cr.id !in s.records then None
    else
      var id := if cr.id == "" || Flips(cr, mode) then newId else cr.id;
      var others := if cr.id == "" then s.records else s.records - {cr.id};
      Some(Site(Recorded(cr, id, hash, mode), others[id := NewRecord(cr.desired)]))
  }

  /** What a push comes to: the CR is bound to an object that agrees with its spec and is
      known to be current; only a switch of mode gives a bound CR another object, and then
      its old one is gone; no other object is touched. */
  ghost predicate Pushed(s: Site, s': Site, hash: string, mode: string, newId: string) {
    var cr, cr' := s.cr, s'.cr;
    && cr'.desired == cr.desired && InStep(s') && (newId != "" ==> Current(cr', hash, mode))
    && cr'.id == (if cr.id == "" || Flips(cr, mode) then newId else cr.id)
    && (cr'.id != cr.id && cr.id != "" ==> cr.id !in s'.records)
    && SameBut({cr.id, cr'.id}, s.records, s'.records)
  }

  lemma RecordedIsCurrent(cr: Cr, id: string, hash: string, mode: string)
    ensures var cr' := Recorded(cr, id, hash, mode);
      cr'.desired == cr.desired && cr'.id == id && (id != "" ==> Current(cr', hash, mode))
  {
  }

  lemma PushMeans(s: Site, hash: string, mode: string, newId: string)
    requires s.cr.desired.ModelSpec?
    ensures var r := ModelReconciled(s, hash, mode, newId);
      r.Some? && !Current(s.cr, hash, mode) ==> Pushed(s, r.value, hash, mode, newId)
  {
    var id := if s.cr.id == "" || Flips(s.cr, mode) then newId else s.cr.id;
    RecordedIsCurrent(s.cr, id, hash, mode);
  }

  /** The id an existing object is updated under: the CR's own, or that of spec.teamId when
      the team named there is adopted; "" when the team is created. */
  function UpdateTarget(s: Site, specId: string): string {
    if s.cr.id != "" then s.cr.id
    else if specId != "" && specId in s.records then specId
    else ""
  }

  function TeamReconciled(s: Site, specId: string, hash: string, newId: string): Option<Site>
    requires s.cr.desired.TeamSpec?
  {
    var target := UpdateTarget(s, specId);
    if target == "" then
      var id := if specId != "" then specId else newId;
      Some(Site(Annotated(s.cr.(id := id, synced := true), SYNC_HASH, hash), s.records[id := NewRecord(s.cr.desired)]))
    else
      var cr := if s.cr.id == "" then Annotated(s.cr, ADOPTED, "true").(id := target) else s.cr;
      if Annotation(cr, SYNC_HASH) == hash then Some(Site(cr, s.records))
      else if target !in s.records then None
      else
        Some(Site(Annotated(cr, SYNC_HASH, hash).(synced := true),
                  s.records[target := MergedRecord(s.records[target], cr.desired)]))
  }

  /** The team of that id exists and the CR is not bound to one yet. */
  predicate Adopts(s: Site, specId: string) {
    s.cr.id == "" && specId != "" && specId in s.records
  }

  /** What the reconcile of a team comes to: the CR is bound to its team, or the one the spec
      names, or a new one; only an adoption marks it; the team has the spec's alias if it was
      created or the hash was not current, unless that is empty; no other team is touched. */
  ghost predicate TeamSettled(s: Site, s': Site, specId: string, hash: string, newId: string)
    requires s.cr.desired.TeamSpec?
  {
    var cr, cr', alias := s.cr, s'.cr, s.cr.desired.alias;
    var id := if cr.id != "" then cr.id else if specId != "" then specId else newId;
    && cr'.id == id && cr'.desired == cr.desired && SameBut({id}, s.records, s'.records)
    && Annotation(cr', SYNC_HASH) == hash
    && Annotation(cr', ADOPTED) == (if Adopts(s, specId) then "true" else Annotation(cr, ADOPTED))
    && (forall key :: key !in {SYNC_HASH, ADOPTED} ==> Annotation(cr', key) == Annotation(cr, key))
    && (cr.id == "" && !Adopts(s, specId) ==> id in s'.records && s'.records[id] == TeamInfo(alias))
    && (cr.id != "" || Adopts(s, specId) ==>
         if Annotation(cr, SYNC_HASH) == hash || alias == "" then s'.records == s.records
         else id in s'.records && s'.records[id] == TeamInfo(alias))
  }

  lemma HashIsNotMark()
    ensures SYNC_HASH != ADOPTED
  {
    assert |SYNC_HASH| != |ADOPTED|;
  }

  lemma TeamIsCreated(s: Site, specId: string, hash: string, newId: string)
    requires s.cr.desired.TeamSpec? && s.cr.id == "" && !Adopts(s, specId)
    ensures var r := TeamReconciled(s, specId, hash, newId);
      r.Some? && TeamSettled(s, r.value, specId, hash, newId)
  {
    HashIsNotMark();
  }

  lemma TeamIsUpdated(s: Site, specId: string, hash: string, newId: string)
    requires s.cr.desired.TeamSpec? && s.cr.id != ""
    ensures var r := TeamReconciled(s, specId, hash, newId);
      && (r.None? <==> s.cr.id !in s.records && Annotation(s.cr, SYNC_HASH) != hash)
      && (r.Some? ==> TeamSettled(s, r.value, specId, hash, newId))
  {
    HashIsNotMark();
    assert s.cr.id in s.records ==> s.records[s.cr.id := s.records[s.cr.id]] == s.records;
  }

  lemma TeamIsAdopted(s: Site, specId: string, hash: string, newId: string)
    requires s.cr.desired.TeamSpec? && Adopts(s, specId)
    ensures var r := TeamReconciled(s, specId, hash, newId);
      r.Some? && TeamSettled(s, r.value, specId, hash, newId)
  {
    HashIsNotMark();
    assert s.records[specId := s.records[specId]] == s.records;
  }

  lemma TeamMeans(s: Site, specId: string, hash: string, newId: string)
    requires s.cr.desired.TeamSpec?
    ensures var r := TeamReconciled(s, specId, hash, newId);
      && (r.None? <==> s.cr.id != "" && s.cr.id !in s.records && Annotation(s.cr, SYNC_HASH) != hash)
      && (r.Some? ==> TeamSettled(s, r.value, specId, hash, newId))
  {
    if s.cr.id != "" {
      TeamIsUpdated(s, specId, hash, newId);
    } else if Adopts(s, specId) {
      TeamIsAdopted(s, specId, hash, newId);
    } else {
      TeamIsCreated(s, specId, hash, newId);
    }
  }

  /** A key without a token is minted, and so is one whose Secret is gone, after the old one is
      dropped; another one is updated. `hasSecret` is whether the key's Secret exists. */
  function KeyReconciled(s: Site, hash: string, newId: string, hasSecret: bool): Option<Site>
    requires s.cr.desired.KeySpec?
  {
    var cr := s.cr;
    if cr.id == "" || !hasSecret then
      Some(Site(Annotated(cr.(id := newId, synced := true), SYNC_HASH, hash),
                (if cr.id == "" then s.records else s.records - {cr.id})[newId := NewRecord(cr.desired)]))
    else if Annotation(cr, SYNC_HASH) == hash then Some(s)
    else if cr.id !in s.records then None
    else Some(Site(Annotated(cr, SYNC_HASH, hash), s.records))
  }

  /** What the reconcile of a key comes to: without a token or a Secret there is a new key with
      the spec's alias and the old one is gone; otherwise no key is touched. */
  ghost predicate KeySettled(s: Site, s': Site, hash: string, newId: string, hasSecret: bool)
    requires s.cr.desired.KeySpec?
  {
    var cr, cr', mints := s.cr, s'.cr, s.cr.id == "" || !hasSecret;
    && cr'.desired == cr.desired && Annotation(cr', SYNC_HASH) == hash
    && (forall key :: key != SYNC_HASH ==> Annotation(cr', key) == Annotation(cr, key))
    && (!mints ==> cr'.id == cr.id && s'.records == s.records)
    && (mints ==>
         && cr'.id == newId && newId in s'.records && s'.records[newId] == KeyInfo(cr.desired.alias)
         && SameBut({cr.id, newId}, s.records, s'.records)
         && (cr.id != "" && cr.id != newId ==> cr.id !in s'.records))
  }

  lemma KeyMeans(s: Site, hash: string, newId: string, hasSecret: bool)
    requires s.cr.desired.KeySpec?
    ensures var r := KeyReconciled(s, hash, newId, hasSecret);
      && (r.None? <==>
           s.cr.id != "" && hasSecret && s.cr.id !in s.records && Annotation(s.cr, SYNC_HASH) != hash)
      && (r.Some? ==> KeySettled(s, r.value, hash, newId, hasSecret))
  {
  }

  /** The CR and LiteLLM as the reconcilers change them. */
  class Cluster {
    var cr: Cr
    var records: map<string, Observed>

    ghost function Now(): Site
      reads this
    {
      Site(cr, records)
    }

    constructor (cr: Cr, records: map<string, Observed>)
      ensures this.cr == cr && this.records == records
    {
      this.cr, this.records := cr, records;
    }

    method SetAnnotation(key: string, value: string)
      modifies this`cr
      ensures cr == Annotated(old(cr), key, value)
    {
      var annotations := if cr.annotations.Some? then cr.annotations.value else map[];
      cr := cr.(annotations := Some(annotations[key := value]));
    }

    method RecordSync(id: string, hash: string, mode: string)
      modifies this`cr
      ensures cr == Recorded(old(cr), id, hash, mode)
    {
      cr := cr.(id := id, synced := true);
      SetAnnotation(SYNC_HASH, hash);
      SetAnnotation(AUTH_MODE, mode);
    }

    /** The four-way switch of reconcileModel. It fails exactly on an object that is gone
        and is not known to be current; a model it pushed is in step and current; and no
        object but the CR's own is touched. */
    method ReconcileModel(hash: string, mode: string, newId: string) returns (ok: bool)
      requires cr.desired.ModelSpec?
      modifies this
      ensures ok <==> old(cr).id == "" || old(cr).id in old(records) || Current(old(cr), hash, mode)
      ensures !ok || Current(old(cr), hash, mode) ==> Now() == old(Now())
      ensures ok && !Current(old(cr), hash, mode) ==> Pushed(old(Now()), Now(), hash, mode, newId)
      ensures ok ==> ModelReconciled(old(Now()), hash, mode, newId) == Some(Now())
    {
      PushMeans(Now(), hash, mode, newId);
      if cr.id == "" {
        records := records[newId := NewRecord(cr.desired)];
        RecordSync(newId, hash, mode);
        return true;
      }
      if Annotation(cr, SYNC_HASH) == hash && Annotation(cr, AUTH_MODE) == mode {
        return true;
      }
      if cr.id !in records {
        return false;
      }
      if Annotation(cr, AUTH_MODE) != "" && Annotation(cr, AUTH_MODE) != mode {
        records := records - {cr.id};
        records := records[newId := NewRecord(cr.desired)];
        RecordSync(newId, hash, mode);
        return true;
      }
      assert (records - {cr.id})[cr.id := NewRecord(cr.desired)] == records[cr.id := NewRecord(cr.desired)];
      records := records[cr.id := MergedRecord(records[cr.id], cr.desired)];
      RecordSync(cr.id, hash, mode);
      return true;
    }

    /** adoptExistingTeam, and then the create or update of reconcileTeam. */
    method ReconcileTeam(specId: string, hash: string, newId: string) returns (ok: bool)
      requires cr.desired.TeamSpec?
      modifies this
      ensures ok <==> old(cr).id == "" || old(cr).id in old(records) || Annotation(old(cr), SYNC_HASH) == hash
      ensures if ok then TeamSettled(old(Now()), Now(), specId, hash, newId) else Now() == old(Now())
      ensures ok ==> TeamReconciled(old(Now()), specId, hash, newId) == Some(Now())
    {
      TeamMeans(Now(), specId, hash, newId);
      if cr.id == "" && specId != "" {
        if specId in records {
          SetAnnotation(ADOPTED, "true");
          cr := cr.(id := specId);
        }
      }
      if cr.id == "" {
        var id := if specId != "" then specId else newId;
        records := records[id := NewRecord(cr.desired)];
        cr := cr.(id := id, synced := true);
        SetAnnotation(SYNC_HASH, hash);
      } else if Annotation(cr, SYNC_HASH) != hash {
        if cr.id !in records {
          return false;
        }
        records := records[cr.id := MergedRecord(records[cr.id], cr.desired)];
        SetAnnotation(SYNC_HASH, hash);
        cr := cr.(synced := true);
      }
      return true;
    }

    /** reconcileKey, as far as LiteLLM's record goes. */
    method ReconcileKey(hash: string, newId: string, hasSecret: bool) returns (ok: bool)
      requires cr.desired.KeySpec?
      modifies this
      ensures ok <==>
        old(cr).id == "" || !hasSecret || old(cr).id in old(records) || Annotation(old(cr), SYNC_HASH) == hash
      ensures if ok then KeySettled(old(Now()), Now(), hash, newId, hasSecret) else Now() == old(Now())
      ensures ok ==> KeyReconciled(old(Now()), hash, newId, hasSecret) == Some(Now())
    {
      KeyMeans(Now(), hash, newId, hasSecret);
      if cr.id != "" && !hasSecret {
        records := records - {cr.id};
        cr := cr.(id := "", synced := false);
      }
      if cr.id == "" {
        records := records[newId := NewRecord(cr.desired)];
        cr := cr.(id := newId, synced := true);
        SetAnnotation(SYNC_HASH, hash);
      } else if Annotation(cr, SYNC_HASH) != hash {
        if cr.id !in records {
          return false;
        }
        assert records[cr.id := records[cr.id]] == records;
        records := records[cr.id := MergedRecord(records[cr.id], cr.desired)];
        SetAnnotation(SYNC_HASH, hash);
      }
      return true;
    }
  }

  // ---- Convergence ----

  /** The rules of a cycle under crd-wins, with the drift tests of the six kinds. */
  function CrdWinsRules(policy: Policy): Rules {
    Rules(CrdWins, policy, (d, o) => Drifted(d, o))
  }

  /** LiteLLM's list of its objects. */
  ghost predicate Lists(apis: seq<ApiEntry>, records: map<string, Observed>) {
    && ListedIds(apis) == records.Keys
    && forall j :: 0 <= j < |apis| ==> apis[j].id in records && apis[j].observed == records[apis[j].id]
  }

  /** CR `i` is the one that stands for its id. */
  predicate Stands(c: Claims, i: nat) {
    i < |c.crds| && ClaimedId(c.crds[i]) in c.managed && c.managed[ClaimedId(c.crds[i])] == i
  }

  /** What a pass leaves of LiteLLM's objects: all but what it asked to delete, and of that
      what could not be. */
  ghost predicate Pruned(rules: Rules, apis: seq<ApiEntry>, c: Claims,
                         before: map<string, Observed>, after: map<string, Observed>)
  {
    && after.Keys <= before.Keys
    && forall id :: id in before ==>
         if id in after then after[id] == before[id]
         else (c.kind, id) in Pass(EMPTY, rules, Some(apis), Some(c)).deletes
  }

  /** So it leaves every object a CR claims. */
  lemma PruneSparesClaimed(rules: Rules, apis: seq<ApiEntry>, c: Claims,
                           before: map<string, Observed>, after: map<string, Observed>, id: string)
    requires Pruned(rules, apis, c, before, after) && id in before && !c.Unclaimed(id)
    ensures id in after && after[id] == before[id]
  {
    NoteEntriesDeletes(EMPTY, rules, apis, c, c.kind, id);
  }

  /** A pass finds nothing to do about CR `i`: no drift, nothing missing, nothing written. */
  ghost predicate NothingToDo(rules: Rules, apis: seq<ApiEntry>, c: Claims, i: nat)
    requires i < |c.crds|
  {
    && !c.DriftSeen(rules, apis, i)
    && i !in c.Slots(c.Missing(apis))
    && Settled(rules, apis, c, i) == c.crds[i]
    && forall t: Tally :: (c.kind, i) in Pass(t, rules, Some(apis), Some(c)).written ==> (c.kind, i) in t.written
  }

  lemma {:induction false} WritesAreForDrift(t: Tally, rules: Rules, apis: seq<ApiEntry>, c: Claims, i: nat)
    requires i < |c.crds| && !c.DriftSeen(rules, apis, i)
    ensures (c.kind, i) in NoteEntries(t, rules, apis, c).written ==> (c.kind, i) in t.written
    decreases |apis|
  {
    if apis != [] {
      var n := |apis| - 1;
      assert forall j :: 0 <= j < n ==> apis[..n][j] == apis[j];
      WritesAreForDrift(t, rules, apis[..n], c, i);
      assert !(c.ShowsDrift(rules, apis[n]) && c.managed[apis[n].id] == i);
    }
  }

  /** A CR in step is left alone, and a bound CR that is left alone was in step. */
  lemma InStepExactly(policy: Policy, apis: seq<ApiEntry>, c: Claims, i: nat, records: map<string, Observed>)
    requires c.Owned() && Stands(c, i) && Lists(apis, records) && !c.crds[i].desired.CustomerSpec?
    ensures NothingToDo(CrdWinsRules(policy), apis, c, i) <==> InStep(Site(c.crds[i], records))
  {
    var rules, cr := CrdWinsRules(policy), c.crds[i];
    if InStep(Site(cr, records)) {
      assert cr.id in ListedIds(apis);
      forall t: Tally | (c.kind, i) in Pass(t, rules, Some(apis), Some(c)).written
        ensures (c.kind, i) in t.written
      {
        WritesAreForDrift(t, rules, apis, c, i);
      }
    } else if cr.id in records {
      assert cr.id in ListedIds(apis);
      var j :| 0 <= j < |apis| && apis[j].id == cr.id;
      assert c.ShowsDrift(rules, apis[j]);
    } else {
      assert cr.id in c.Missing(apis);
    }
  }

  /** A quiet crd-wins pass over CR `i`, which stands for its id: `before` is what LiteLLM
      held, `after` what the pass left of it. */
  datatype Episode = Episode(policy: Policy, apis: seq<ApiEntry>, c: Claims, i: nat,
                             before: map<string, Observed>, after: map<string, Observed>)
  {
    ghost predicate Valid() {
      && c.Owned() && Stands(c, i) && c.crds[i].id != "" && !c.crds[i].desired.CustomerSpec?
      && Lists(apis, before) && Pruned(CrdWinsRules(policy), apis, c, before, after)
    }

    function Listed(): Cr
      requires i < |c.crds|
    {
      c.crds[i]
    }

    /** What the pass leaves to the CR's own controller. */
    ghost function Left(): Site
      requires i < |c.crds|
    {
      Site(Settled(CrdWinsRules(policy), apis, c, i), after)
    }
  }

  lemma DriftIsSeen(e: Episode)
    requires e.Valid()
    ensures var cr := e.Listed();
      e.c.DriftSeen(CrdWinsRules(e.policy), e.apis, e.i) <==> cr.id in e.before && Drifted(cr.desired, e.before[cr.id])
  {
    var rules, cr := CrdWinsRules(e.policy), e.Listed();
    if cr.id in e.before && Drifted(cr.desired, e.before[cr.id]) {
      assert cr.id in ListedIds(e.apis);
      var j :| 0 <= j < |e.apis| && e.apis[j].id == cr.id;
      assert e.c.ShowsDrift(rules, e.apis[j]);
    }
  }

  /** That is a CR in step, or one whose object is there but whose hash is gone, or an
      unbound one. */
  lemma AfterPass(e: Episode)
    requires e.Valid()
    ensures var cr := e.Listed();
      && e.Left().cr.desired == cr.desired
      && (cr.id in e.before && !Drifted(cr.desired, e.before[cr.id]) ==> e.Left().cr == cr && InStep(e.Left()))
      && (cr.id in e.before && Drifted(cr.desired, e.before[cr.id]) ==>
           e.Left().cr == WithoutHash(cr) && cr.id in e.after && e.after[cr.id] == e.before[cr.id])
      && (cr.id !in e.before ==> e.Left().cr == Recreated(cr))
  {
    var cr := e.Listed();
    DriftIsSeen(e);
    if cr.id in e.before {
      assert cr.id in ListedIds(e.apis);
      assert e.i !in e.c.Slots(e.c.Missing(e.apis));
      PruneSparesClaimed(CrdWinsRules(e.policy), e.apis, e.c, e.before, e.after, cr.id);
    } else {
      assert cr.id in e.c.Missing(e.apis);
    }
  }

  /** A reconcile that cannot fail: the CR is in step, or due for a push and either unbound
      or bound to an object that exists. */
  predicate Due(s: Site, hash: string) {
    (InStep(s) && s.cr.id != "") || (Annotation(s.cr, SYNC_HASH) != hash && (s.cr.id == "" || s.cr.id in s.records))
  }

  lemma LeftIsDue(e: Episode, hash: string)
    requires e.Valid() && hash != ""
    ensures Due(e.Left(), hash) && e.Left().cr.desired == e.Listed().desired
  {
    AfterPass(e);
    assert Annotation(WithoutHash(e.Listed()), SYNC_HASH) == "" == Annotation(Recreated(e.Listed()), SYNC_HASH);
  }

  /** A later pass in which the CR, as site `s` has it, still stands for its id. */
  ghost predicate Follows(s: Site, apis: seq<ApiEntry>, c: Claims, i: nat) {
    c.Owned() && Stands(c, i) && c.crds[i] == s.cr && Lists(apis, s.records)
  }

  lemma DueModel(s: Site, hash: string, mode: string, newId: string)
    requires s.cr.desired.ModelSpec? && Due(s, hash)
    ensures var r := ModelReconciled(s, hash, mode, newId);
      r.Some? && InStep(r.value) && r.value.cr.desired == s.cr.desired
  {
    PushMeans(s, hash, mode, newId);
  }

  /** Model convergence: whatever the upstream state was, a quiet pass and one reconcile put
      a managed model in step. */
  lemma ModelInStep(e: Episode, hash: string, mode: string, newId: string)
    requires e.Valid() && e.Listed().desired.ModelSpec? && hash != ""
    ensures e.Left().cr.desired == e.Listed().desired
    ensures var r := ModelReconciled(e.Left(), hash, mode, newId);
      r.Some? && InStep(r.value) && r.value.cr.desired == e.Listed().desired
  {
    LeftIsDue(e, hash);
    DueModel(e.Left(), hash, mode, newId);
  }

  /** So the next pass, over whatever lists, has nothing to do about it. */
  lemma ModelConverges(e: Episode, hash: string, mode: string, newId: string,
                       policy: Policy, apis: seq<ApiEntry>, c: Claims, i: nat)
    requires e.Valid() && e.Listed().desired.ModelSpec? && hash != ""
    requires e.Left().cr.desired.ModelSpec? ==>
      var r := ModelReconciled(e.Left(), hash, mode, newId);
      r.Some? ==> Follows(r.value, apis, c, i)
    ensures i < |c.crds| && NothingToDo(CrdWinsRules(policy), apis, c, i)
  {
    ModelInStep(e, hash, mode, newId);
    InStepExactly(policy, apis, c, i, ModelReconciled(e.Left(), hash, mode, newId).value.records);
  }

  /** The reconcile of a team would have to clear an alias and cannot: an update does not
      send an empty one. */
  predicate Stuck(s: Site, specId: string)
    requires s.cr.desired.TeamSpec?
  {
    var target := UpdateTarget(s, specId);
    s.cr.desired.alias == "" && target != "" && target in s.records && Drifted(s.cr.desired, s.records[target])
  }

  lemma DueTeam(s: Site, specId: string, hash: string, newId: string)
    requires s.cr.desired.TeamSpec? && Due(s, hash)
    ensures var r := TeamReconciled(s, specId, hash, newId);
      && r.Some? && r.value.cr.desired == s.cr.desired
      && (InStep(r.value) <==> !Stuck(s, specId))
  {
  }

  /** Team convergence: the reconcile after a quiet pass puts a managed team in step exactly
      when it need not clear an alias. */
  lemma TeamInStepExactly(e: Episode, specId: string, hash: string, newId: string)
    requires e.Valid() && e.Listed().desired.TeamSpec? && hash != ""
    ensures e.Left().cr.desired == e.Listed().desired
    ensures var r := TeamReconciled(e.Left(), specId, hash, newId);
      && r.Some? && r.value.cr.desired == e.Listed().desired
      && (InStep(r.value) <==> !Stuck(e.Left(), specId))
  {
    LeftIsDue(e, hash);
    DueTeam(e.Left(), specId, hash, newId);
  }

  /** So the next pass has nothing to do about it in just those cases, among them all teams
      with an alias. */
  lemma TeamConverges(e: Episode, specId: string, hash: string, newId: string,
                      policy: Policy, apis: seq<ApiEntry>, c: Claims, i: nat)
    requires e.Valid() && e.Listed().desired.TeamSpec? && hash != ""
    requires e.Left().cr.desired.TeamSpec? ==>
      var r := TeamReconciled(e.Left(), specId, hash, newId);
      r.Some? ==> Follows(r.value, apis, c, i)
    ensures e.Left().cr.desired == e.Listed().desired && i < |c.crds|
    ensures NothingToDo(CrdWinsRules(policy), apis, c, i) <==> !Stuck(e.Left(), specId)
    ensures e.Listed().desired.alias != "" ==> NothingToDo(CrdWinsRules(policy), apis, c, i)
  {
    TeamInStepExactly(e, specId, hash, newId);
    InStepExactly(policy, apis, c, i, TeamReconciled(e.Left(), specId, hash, newId).value.records);
  }

  /** Key convergence: the reconcile after a quiet pass puts a managed key in step exactly when
      the key need not be renamed: it was minted anew, or its alias had not changed. */
  lemma DueKey(s: Site, hash: string, newId: string, hasSecret: bool)
    requires s.cr.desired.KeySpec? && Due(s, hash)
    ensures var r := KeyReconciled(s, hash, newId, hasSecret);
      && r.Some? && r.value.cr.desired == s.cr.desired
      && (InStep(r.value) <==> s.cr.id == "" || !hasSecret || InStep(s))
  {
  }

  lemma KeyInStepExactly(e: Episode, hash: string, newId: string, hasSecret: bool)
    requires e.Valid() && e.Listed().desired.KeySpec? && hash != ""
    ensures e.Left().cr.desired == e.Listed().desired
    ensures var key, r := e.Listed(), KeyReconciled(e.Left(), hash, newId, hasSecret);
      && r.Some? && r.value.cr.desired == key.desired
      && (InStep(r.value) <==> key.id !in e.before || !hasSecret || !Drifted(key.desired, e.before[key.id]))
  {
    LeftIsDue(e, hash);
    AfterPass(e);
    DueKey(e.Left(), hash, newId, hasSecret);
  }

  /** So the next pass has nothing to do about a managed key if and only if it had vanished, or
      its Secret is gone, or its alias was not changed upstream. */
  lemma KeyConverges(e: Episode, hash: string, newId: string, hasSecret: bool,
                     policy: Policy, apis: seq<ApiEntry>, c: Claims, i: nat)
    requires e.Valid() && e.Listed().desired.KeySpec? && hash != ""
    requires e.Left().cr.desired.KeySpec? ==>
      var r := KeyReconciled(e.Left(), hash, newId, hasSecret);
      r.Some? ==> Follows(r.value, apis, c, i)
    ensures e.Left().cr.desired == e.Listed().desired && i < |c.crds|
    ensures var key := e.Listed();
      NothingToDo(CrdWinsRules(policy), apis, c, i) <==>
        key.id !in e.before || !hasSecret || !Drifted(key.desired, e.before[key.id])
  {
    KeyInStepExactly(e, hash, newId, hasSecret);
    InStepExactly(policy, apis, c, i, KeyReconciled(e.Left(), hash, newId, hasSecret).value.records);
  }

  /** A quiet pass and the reconcile of a team after it. */
  datatype Turn = Turn(e: Episode, specId: string, hash: string, newId: string) {
    ghost predicate Valid() {
      e.Valid() && hash != ""
    }

    ghost function Result(): Option<Site>
      requires Valid()
    {
      if e.Left().cr.desired.TeamSpec? then TeamReconciled(e.Left(), specId, hash, newId) else None
    }
  }

  /** `later` takes up the CR and its object as `earlier` left them; anything else may have
      changed in between. */
  ghost predicate TakesUp(earlier: Turn, later: Turn)
    requires earlier.Valid() && later.Valid()
  {
    var r, id := earlier.Result(), later.e.Listed().id;
    && r.Some? && later.e.Listed() == r.value.cr
    && id in r.value.records && id in later.e.before && later.e.before[id] == r.value.records[id]
  }

  ghost predicate Chain(turns: seq<Turn>) {
    && (forall k :: 0 <= k < |turns| ==> turns[k].Valid())
    && forall k :: 0 < k < |turns| ==> TakesUp(turns[k - 1], turns[k])
  }

  /** A team whose empty alias was changed upstream to `o`, as a turn finds it. */
  ghost predicate Renamed(turn: Turn, id: string, o: Observed)
    requires turn.Valid()
  {
    && turn.e.Listed().desired == TeamSpec("") && turn.e.Listed().id == id
    && id in turn.e.before && turn.e.before[id] == o && o != TeamInfo("")
  }

  /** An update without an alias leaves the object as it is. */
  lemma CannotClear(s: Site, specId: string, hash: string, newId: string)
    requires s.cr.desired == TeamSpec("") && s.cr.id != "" && s.cr.id in s.records
    ensures var r := TeamReconciled(s, specId, hash, newId);
      && r.Some? && r.value.records == s.records
      && r.value.cr.id == s.cr.id && r.value.cr.desired == s.cr.desired
  {
    assert s.records[s.cr.id := s.records[s.cr.id]] == s.records;
  }

  /** The pass reports the drift and the reconcile leaves the object as it is. */
  lemma EmptyAliasStays(turn: Turn, id: string, o: Observed)
    requires turn.Valid() && Renamed(turn, id, o)
    ensures turn.e.c.DriftSeen(CrdWinsRules(turn.e.policy), turn.e.apis, turn.e.i)
    ensures var r := turn.Result();
      && r.Some? && !InStep(r.value) && r.value.cr.id == id && r.value.cr.desired == TeamSpec("")
      && r.value.records == turn.e.after && id in r.value.records && r.value.records[id] == o
  {
    var e := turn.e;
    DriftIsSeen(e);
    AfterPass(e);
    CannotClear(e.Left(), turn.specId, turn.hash, turn.newId);
  }

  /** So every later pass finds the drift again, however many follow. */
  lemma {:induction false} EmptyAliasNeverConverges(turns: seq<Turn>, id: string, o: Observed, k: nat)
    requires Chain(turns) && k < |turns| && Renamed(turns[0], id, o)
    ensures Renamed(turns[k], id, o)
    ensures turns[k].e.c.DriftSeen(CrdWinsRules(turns[k].e.policy), turns[k].e.apis, turns[k].e.i)
    ensures turns[k].Result().Some? && !InStep(turns[k].Result().value)
    decreases k
  {
    if k > 0 {
      EmptyAliasNeverConverges(turns, id, o, k - 1);
      EmptyAliasStays(turns[k - 1], id, o);
      assert TakesUp(turns[k - 1], turns[k]);
    }
    EmptyAliasStays(turns[k], id, o);
  }
}
