/** The LiteLLMTeam and LiteLLMUser controllers, and config sync, as writers of one CR
    that may adopt an existing LiteLLM object instead of creating one.

    Each pass of a program is a thread: a copy of the CR read at some persisted
    version (possibly a stale one), and the next call it will make. One step makes one
    LiteLLM call or one Kubernetes write, which may succeed, fail, or take effect and
    still report an error. A thread that is never stepped again is a crashed process,
    so a run covers a crash after any step and any interleaving of passes. */
module Adoption {
  import opened Versioned

  /** Which controller owns the CR: teams look before they create, users create first. */
  datatype Controller = TeamController | UserController

  /** `id` is spec.teamId or spec.userId, "" when unset; `title` is the team alias or
      the user email. */
  datatype Spec = Spec(id: string, title: string)

  /** One persisted version. `syncHash` stands for the hash annotation by the spec it
      was computed from (hashes are collision-free); `adopted` is the adopted
      annotation; `boundId` is status.litellmTeamId or litellmUserId, "" while unbound. */
  datatype Cr = Cr(
    spec: Spec,
    syncHash: Option<Spec>,
    adopted: bool,
    finalizer: bool,
    deleting: bool,
    boundId: string)

  datatype Pc =
    | Start            // the CR has been read
    | ResolveRefs      // resolve the instance, organization and team references
    | CheckExisting    // teams: GET the team named by spec.teamId
    | Create           // POST /team/new or /user/new
    | ConfirmExisting  // users, after a 409: GET /user/info for spec.userId
    | UpdateAdopted    // users: POST /user/update for the user about to be adopted
    | MarkAdopted      // persist the adopted annotation
    | BindAdopted      // persist the adopted id
    | BindCreated      // persist the created id
    | ComparePushed    // compare the sync hash
    | PushUpdate       // POST /team/update or /user/update
    | RecordHash       // persist the sync hash
    | Rest             // members and logging, or the password; then spend
    | FinalStatus      // the status write that ends every pass
    | FinalizerDelete  // the delete call of the finalizer
    | RemoveFinalizer
    | SyncDrift        // config sync: drop the sync hash
    | SyncVanished     // config sync: clear the id
    | SyncVanishedHash // config sync: then drop the sync hash
    | Done

  /** The steps that write to Kubernetes, and those that call LiteLLM. */
  const WRITES := {MarkAdopted, BindAdopted, BindCreated, RecordHash, FinalStatus, RemoveFinalizer,
                   SyncDrift, SyncVanished, SyncVanishedHash}
  const CALLS := {CheckExisting, Create, ConfirmExisting, UpdateAdopted, PushUpdate, FinalizerDelete}

  /** `local` is the in-memory object and `readAt` its resourceVersion. */
  datatype Thread = Thread(pc: Pc, readAt: nat, local: Cr)

  /** What LiteLLM told this CR's controller: `created` holds the ids returned by its
      create calls, `confirmed` those one of its GET calls found. */
  datatype Known = Known(created: set<string>, confirmed: set<string>)

  /** `upstream` maps every LiteLLM object of the kind to its title; `updates` is every id an
      update call named, `finalizerDeletes` every id the finalizer asked LiteLLM to delete. */
  datatype State = State(
    store: Store<Cr>,
    upstream: map<string, string>,
    threads: map<nat, Thread>,
    known: Known,
    updates: set<string>,
    finalizerDeletes: set<string>)

  datatype Action =
    | ReadForReconcile(tid: nat, seen: Cr, at: nat)
    | ReadForDrift(tid: nat, seen: Cr, at: nat)
    | ReadForVanished(tid: nat, seen: Cr, at: nat)
    | Step(tid: nat, outcome: Outcome, freshId: string)
    | EditSpec(spec: Spec)
    | RequestDeletion
    | OthersWrite(id: string, title: string)
    | OthersDelete(id: string)

  /** A CR as a user creates it: unbound, with no status. */
  ghost predicate Init(s: State) {
    && s.store.history == {s.store.latest}
    && s.store.latest.boundId == ""
    && s.threads == map[]
    && s.known == Known({}, {}) && s.updates == {} && s.finalizerDeletes == {}
  }

  /** The API server removes the object once it is deleting and has no finalizer. */
  predicate Gone(c: Cr) {
    c.deleting && !c.finalizer
  }

  function Goto(s: State, tid: nat, th: Thread): State {
    s.(threads := s.threads[tid := th])
  }

  /** A compare-and-swap write of `next` by thread `tid`, whose in-memory object is
      `local`. On success the response replaces the in-memory object. */
  function Commit(s: State, tid: nat, local: Cr, next: Cr, o: Outcome, onOk: Pc, onError: Pc): State
    requires tid in s.threads
  {
    var readAt := s.threads[tid].readAt;
    if o != Fail && readAt == s.store.rv && !Gone(s.store.latest) then
      var st := Persist(s.store, next);
      Goto(s.(store := st), tid, if o == Ok then Thread(onOk, st.rv, next) else Thread(onError, readAt, local))
    else
      Goto(s, tid, Thread(onError, readAt, local))
  }

  /** Update writes spec and metadata and leaves the status alone. */
  function UpdateObject(s: State, tid: nat, local: Cr, o: Outcome, onOk: Pc, onError: Pc): State
    requires tid in s.threads
  {
    Commit(s, tid, local, local.(deleting := s.store.latest.deleting, boundId := s.store.latest.boundId),
           o, onOk, onError)
  }

  /** Status().Update writes the status and leaves everything else alone. */
  function UpdateStatus(s: State, tid: nat, local: Cr, o: Outcome, onOk: Pc, onError: Pc): State
    requires tid in s.threads
  {
    Commit(s, tid, local, s.store.latest.(boundId := local.boundId), o, onOk, onError)
  }

  /** LiteLLM refuses a taken id, and a user whose email belongs to someone else. */
  predicate Conflicts(c: Controller, upstream: map<string, string>, id: string, title: string) {
    id in upstream || (c == UserController && title != "" && title in upstream.Values)
  }

  /** The id a create call asks for, or that LiteLLM picks. */
  function NewId(spec: Spec, freshId: string): string {
    if spec.id != "" then spec.id else freshId
  }

  /** The create call. Only the user controller reacts to a conflict. */
  function StepCreate(c: Controller, s: State, tid: nat, o: Outcome, freshId: string): State
    requires tid in s.threads
  {
    var th := s.threads[tid];
    var spec := th.local.spec;
    var id := NewId(spec, freshId);
    if o == Fail || id == "" then
      Goto(s, tid, th.(pc := FinalStatus))
    else if Conflicts(c, s.upstream, id, spec.title) then
      Goto(s, tid, th.(pc := if c == UserController && o == Ok && spec.id != "" then ConfirmExisting else FinalStatus))
    else if o == Lost then
      Goto(s.(upstream := s.upstream[id := spec.title]), tid, th.(pc := FinalStatus))
    else
      Goto(s.(upstream := s.upstream[id := spec.title], known := s.known.(created := s.known.created + {id})), tid,
           th.(pc := BindCreated, local := th.local.(boundId := id)))
  }

  /** The object an update names: a team's is the bound one, a user's the one spec.userId
      names. */
  function UpdateTarget(c: Controller, local: Cr): string {
    if c == TeamController then local.boundId else local.spec.id
  }

  /** An update call. It merges, so an empty title is not sent, and fails on an unknown id. */
  function StepUpdate(s: State, tid: nat, o: Outcome, target: string, onOk: Pc): State
    requires tid in s.threads
  {
    var th, found := s.threads[tid], target in s.upstream;
    var sent := o != Fail && found && th.local.spec.title != "";
    Goto(s.(updates := s.updates + {target},
            upstream := if sent then s.upstream[target := th.local.spec.title] else s.upstream),
         tid, th.(pc := if o == Ok && found then onOk else FinalStatus))
  }

  /** Persisting the mark; only then does the id join the in-memory status. */
  function StepMark(s: State, tid: nat, o: Outcome): State
    requires tid in s.threads
  {
    var local := s.threads[tid].local.(adopted := true);
    var r := UpdateObject(s, tid, local, o, BindAdopted, FinalStatus);
    var th := r.threads[tid];
    if th.pc == BindAdopted then Goto(r, tid, th.(local := th.local.(boundId := th.local.spec.id))) else r
  }

  /** One call of the pass `tid`. */
  function StepThread(c: Controller, s: State, tid: nat, o: Outcome, freshId: string): State
    requires tid in s.threads
  {
    var th := s.threads[tid];
    var local := th.local;
    match th.pc
    case Start =>
      if local.deleting then
        Goto(s, tid, th.(pc := if !local.finalizer then Done
                               else if !local.adopted && local.boundId != "" then FinalizerDelete
                               else RemoveFinalizer))
      else if !local.finalizer then
        UpdateObject(s, tid, local.(finalizer := true), o, ResolveRefs, Done)
      else
        Goto(s, tid, th.(pc := ResolveRefs))
    case ResolveRefs =>
      Goto(s, tid, th.(pc := if o != Ok then FinalStatus
                             else if local.boundId != "" then ComparePushed
                             else if c == TeamController && local.spec.id != "" then CheckExisting
                             else Create))
    case CheckExisting =>
      if o != Ok then
        Goto(s, tid, th.(pc := FinalStatus))
      else if local.spec.id in s.upstream then
        Goto(s.(known := s.known.(confirmed := s.known.confirmed + {local.spec.id})), tid, th.(pc := MarkAdopted))
      else
        Goto(s, tid, th.(pc := Create))
    case Create => StepCreate(c, s, tid, o, freshId)
    case ConfirmExisting =>
      if o == Ok && local.spec.id in s.upstream then
        Goto(s.(known := s.known.(confirmed := s.known.confirmed + {local.spec.id})), tid, th.(pc := UpdateAdopted))
      else
        Goto(s, tid, th.(pc := FinalStatus))
    case UpdateAdopted => StepUpdate(s, tid, o, local.spec.id, MarkAdopted)
    case MarkAdopted => StepMark(s, tid, o)
    case BindAdopted =>
      // An adopted team has no sync hash yet, so the update path pushes the spec; an
      // adopted user has already been updated.
      UpdateStatus(s, tid, local, o, if c == TeamController then ComparePushed else RecordHash, FinalStatus)
    case BindCreated => UpdateStatus(s, tid, local, o, RecordHash, FinalStatus)
    case ComparePushed =>
      Goto(s, tid, th.(pc := if local.syncHash == Some(local.spec) then Rest else PushUpdate))
    case PushUpdate => StepUpdate(s, tid, o, UpdateTarget(c, local), RecordHash)
    case RecordHash => UpdateObject(s, tid, local.(syncHash := Some(local.spec)), o, Rest, FinalStatus)
    case Rest => Goto(s, tid, th.(pc := FinalStatus))
    case FinalStatus => UpdateStatus(s, tid, local, o, Done, Done)
    case FinalizerDelete =>
      Goto(s.(finalizerDeletes := s.finalizerDeletes + {local.boundId},
              upstream := if o == Fail then s.upstream else s.upstream - {local.boundId}),
           tid, th.(pc := RemoveFinalizer))
    case RemoveFinalizer => UpdateObject(s, tid, local.(finalizer := false), o, Done, Done)
    case SyncDrift => UpdateObject(s, tid, local.(syncHash := None), o, Done, Done)
    case SyncVanished => UpdateStatus(s, tid, local.(boundId := ""), o, SyncVanishedHash, Done)
    case SyncVanishedHash => UpdateObject(s, tid, local.(syncHash := None), o, Done, Done)
    case Done => s
  }

  function Read(s: State, tid: nat, seen: Cr, at: nat, pc: Pc): State {
    if tid !in s.threads && CanRead(s.store, seen, at) then Goto(s, tid, Thread(pc, at, seen)) else s
  }

  function Apply(c: Controller, s: State, a: Action): State {
    match a
    case ReadForReconcile(tid, seen, at) => Read(s, tid, seen, at, Start)
    case ReadForDrift(tid, seen, at) => Read(s, tid, seen, at, SyncDrift)
    case ReadForVanished(tid, seen, at) => Read(s, tid, seen, at, SyncVanished)
    case Step(tid, o, freshId) => if tid in s.threads then StepThread(c, s, tid, o, freshId) else s
    case EditSpec(spec) =>
      if Gone(s.store.latest) then s else s.(store := Persist(s.store, s.store.latest.(spec := spec)))
    case RequestDeletion => s.(store := Persist(s.store, s.store.latest.(deleting := true)))
    case OthersWrite(id, title) => s.(upstream := s.upstream[id := title])
    case OthersDelete(id) => s.(upstream := s.upstream - {id})
  }

  /** The state after a run. */
  function Run(c: Controller, s: State, actions: seq<Action>): State
    decreases |actions|
  {
    if actions == [] then s else Run(c, Apply(c, s, actions[0]), actions[1..])
  }

  /** A bound version names an object a create call for this CR returned, or carries
      the adopted mark and names an object that was found to exist. */
  ghost predicate Accounted(k: Known, mark: bool, id: string) {
    id != "" ==> id in k.created || (mark && id in k.confirmed)
  }

  /** `id` has been spec.id. */
  ghost predicate Named(history: set<Cr>, id: string) {
    exists v :: v in history && v.spec.id == id
  }

  /** What a thread's in-memory object may claim. Its id is accounted for, its spec was
      persisted, and while it is up to date it keeps the latest version's mark and needs
      no other mark for the id it is about to persist. */
  ghost predicate ThreadOk(k: Known, st: Store<Cr>, th: Thread) {
    && Accounted(k, th.local.adopted, th.local.boundId)
    && Named(st.history, th.local.spec.id)
    && th.readAt <= st.rv
    && (th.readAt == st.rv ==>
          && (st.latest.adopted ==> th.local.adopted)
          && Accounted(k, st.latest.adopted, th.local.boundId))
    && (th.pc == UpdateAdopted || th.pc == MarkAdopted ==> th.local.spec.id in k.confirmed)
    && (th.pc == FinalizerDelete ==> !th.local.adopted && th.local.boundId != "")
  }

  ghost predicate Inv(s: State) {
    && s.store.latest in s.store.history
    && (forall v :: v in s.store.history ==> Accounted(s.known, v.adopted, v.boundId))
    && (forall t :: t in s.threads ==> ThreadOk(s.known, s.store, s.threads[t]))
    && (forall id :: id in s.known.confirmed ==> Named(s.store.history, id))
    && s.finalizerDeletes <= s.known.created
  }

  /** Moving one thread. */
  lemma GotoKeepsInv(s: State, tid: nat, th: Thread)
    requires Inv(s) && ThreadOk(s.known, s.store, th)
    ensures Inv(Goto(s, tid, th))
  {
  }

  /** Persisting one version. */
  lemma PersistKeepsInv(s: State, next: Cr)
    requires Inv(s) && Accounted(s.known, next.adopted, next.boundId)
    ensures Inv(s.(store := Persist(s.store, next)))
  {
    var st := Persist(s.store, next);
    forall id | Named(s.store.history, id)
      ensures Named(st.history, id)
    {
      var v :| v in s.store.history && v.spec.id == id;
      assert v in st.history;
    }
  }

  /** Learning from LiteLLM. */
  lemma LearningKeepsInv(s: State, s': State)
    requires Inv(s) && s'.store == s.store && s'.threads == s.threads
    requires s.known.created <= s'.known.created && s.known.confirmed <= s'.known.confirmed
    requires forall id :: id in s'.known.confirmed ==> Named(s.store.history, id)
    requires s'.finalizerDeletes <= s'.known.created
    ensures Inv(s')
  {
  }

  lemma CommitKeepsInv(s: State, tid: nat, local: Cr, next: Cr, o: Outcome, onOk: Pc, onError: Pc)
    requires Inv(s) && tid in s.threads
    requires ThreadOk(s.known, s.store, Thread(onError, s.threads[tid].readAt, local))
    requires s.threads[tid].readAt == s.store.rv ==>
               Accounted(s.known, next.adopted, next.boundId) && (s.store.latest.adopted ==> next.adopted)
    requires onOk != UpdateAdopted && onOk != MarkAdopted && onOk != FinalizerDelete
    ensures Inv(Commit(s, tid, local, next, o, onOk, onError))
  {
    var onErr := Thread(onError, s.threads[tid].readAt, local);
    if o != Fail && onErr.readAt == s.store.rv && !Gone(s.store.latest) {
      PersistKeepsInv(s, next);
      var s' := s.(store := Persist(s.store, next));
      GotoKeepsInv(s', tid, if o == Ok then Thread(onOk, s'.store.rv, next) else onErr);
    } else {
      GotoKeepsInv(s, tid, onErr);
    }
  }

  lemma UpdateObjectKeepsInv(s: State, tid: nat, local: Cr, o: Outcome, onOk: Pc, onError: Pc)
    requires Inv(s) && tid in s.threads
    requires ThreadOk(s.known, s.store, Thread(onError, s.threads[tid].readAt, local))
    requires onOk !in {UpdateAdopted, MarkAdopted, FinalizerDelete}
    ensures Inv(UpdateObject(s, tid, local, o, onOk, onError))
  {
    var latest := s.store.latest;
    CommitKeepsInv(s, tid, local, local.(deleting := latest.deleting, boundId := latest.boundId), o, onOk, onError);
  }

  lemma UpdateStatusKeepsInv(s: State, tid: nat, local: Cr, o: Outcome, onOk: Pc, onError: Pc)
    requires Inv(s) && tid in s.threads
    requires ThreadOk(s.known, s.store, Thread(onError, s.threads[tid].readAt, local))
    requires onOk !in {UpdateAdopted, MarkAdopted, FinalizerDelete}
    ensures Inv(UpdateStatus(s, tid, local, o, onOk, onError))
  {
    CommitKeepsInv(s, tid, local, s.store.latest.(boundId := local.boundId), o, onOk, onError);
  }

  /** What a thread may claim that has just persisted the mark. */
  lemma MarkedThreadIsOk(s: State, tid: nat, o: Outcome)
    requires Inv(s) && tid in s.threads && s.threads[tid].pc == MarkAdopted
    ensures var r := UpdateObject(s, tid, s.threads[tid].local.(adopted := true), o, BindAdopted, FinalStatus);
      var th := r.threads[tid];
      th.pc == BindAdopted ==>
        && r.known == s.known && th.local == r.store.latest && th.local.adopted && th.readAt == r.store.rv
        && th.local.spec.id in r.known.confirmed
  {
  }

  lemma BindMarkedKeepsInv(r: State, tid: nat)
    requires Inv(r) && tid in r.threads
    requires var th := r.threads[tid];
      th.pc == BindAdopted ==> th.local.adopted && th.local.spec.id in r.known.confirmed && r.store.latest.adopted
    ensures var th := r.threads[tid];
      Inv(if th.pc == BindAdopted then Goto(r, tid, th.(local := th.local.(boundId := th.local.spec.id))) else r)
  {
    var th := r.threads[tid];
    if th.pc == BindAdopted {
      GotoKeepsInv(r, tid, th.(local := th.local.(boundId := th.local.spec.id)));
    }
  }

  lemma MarkKeepsInv(s: State, tid: nat, o: Outcome)
    requires Inv(s) && tid in s.threads && s.threads[tid].pc == MarkAdopted
    ensures Inv(StepMark(s, tid, o))
  {
    var local := s.threads[tid].local.(adopted := true);
    var r := UpdateObject(s, tid, local, o, BindAdopted, FinalStatus);
    UpdateObjectKeepsInv(s, tid, local, o, BindAdopted, FinalStatus);
    MarkedThreadIsOk(s, tid, o);
    BindMarkedKeepsInv(r, tid);
  }

  /** The status writes that bind. */
  lemma BindKeepsInv(c: Controller, s: State, tid: nat, o: Outcome, freshId: string, r: State)
    requires Inv(s) && tid in s.threads && r == StepThread(c, s, tid, o, freshId)
    requires s.threads[tid].pc == BindAdopted || s.threads[tid].pc == BindCreated
    ensures Inv(r)
  {
    var th := s.threads[tid];
    var onOk := if th.pc == BindAdopted && c == TeamController then ComparePushed else RecordHash;
    UpdateStatusKeepsInv(s, tid, th.local, o, onOk, FinalStatus);
    assert r == UpdateStatus(s, tid, th.local, o, onOk, FinalStatus);
  }

  /** The other status writes. */
  lemma StatusStepKeepsInv(c: Controller, s: State, tid: nat, o: Outcome, freshId: string, r: State)
    requires Inv(s) && tid in s.threads && r == StepThread(c, s, tid, o, freshId)
    requires s.threads[tid].pc == FinalStatus || s.threads[tid].pc == SyncVanished
    ensures Inv(r)
  {
    var th := s.threads[tid];
    var local := if th.pc == SyncVanished then th.local.(boundId := "") else th.local;
    var onOk := if th.pc == SyncVanished then SyncVanishedHash else Done;
    UpdateStatusKeepsInv(s, tid, local, o, onOk, Done);
    assert r == UpdateStatus(s, tid, local, o, onOk, Done);
  }

  lemma RecordHashKeepsInv(c: Controller, s: State, tid: nat, o: Outcome, freshId: string, r: State)
    requires Inv(s) && tid in s.threads && r == StepThread(c, s, tid, o, freshId)
    requires s.threads[tid].pc == RecordHash
    ensures Inv(r)
  {
    var local := s.threads[tid].local.(syncHash := Some(s.threads[tid].local.spec));
    UpdateObjectKeepsInv(s, tid, local, o, Rest, FinalStatus);
    assert r == UpdateObject(s, tid, local, o, Rest, FinalStatus);
  }

  lemma RemoveFinalizerKeepsInv(c: Controller, s: State, tid: nat, o: Outcome, freshId: string, r: State)
    requires Inv(s) && tid in s.threads && r == StepThread(c, s, tid, o, freshId)
    requires s.threads[tid].pc == RemoveFinalizer
    ensures Inv(r)
  {
    var local := s.threads[tid].local.(finalizer := false);
    UpdateObjectKeepsInv(s, tid, local, o, Done, Done);
    assert r == UpdateObject(s, tid, local, o, Done, Done);
  }

  /** Config sync drops the hash. */
  lemma DropHashKeepsInv(c: Controller, s: State, tid: nat, o: Outcome, freshId: string, r: State)
    requires Inv(s) && tid in s.threads && r == StepThread(c, s, tid, o, freshId)
    requires s.threads[tid].pc == SyncDrift || s.threads[tid].pc == SyncVanishedHash
    ensures Inv(r)
  {
    var local := s.threads[tid].local.(syncHash := None);
    UpdateObjectKeepsInv(s, tid, local, o, Done, Done);
    assert r == UpdateObject(s, tid, local, o, Done, Done);
  }

  /** A step that only decides what to do next. */
  lemma DecideKeepsInv(c: Controller, s: State, tid: nat, o: Outcome, freshId: string, r: State)
    requires Inv(s) && tid in s.threads && r == StepThread(c, s, tid, o, freshId)
    requires s.threads[tid].pc in {ResolveRefs, ComparePushed, Rest}
    ensures Inv(r)
  {
    assert r == Goto(s, tid, s.threads[tid].(pc := r.threads[tid].pc));
    GotoKeepsInv(s, tid, s.threads[tid].(pc := r.threads[tid].pc));
  }

  /** A successful GET records the id it found. */
  lemma ConfirmKeepsInv(s: State, tid: nat, pc: Pc)
    requires Inv(s) && tid in s.threads && pc in {MarkAdopted, UpdateAdopted}
    ensures var th := s.threads[tid];
      Inv(Goto(s.(known := s.known.(confirmed := s.known.confirmed + {th.local.spec.id})), tid, th.(pc := pc)))
  {
    var th := s.threads[tid];
    var s' := s.(known := s.known.(confirmed := s.known.confirmed + {th.local.spec.id}));
    LearningKeepsInv(s, s');
    GotoKeepsInv(s', tid, th.(pc := pc));
  }

  /** What a create call changes: the in-memory id, to one it returned, or nothing there. */
  lemma CreateChanges(c: Controller, s: State, tid: nat, o: Outcome, freshId: string)
    requires tid in s.threads
    ensures var th, r := s.threads[tid], StepCreate(c, s, tid, o, freshId);
      && tid in r.threads && r == Goto(s.(known := r.known, upstream := r.upstream), tid, r.threads[tid])
      && s.known.created <= r.known.created && s.known.confirmed == r.known.confirmed
      && r.threads[tid].pc in {FinalStatus, ConfirmExisting, BindCreated} && r.threads[tid].readAt == th.readAt
      && (r.threads[tid].local == th.local ||
          (r.threads[tid].local == th.local.(boundId := r.threads[tid].local.boundId) &&
           r.threads[tid].local.boundId in r.known.created))
  {
  }

  lemma CreateKeepsInv(c: Controller, s: State, tid: nat, o: Outcome, freshId: string)
    requires Inv(s) && tid in s.threads
    ensures Inv(StepCreate(c, s, tid, o, freshId))
  {
    CreateChanges(c, s, tid, o, freshId);
    var r := StepCreate(c, s, tid, o, freshId);
    var s' := s.(known := r.known, upstream := r.upstream);
    LearningKeepsInv(s, s');
    GotoKeepsInv(s', tid, r.threads[tid]);
  }

  /** The finalizer's delete names an object a create call returned. */
  lemma FinalizerKeepsInv(c: Controller, s: State, tid: nat, o: Outcome, freshId: string, r: State)
    requires Inv(s) && tid in s.threads && r == StepThread(c, s, tid, o, freshId)
    requires s.threads[tid].pc == FinalizerDelete
    ensures Inv(r)
  {
    var th := s.threads[tid];
    assert th.local.boundId in s.known.created;
    var s' := s.(finalizerDeletes := r.finalizerDeletes, upstream := r.upstream);
    LearningKeepsInv(s, s');
    GotoKeepsInv(s', tid, th.(pc := RemoveFinalizer));
  }

  /** The GET calls. */
  lemma LookKeepsInv(c: Controller, s: State, tid: nat, o: Outcome, freshId: string, r: State)
    requires Inv(s) && tid in s.threads && r == StepThread(c, s, tid, o, freshId)
    requires s.threads[tid].pc == CheckExisting || s.threads[tid].pc == ConfirmExisting
    ensures Inv(r)
  {
    var th := s.threads[tid];
    if o == Ok && th.local.spec.id in s.upstream {
      ConfirmKeepsInv(s, tid, if th.pc == CheckExisting then MarkAdopted else UpdateAdopted);
    } else {
      var next := th.(pc := if th.pc == CheckExisting && o == Ok then Create else FinalStatus);
      GotoKeepsInv(s, tid, next);
      assert r == Goto(s, tid, next);
    }
  }

  lemma UpdateKeepsInv(s: State, tid: nat, o: Outcome, target: string, onOk: Pc)
    requires Inv(s) && tid in s.threads
    requires ThreadOk(s.known, s.store, s.threads[tid].(pc := onOk)) && onOk != FinalizerDelete
    ensures Inv(StepUpdate(s, tid, o, target, onOk))
  {
    var r := StepUpdate(s, tid, o, target, onOk);
    var s' := s.(upstream := r.upstream, updates := r.updates);
    LearningKeepsInv(s, s');
    GotoKeepsInv(s', tid, r.threads[tid]);
    assert r == Goto(s', tid, r.threads[tid]);
  }

  lemma StartKeepsInv(c: Controller, s: State, tid: nat, o: Outcome, freshId: string, r: State)
    requires Inv(s) && tid in s.threads && r == StepThread(c, s, tid, o, freshId)
    requires s.threads[tid].pc == Start
    ensures Inv(r)
  {
    var th := s.threads[tid];
    if !th.local.deleting && !th.local.finalizer {
      UpdateObjectKeepsInv(s, tid, th.local.(finalizer := true), o, ResolveRefs, Done);
      assert r == UpdateObject(s, tid, th.local.(finalizer := true), o, ResolveRefs, Done);
    } else {
      assert r == Goto(s, tid, th.(pc := r.threads[tid].pc));
      GotoKeepsInv(s, tid, th.(pc := r.threads[tid].pc));
    }
  }

  /** The steps that write to Kubernetes. */
  lemma WriteKeepsInv(c: Controller, s: State, tid: nat, o: Outcome, freshId: string, r: State)
    requires Inv(s) && tid in s.threads && r == StepThread(c, s, tid, o, freshId)
    requires s.threads[tid].pc in WRITES
    ensures Inv(r)
  {
    match s.threads[tid].pc
    case MarkAdopted => MarkKeepsInv(s, tid, o);
    case BindAdopted => BindKeepsInv(c, s, tid, o, freshId, r);
    case BindCreated => BindKeepsInv(c, s, tid, o, freshId, r);
    case FinalStatus => StatusStepKeepsInv(c, s, tid, o, freshId, r);
    case SyncVanished => StatusStepKeepsInv(c, s, tid, o, freshId, r);
    case RecordHash => RecordHashKeepsInv(c, s, tid, o, freshId, r);
    case RemoveFinalizer => RemoveFinalizerKeepsInv(c, s, tid, o, freshId, r);
    case _ => DropHashKeepsInv(c, s, tid, o, freshId, r);
  }

  /** The steps that call LiteLLM. */
  lemma CallKeepsInv(c: Controller, s: State, tid: nat, o: Outcome, freshId: string, r: State)
    requires Inv(s) && tid in s.threads && r == StepThread(c, s, tid, o, freshId)
    requires s.threads[tid].pc in CALLS
    ensures Inv(r)
  {
    match s.threads[tid].pc
    case Create => CreateKeepsInv(c, s, tid, o, freshId);
    case UpdateAdopted => UpdateKeepsInv(s, tid, o, s.threads[tid].local.spec.id, MarkAdopted);
    case PushUpdate => UpdateKeepsInv(s, tid, o, UpdateTarget(c, s.threads[tid].local), RecordHash);
    case FinalizerDelete => FinalizerKeepsInv(c, s, tid, o, freshId, r);
    case _ => LookKeepsInv(c, s, tid, o, freshId, r);
  }

  lemma StepKeepsInv(c: Controller, s: State, tid: nat, o: Outcome, freshId: string, r: State)
    requires Inv(s) && tid in s.threads && r == StepThread(c, s, tid, o, freshId)
    ensures Inv(r)
  {
    var pc := s.threads[tid].pc;
    if pc in WRITES {
      WriteKeepsInv(c, s, tid, o, freshId, r);
    } else if pc in CALLS {
      CallKeepsInv(c, s, tid, o, freshId, r);
    } else if pc == Start {
      StartKeepsInv(c, s, tid, o, freshId, r);
    } else if pc != Done {
      DecideKeepsInv(c, s, tid, o, freshId, r);
    }
  }

  lemma ReadKeepsInv(s: State, tid: nat, seen: Cr, at: nat, pc: Pc)
    requires Inv(s) && pc in {Start, SyncDrift, SyncVanished}
    ensures Inv(Read(s, tid, seen, at, pc))
  {
    if CanRead(s.store, seen, at) {
      assert Named(s.store.history, seen.spec.id);
      GotoKeepsInv(s, tid, Thread(pc, at, seen));
    }
  }

  lemma ApplyKeepsInv(c: Controller, s: State, a: Action)
    requires Inv(s)
    ensures Inv(Apply(c, s, a))
  {
    var latest := s.store.latest;
    match a
    case Step(tid, o, freshId) => if tid in s.threads { StepKeepsInv(c, s, tid, o, freshId, Apply(c, s, a)); }
    case EditSpec(spec) => PersistKeepsInv(s, latest.(spec := spec));
    case RequestDeletion => PersistKeepsInv(s, latest.(deleting := true));
    case ReadForReconcile(tid, seen, at) => ReadKeepsInv(s, tid, seen, at, Start);
    case ReadForDrift(tid, seen, at) => ReadKeepsInv(s, tid, seen, at, SyncDrift);
    case ReadForVanished(tid, seen, at) => ReadKeepsInv(s, tid, seen, at, SyncVanished);
    case OthersWrite(_, _) =>
    case OthersDelete(_) =>
  }

  lemma {:induction false} RunKeepsInv(c: Controller, s: State, actions: seq<Action>)
    requires Inv(s)
    ensures Inv(Run(c, s, actions))
    decreases |actions|
  {
    if actions != [] {
      ApplyKeepsInv(c, s, actions[0]);
      RunKeepsInv(c, Apply(c, s, actions[0]), actions[1..]);
    }
  }

  /** Adoption safety, for teams and for users. In every run of reconciles and
      config-sync passes on one CR, a persisted version bound to an object that no
      create call for this CR returned carries the adopted mark, and that object's id
      was the spec's id and was found to exist. The finalizer asks LiteLLM to delete
      only objects this CR's create calls returned. */
  lemma AdoptedObjectsAreNeverDeleted(c: Controller, s: State, actions: seq<Action>)
    requires Init(s)
    ensures var r := Run(c, s, actions);
      && r.finalizerDeletes <= r.known.created
      && forall v :: v in r.store.history && v.boundId != "" && v.boundId !in r.known.created ==>
           v.adopted && v.boundId in r.known.confirmed && Named(r.store.history, v.boundId)
  {
    RunKeepsInv(c, s, actions);
  }

  /** Thread `tid` makes its next `steps` calls, all successful, with nobody else acting; a
      create call without an id gets `freshId`. */
  function Undisturbed(c: Controller, s: State, tid: nat, steps: nat, freshId: string): State {
    Repeat(x => Apply(c, x, Step(tid, Ok, freshId)), s, steps)
  }

  /** A pass over the latest version has just been read. */
  ghost predicate AboutTo(s: State, tid: nat, pc: Pc) {
    && tid in s.threads
    && s.threads[tid] == Thread(pc, s.store.rv, s.store.latest)
  }

  /** An unbound team CR whose spec.teamId exists gets as far as the adopted mark. */
  lemma ReachesMark(s: State, tid: nat)
    requires AboutTo(s, tid, Start)
    requires var cr := s.store.latest;
      !cr.deleting && cr.boundId == "" && cr.spec.id != "" && cr.spec.id in s.upstream
    ensures var r := Undisturbed(TeamController, s, tid, 3, "");
      && AboutTo(r, tid, MarkAdopted)
      && r.upstream == s.upstream
      && !r.store.latest.deleting && r.store.latest.spec == s.store.latest.spec
  {
    var s1 := Apply(TeamController, s, Step(tid, Ok, ""));
    assert AboutTo(s1, tid, ResolveRefs);
    var s2 := Apply(TeamController, s1, Step(tid, Ok, ""));
    var s3 := Apply(TeamController, s2, Step(tid, Ok, ""));
    assert Undisturbed(TeamController, s, tid, 3, "") == Undisturbed(TeamController, s1, tid, 2, "") ==
           Undisturbed(TeamController, s3, tid, 0, "");
  }

  lemma Marks(s: State, tid: nat)
    requires AboutTo(s, tid, MarkAdopted) && !s.store.latest.deleting
    ensures var r := Apply(TeamController, s, Step(tid, Ok, ""));
      && tid in r.threads && r.threads[tid].pc == BindAdopted && r.threads[tid].readAt == r.store.rv
      && r.threads[tid].local.boundId == s.store.latest.spec.id
      && r.store.latest.adopted && !r.store.latest.deleting && r.upstream == s.upstream
  {
    assert Apply(TeamController, s, Step(tid, Ok, "")) == StepMark(s, tid, Ok);
  }

  /** The other half of adoption: an unbound team CR whose spec.teamId names an existing
      team ends bound to that team, marked, with LiteLLM's teams untouched. */
  lemma ExistingTeamIsAdopted(s: State, tid: nat)
    requires AboutTo(s, tid, Start)
    requires var cr := s.store.latest;
      !cr.deleting && cr.boundId == "" && cr.spec.id != "" && cr.spec.id in s.upstream
    ensures var r := Undisturbed(TeamController, Undisturbed(TeamController, s, tid, 3, ""), tid, 2, "");
      && r.store.latest.boundId == s.store.latest.spec.id
      && r.store.latest.adopted
      && r.upstream == s.upstream
  {
    ReachesMark(s, tid);
    var s3 := Undisturbed(TeamController, s, tid, 3, "");
    Marks(s3, tid);
    var s4 := Apply(TeamController, s3, Step(tid, Ok, ""));
    var s5 := Apply(TeamController, s4, Step(tid, Ok, ""));
    assert Undisturbed(TeamController, s3, tid, 2, "") == Undisturbed(TeamController, s4, tid, 1, "") ==
           Undisturbed(TeamController, s5, tid, 0, "");
  }

  /** The other half of deletion: a finalizer pass that nothing disturbs deletes the
      LiteLLM object exactly when the CR is bound and unmarked, and then asks for the
      finalizer to be removed. */
  lemma FinalizerDeletesExactlyUnmarked(c: Controller, s: State, tid: nat)
    requires AboutTo(s, tid, Start)
    requires s.store.latest.deleting && s.store.latest.finalizer
    ensures
      var cr := s.store.latest;
      var unmarked := cr.boundId != "" && !cr.adopted;
      var r := Undisturbed(c, s, tid, if unmarked then 3 else 2, "");
      && Gone(r.store.latest)
      && r.upstream == (if unmarked then s.upstream - {cr.boundId} else s.upstream)
  {
    var s1 := Apply(c, s, Step(tid, Ok, ""));
    var s2 := Apply(c, s1, Step(tid, Ok, ""));
    if s.store.latest.boundId != "" && !s.store.latest.adopted {
      assert s2.threads[tid] == Thread(RemoveFinalizer, s.store.rv, s.store.latest);
      var s3 := Apply(c, s2, Step(tid, Ok, ""));
      assert Undisturbed(c, s, tid, 3, "") == Undisturbed(c, s2, tid, 1, "") == Undisturbed(c, s3, tid, 0, "");
    } else {
      assert Undisturbed(c, s, tid, 2, "") == Undisturbed(c, s1, tid, 1, "") == Undisturbed(c, s2, tid, 0, "");
    }
  }

  // ---- A mark outlives its object ----

  /** The CR was marked before anybody asked for its deletion, as far as any pass can tell. */
  ghost predicate Marked(s: State) {
    && s.store.latest.adopted
    && (forall v :: v in s.store.history && v.deleting ==> v.adopted)
    && forall t :: t in s.threads ==>
         && (s.threads[t].local.deleting ==> s.threads[t].local.adopted)
         && s.threads[t].pc != FinalizerDelete
  }

  /** While a thread is up to date it has seen the mark. */
  ghost predicate KnowsMark(s: State, tid: nat)
    requires tid in s.threads
  {
    s.threads[tid].readAt == s.store.rv && s.store.latest.adopted ==> s.threads[tid].local.adopted
  }

  lemma GotoKeepsMark(s: State, tid: nat, th: Thread)
    requires Marked(s) && (th.local.deleting ==> th.local.adopted) && th.pc != FinalizerDelete
    ensures Marked(Goto(s, tid, th))
  {
  }

  lemma PersistKeepsMark(s: State, next: Cr)
    requires Marked(s) && next.adopted
    ensures Marked(s.(store := Persist(s.store, next)))
  {
  }

  lemma CommitKeepsMark(s: State, tid: nat, local: Cr, next: Cr, o: Outcome, onOk: Pc, onError: Pc, r: State)
    requires Marked(s) && tid in s.threads && (local.deleting ==> local.adopted)
    requires s.threads[tid].readAt == s.store.rv ==> next.adopted
    requires onOk != FinalizerDelete && onError != FinalizerDelete
    requires r == Commit(s, tid, local, next, o, onOk, onError)
    ensures Marked(r) && r.finalizerDeletes == s.finalizerDeletes
  {
    var onErr := Thread(onError, s.threads[tid].readAt, local);
    if o != Fail && onErr.readAt == s.store.rv && !Gone(s.store.latest) {
      PersistKeepsMark(s, next);
      var s' := s.(store := Persist(s.store, next));
      var th := if o == Ok then Thread(onOk, s'.store.rv, next) else onErr;
      GotoKeepsMark(s', tid, th);
      assert r == Goto(s', tid, th);
    } else {
      GotoKeepsMark(s, tid, onErr);
      assert r == Goto(s, tid, onErr);
    }
  }

  lemma UpdateObjectKeepsMark(s: State, tid: nat, local: Cr, o: Outcome, onOk: Pc, onError: Pc, r: State)
    requires Marked(s) && tid in s.threads && KnowsMark(s, tid) && onOk != FinalizerDelete && onError != FinalizerDelete
    requires local.deleting == s.threads[tid].local.deleting && (s.threads[tid].local.adopted ==> local.adopted)
    requires r == UpdateObject(s, tid, local, o, onOk, onError)
    ensures Marked(r) && r.finalizerDeletes == s.finalizerDeletes
  {
    var latest := s.store.latest;
    CommitKeepsMark(s, tid, local, local.(deleting := latest.deleting, boundId := latest.boundId), o, onOk, onError, r);
  }

  lemma UpdateStatusKeepsMark(s: State, tid: nat, local: Cr, o: Outcome, onOk: Pc, onError: Pc, r: State)
    requires Marked(s) && tid in s.threads && KnowsMark(s, tid) && onOk != FinalizerDelete && onError != FinalizerDelete
    requires local.deleting ==> local.adopted
    requires r == UpdateStatus(s, tid, local, o, onOk, onError)
    ensures Marked(r) && r.finalizerDeletes == s.finalizerDeletes
  {
    CommitKeepsMark(s, tid, local, s.store.latest.(boundId := local.boundId), o, onOk, onError, r);
  }

  lemma RecordHashKeepsMark(c: Controller, s: State, tid: nat, o: Outcome, freshId: string, r: State)
    requires Marked(s) && tid in s.threads && KnowsMark(s, tid) && r == StepThread(c, s, tid, o, freshId)
    requires s.threads[tid].pc == RecordHash
    ensures Marked(r) && r.finalizerDeletes == s.finalizerDeletes
  {
    var local := s.threads[tid].local;
    UpdateObjectKeepsMark(s, tid, local.(syncHash := Some(local.spec)), o, Rest, FinalStatus, r);
  }

  /** The other writes of spec and metadata. */
  lemma ObjectStepKeepsMark(c: Controller, s: State, tid: nat, o: Outcome, freshId: string, r: State)
    requires Marked(s) && tid in s.threads && KnowsMark(s, tid) && r == StepThread(c, s, tid, o, freshId)
    requires s.threads[tid].pc in {RemoveFinalizer, SyncDrift, SyncVanishedHash}
    ensures Marked(r) && r.finalizerDeletes == s.finalizerDeletes
  {
    var th := s.threads[tid];
    var local := if th.pc == RemoveFinalizer then th.local.(finalizer := false) else th.local.(syncHash := None);
    UpdateObjectKeepsMark(s, tid, local, o, Done, Done, r);
  }

  lemma BindKeepsMark(c: Controller, s: State, tid: nat, o: Outcome, freshId: string, r: State)
    requires Marked(s) && tid in s.threads && KnowsMark(s, tid) && r == StepThread(c, s, tid, o, freshId)
    requires s.threads[tid].pc == BindAdopted || s.threads[tid].pc == BindCreated
    ensures Marked(r) && r.finalizerDeletes == s.finalizerDeletes
  {
    var th := s.threads[tid];
    var onOk := if th.pc == BindAdopted && c == TeamController then ComparePushed else RecordHash;
    UpdateStatusKeepsMark(s, tid, th.local, o, onOk, FinalStatus, r);
  }

  /** The other status writes. */
  lemma StatusStepKeepsMark(c: Controller, s: State, tid: nat, o: Outcome, freshId: string, r: State)
    requires Marked(s) && tid in s.threads && KnowsMark(s, tid) && r == StepThread(c, s, tid, o, freshId)
    requires s.threads[tid].pc == FinalStatus || s.threads[tid].pc == SyncVanished
    ensures Marked(r) && r.finalizerDeletes == s.finalizerDeletes
  {
    var th := s.threads[tid];
    var local := if th.pc == SyncVanished then th.local.(boundId := "") else th.local;
    UpdateStatusKeepsMark(s, tid, local, o, if th.pc == SyncVanished then SyncVanishedHash else Done, Done, r);
  }

  lemma MarkKeepsMark(s: State, tid: nat, o: Outcome)
    requires Marked(s) && tid in s.threads && KnowsMark(s, tid)
    ensures var r := StepMark(s, tid, o); Marked(r) && r.finalizerDeletes == s.finalizerDeletes
  {
    var local := s.threads[tid].local.(adopted := true);
    var r := UpdateObject(s, tid, local, o, BindAdopted, FinalStatus);
    UpdateObjectKeepsMark(s, tid, local, o, BindAdopted, FinalStatus, r);
    var th := r.threads[tid];
    if th.pc == BindAdopted {
      GotoKeepsMark(r, tid, th.(local := th.local.(boundId := th.local.spec.id)));
      assert StepMark(s, tid, o) == Goto(r, tid, th.(local := th.local.(boundId := th.local.spec.id)));
    } else {
      assert StepMark(s, tid, o) == r;
    }
  }

  lemma StartKeepsMark(c: Controller, s: State, tid: nat, o: Outcome, freshId: string, r: State)
    requires Marked(s) && tid in s.threads && KnowsMark(s, tid) && r == StepThread(c, s, tid, o, freshId)
    requires s.threads[tid].pc == Start
    ensures Marked(r) && r.finalizerDeletes == s.finalizerDeletes
  {
    var th := s.threads[tid];
    if !th.local.deleting && !th.local.finalizer {
      UpdateObjectKeepsMark(s, tid, th.local.(finalizer := true), o, ResolveRefs, Done, r);
    } else {
      assert r == Goto(s, tid, th.(pc := r.threads[tid].pc));
      GotoKeepsMark(s, tid, th.(pc := r.threads[tid].pc));
    }
  }

  /** What a step leaves alone that writes nothing to Kubernetes. */
  ghost predicate OnlyMoves(s: State, tid: nat, r: State)
    requires tid in s.threads
  {
    && r.store == s.store && r.finalizerDeletes == s.finalizerDeletes
    && tid in r.threads && r.threads == s.threads[tid := r.threads[tid]] && r.threads[tid].pc != FinalizerDelete
    && r.threads[tid].local == s.threads[tid].local.(boundId := r.threads[tid].local.boundId)
  }

  lemma DecideStep(c: Controller, s: State, tid: nat, o: Outcome, freshId: string, r: State)
    requires tid in s.threads && r == StepThread(c, s, tid, o, freshId)
    requires s.threads[tid].pc in {ResolveRefs, ComparePushed, Rest, Done}
    ensures OnlyMoves(s, tid, r)
  {
    assert s.threads == s.threads[tid := s.threads[tid]];
  }

  /** The steps that write nothing to Kubernetes. */
  lemma CallStep(c: Controller, s: State, tid: nat, o: Outcome, freshId: string, r: State)
    requires tid in s.threads && r == StepThread(c, s, tid, o, freshId)
    requires s.threads[tid].pc !in WRITES && s.threads[tid].pc !in {Start, FinalizerDelete}
    ensures OnlyMoves(s, tid, r)
  {
    if s.threads[tid].pc == Create {
      CreateChanges(c, s, tid, o, freshId);
    } else if s.threads[tid].pc !in CALLS {
      DecideStep(c, s, tid, o, freshId, r);
    }
  }

  /** The steps that write to Kubernetes. */
  lemma WriteKeepsMark(c: Controller, s: State, tid: nat, o: Outcome, freshId: string, r: State)
    requires Marked(s) && tid in s.threads && KnowsMark(s, tid) && r == StepThread(c, s, tid, o, freshId)
    requires s.threads[tid].pc in WRITES
    ensures Marked(r) && r.finalizerDeletes == s.finalizerDeletes
  {
    match s.threads[tid].pc
    case MarkAdopted => MarkKeepsMark(s, tid, o);
    case BindAdopted => BindKeepsMark(c, s, tid, o, freshId, r);
    case BindCreated => BindKeepsMark(c, s, tid, o, freshId, r);
    case FinalStatus => StatusStepKeepsMark(c, s, tid, o, freshId, r);
    case SyncVanished => StatusStepKeepsMark(c, s, tid, o, freshId, r);
    case RecordHash => RecordHashKeepsMark(c, s, tid, o, freshId, r);
    case _ => ObjectStepKeepsMark(c, s, tid, o, freshId, r);
  }

  lemma StepKeepsMark(c: Controller, s: State, tid: nat, o: Outcome, freshId: string, r: State)
    requires Marked(s) && tid in s.threads && KnowsMark(s, tid) && r == StepThread(c, s, tid, o, freshId)
    ensures Marked(r) && r.finalizerDeletes == s.finalizerDeletes
  {
    var pc := s.threads[tid].pc;
    if pc in WRITES {
      WriteKeepsMark(c, s, tid, o, freshId, r);
    } else if pc == Start {
      StartKeepsMark(c, s, tid, o, freshId, r);
    } else {
      CallStep(c, s, tid, o, freshId, r);
      GotoKeepsMark(s, tid, r.threads[tid]);
    }
  }

  lemma ReadKeepsMark(s: State, tid: nat, seen: Cr, at: nat, pc: Pc)
    requires Marked(s) && pc != FinalizerDelete
    ensures Marked(Read(s, tid, seen, at, pc))
  {
    if CanRead(s.store, seen, at) {
      GotoKeepsMark(s, tid, Thread(pc, at, seen));
    }
  }

  lemma ApplyKeepsMark(c: Controller, s: State, a: Action)
    requires Inv(s) && Marked(s)
    ensures Marked(Apply(c, s, a)) && Apply(c, s, a).finalizerDeletes == s.finalizerDeletes
  {
    match a
    case Step(tid, o, freshId) => if tid in s.threads { StepKeepsMark(c, s, tid, o, freshId, Apply(c, s, a)); }
    case EditSpec(spec) => PersistKeepsMark(s, s.store.latest.(spec := spec));
    case RequestDeletion => PersistKeepsMark(s, s.store.latest.(deleting := true));
    case ReadForReconcile(tid, seen, at) => ReadKeepsMark(s, tid, seen, at, Start);
    case ReadForDrift(tid, seen, at) => ReadKeepsMark(s, tid, seen, at, SyncDrift);
    case ReadForVanished(tid, seen, at) => ReadKeepsMark(s, tid, seen, at, SyncVanished);
    case OthersWrite(_, _) =>
    case OthersDelete(_) =>
  }

  /** Whatever happens to a marked CR, its mark stays, and its finalizer deletes nothing. So
      when the adopted object is gone and the operator makes another one, that stays too. */
  lemma {:induction false} MarkIsForGood(c: Controller, s: State, actions: seq<Action>)
    requires Inv(s) && Marked(s)
    ensures var r := Run(c, s, actions);
      Marked(r) && r.finalizerDeletes == s.finalizerDeletes
    decreases |actions|
  {
    if actions != [] {
      ApplyKeepsInv(c, s, actions[0]);
      ApplyKeepsMark(c, s, actions[0]);
      MarkIsForGood(c, Apply(c, s, actions[0]), actions[1..]);
    }
  }

  /** The pass creates the object and records its id. */
  function Made(c: Controller, s: State, tid: nat, freshId: string): State {
    Undisturbed(c, Apply(c, s, Step(tid, Ok, freshId)), tid, 1, "")
  }

  /** An unbound CR whose object is not there gets one made, and is bound to it. */
  lemma ObjectIsMade(c: Controller, s: State, tid: nat, freshId: string)
    requires AboutTo(s, tid, Create)
    requires var cr := s.store.latest;
      var id := NewId(cr.spec, freshId);
      !cr.deleting && id != "" && !Conflicts(c, s.upstream, id, cr.spec.title)
    ensures var cr, r := s.store.latest, Made(c, s, tid, freshId);
      var id := NewId(cr.spec, freshId);
      && r.store.latest == cr.(boundId := id)
      && id in r.upstream && r.known == s.known.(created := s.known.created + {id})
      && r.threads.Keys == s.threads.Keys
  {
    var cr := s.store.latest;
    var s1 := Apply(c, s, Step(tid, Ok, freshId));
    assert s1.threads[tid] == Thread(BindCreated, s.store.rv, cr.(boundId := NewId(cr.spec, freshId)));
    var s2 := Apply(c, s1, Step(tid, Ok, ""));
    assert Undisturbed(c, s1, tid, 1, "") == Undisturbed(c, s2, tid, 0, "");
  }

  /** So what the operator made is deleted with its CR exactly when the CR was not marked
      for an earlier object. `tid` makes the object; then the CR is deleted, and `fin` is the
      finalizer pass. */
  lemma MadeIsDeletedExactlyUnmarked(c: Controller, s: State, tid: nat, fin: nat, freshId: string)
    requires AboutTo(s, tid, Create) && fin !in s.threads
    requires var cr := s.store.latest;
      var id := NewId(cr.spec, freshId);
      !cr.deleting && cr.finalizer && id != "" && !Conflicts(c, s.upstream, id, cr.spec.title)
    ensures
      var asked := Apply(c, Made(c, s, tid, freshId), RequestDeletion);
      var read := Apply(c, asked, ReadForReconcile(fin, asked.store.latest, asked.store.rv));
      var r := Undisturbed(c, read, fin, if s.store.latest.adopted then 2 else 3, "");
      && Gone(r.store.latest)
      && (NewId(s.store.latest.spec, freshId) in r.upstream <==> s.store.latest.adopted)
  {
    ObjectIsMade(c, s, tid, freshId);
    var asked := Apply(c, Made(c, s, tid, freshId), RequestDeletion);
    var read := Apply(c, asked, ReadForReconcile(fin, asked.store.latest, asked.store.rv));
    FinalizerDeletesExactlyUnmarked(c, read, fin);
  }

  /** A 409 that comes only from the email of a different user never starts an
      adoption: the pass goes to its closing status write, still unbound, having
      confirmed and changed nothing. */
  lemma EmailConflictNeverAdopts(s: State, tid: nat)
    requires tid in s.threads
    requires var th := s.threads[tid];
      && th.pc == Create && th.local.boundId == ""
      && th.local.spec.id != "" && th.local.spec.id !in s.upstream
      && th.local.spec.title != "" && th.local.spec.title in s.upstream.Values
    ensures
      var r := Undisturbed(UserController, s, tid, 2, "");
      r == Goto(s, tid, s.threads[tid].(pc := FinalStatus))
  {
    var s1 := Apply(UserController, s, Step(tid, Ok, ""));
    assert Conflicts(UserController, s.upstream, s.threads[tid].local.spec.id, s.threads[tid].local.spec.title);
    assert s1 == Goto(s, tid, s.threads[tid].(pc := ConfirmExisting));
    var s2 := Apply(UserController, s1, Step(tid, Ok, ""));
    assert s2.threads == s.threads[tid := s.threads[tid].(pc := FinalStatus)];
    assert Undisturbed(UserController, s, tid, 2, "") == Undisturbed(UserController, s1, tid, 1, "") ==
           Undisturbed(UserController, s2, tid, 0, "");
  }
}
