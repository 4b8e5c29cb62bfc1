/** How the LiteLLMModel controller keeps a model's provider fields clean when a CR
    switches between inline auth and a named credential.

    LiteLLM's /model/update merges: a field left empty in the request keeps its old
    value. So a switch of mode deletes and recreates the model. The id and the auth-mode
    annotation that guard this are two writes. A pass is a thread over its calls, as in
    Adoption; any number of passes may overlap and read stale versions. */
module ModelAuth {
  import opened Versioned

  datatype Mode = Inline | Credential

  /** The provider fields of litellm_params; "" is an omitted field. */
  datatype Fields = Fields(
    credentialName: string,
    apiBase: string,
    apiVersion: string,
    apiKey: string,
    vertexCredentials: string)

  /** One create or update request, as far as provider auth goes. */
  datatype Push = Push(mode: Mode, fields: Fields)

  /** `mode` is Credential exactly when spec.litellmParams.credentialRef is set. */
  datatype Spec = Spec(mode: Mode, payload: string)

  /** One persisted version. The sync hash covers the spec and the resolved fields, and
      stands for them (hashes are collision-free). `modelId` is status.litellmModelId. */
  datatype Model = Model(spec: Spec, syncHash: Option<(Spec, Fields)>, authMode: Option<Mode>, modelId: string)

  datatype Pc =
    | Start              // the CR has been read; resolve the instance and the secrets
    | Decide             // the four-way switch
    | Create             // POST /model/new
    | DeleteOld          // POST /model/delete for a switch of mode
    | Recreate           // POST /model/new after it
    | ClearStale         // status: forget the id of the deleted model
    | Update             // POST /model/update
    | RecordStatus       // status: the model id
    | RecordAnnotations  // then the sync hash and the auth mode
    | CloseOk            // the closing status write of a successful pass
    | CloseFailed        // and of a failed one
    | Succeeded
    | GaveUp
    | SyncDrift          // config sync: drop the sync hash
    | SyncVanished       // config sync: clear the id

  /** `fields` are the provider fields this pass resolved. */
  datatype Thread = Thread(pc: Pc, readAt: nat, local: Model, fields: Fields)

  /** `upstream` keeps the pushes each live LiteLLM record has received, `issued` the
      mode every model id was created with. */
  datatype State = State(
    store: Store<Model>,
    upstream: map<string, seq<Push>>,
    issued: map<string, Mode>,
    threads: map<nat, Thread>)

  datatype Action =
    | ReadForReconcile(tid: nat, seen: Model, at: nat)
    | ReadForDrift(tid: nat, seen: Model, at: nat)
    | ReadForVanished(tid: nat, seen: Model, at: nat)
    | Step(tid: nat, outcome: Outcome, freshId: string, fields: Fields)
    | EditSpec(spec: Spec)
    | OthersDelete(id: string)

  /** What resolving a mode yields: a credential has a name and brings no vertex
      credentials; inline auth never sets a credential name. */
  predicate Fits(mode: Mode, f: Fields) {
    match mode
    case Credential => f.credentialName != "" && f.vertexCredentials == ""
    case Inline => f.credentialName == ""
  }

  function MergeField(was: string, pushed: string): string {
    if pushed != "" then pushed else was
  }

  /** /model/update. */
  function Merge(was: Fields, pushed: Fields): Fields {
    Fields(MergeField(was.credentialName, pushed.credentialName),
           MergeField(was.apiBase, pushed.apiBase),
           MergeField(was.apiVersion, pushed.apiVersion),
           MergeField(was.apiKey, pushed.apiKey),
           MergeField(was.vertexCredentials, pushed.vertexCredentials))
  }

  /** The provider fields of a record that received `pushes` since its creation. */
  function Record(pushes: seq<Push>): Fields {
    if pushes == [] then Fields("", "", "", "", "")
    else Merge(Record(pushes[..|pushes| - 1]), pushes[|pushes| - 1].fields)
  }

  ghost predicate Init(s: State) {
    && s.store.history == {s.store.latest}
    && s.store.latest.modelId == "" && s.store.latest.authMode == None
    && s.threads == map[] && s.upstream == map[] && s.issued == map[]
  }

  function Goto(s: State, tid: nat, th: Thread): State {
    s.(threads := s.threads[tid := th])
  }

  function Commit(s: State, tid: nat, next: Model, o: Outcome, onOk: Pc, onError: Pc): State
    requires tid in s.threads
  {
    var th := s.threads[tid];
    if o != Fail && th.readAt == s.store.rv then
      var st := Persist(s.store, next);
      Goto(s.(store := st), tid,
           if o == Ok then th.(pc := onOk, readAt := st.rv, local := next) else th.(pc := onError))
    else
      Goto(s, tid, th.(pc := onError))
  }

  function UpdateStatus(s: State, tid: nat, o: Outcome, onOk: Pc, onError: Pc): State
    requires tid in s.threads
  {
    Commit(s, tid, s.store.latest.(modelId := s.threads[tid].local.modelId), o, onOk, onError)
  }

  function UpdateObject(s: State, tid: nat, local: Model, o: Outcome, onOk: Pc, onError: Pc): State
    requires tid in s.threads
  {
    Commit(s, tid, local.(modelId := s.store.latest.modelId), o, onOk, onError)
  }

  /** The four-way switch of reconcileModel. */
  function Route(local: Model, fields: Fields): Pc {
    var mode := local.spec.mode;
    if local.modelId == "" then Create
    else if local.syncHash == Some((local.spec, fields)) && local.authMode == Some(mode) then CloseOk
    else if local.authMode != None && local.authMode != Some(mode) then DeleteOld
    else Update
  }

  /** LiteLLM has made a record under a new id. */
  function Issue(s: State, id: string, push: Push): State {
    s.(upstream := s.upstream[id := [push]], issued := s.issued[id := push.mode])
  }

  /** Create or recreate: LiteLLM answers with an id it never issued before. */
  function StepCreate(s: State, tid: nat, o: Outcome, freshId: string, onError: Pc): State
    requires tid in s.threads
  {
    var th := s.threads[tid];
    if o == Fail || freshId == "" || freshId in s.issued then
      Goto(s, tid, th.(pc := onError))
    else
      Goto(Issue(s, freshId, Push(th.local.spec.mode, th.fields)), tid,
           if o == Lost then th.(pc := onError)
           else th.(pc := RecordStatus, local := th.local.(modelId := freshId)))
  }

  function StepThread(s: State, tid: nat, o: Outcome, freshId: string, fields: Fields): State
    requires tid in s.threads
  {
    var th := s.threads[tid];
    var local := th.local;
    var mode := local.spec.mode;
    match th.pc
    case Start =>
      Goto(s, tid, if o == Ok && Fits(mode, fields) then th.(pc := Decide, fields := fields)
                   else th.(pc := CloseFailed))
    case Decide => Goto(s, tid, th.(pc := Route(local, th.fields)))
    case Create => StepCreate(s, tid, o, freshId, CloseFailed)
    case DeleteOld =>
      if o == Fail || local.modelId !in s.upstream then
        Goto(s, tid, th.(pc := CloseFailed))
      else
        Goto(s.(upstream := s.upstream - {local.modelId}), tid,
             th.(pc := if o == Ok then Recreate else CloseFailed))
    case Recreate => StepCreate(s, tid, o, freshId, ClearStale)
    case ClearStale =>
      UpdateStatus(Goto(s, tid, th.(local := local.(modelId := ""))), tid, o, CloseFailed, CloseFailed)
    case Update =>
      if o == Fail || local.modelId !in s.upstream then
        Goto(s, tid, th.(pc := CloseFailed))
      else
        Goto(s.(upstream := s.upstream[local.modelId := s.upstream[local.modelId] + [Push(mode, th.fields)]]), tid,
             th.(pc := if o == Ok then RecordStatus else CloseFailed))
    case RecordStatus => UpdateStatus(s, tid, o, RecordAnnotations, CloseFailed)
    case RecordAnnotations =>
      UpdateObject(s, tid, local.(syncHash := Some((local.spec, th.fields)), authMode := Some(mode)),
                   o, CloseOk, CloseFailed)
    case CloseOk => UpdateStatus(s, tid, o, Succeeded, Succeeded)
    case CloseFailed => UpdateStatus(s, tid, o, GaveUp, GaveUp)
    case SyncDrift => UpdateObject(s, tid, local.(syncHash := None), o, GaveUp, GaveUp)
    case SyncVanished =>
      UpdateStatus(Goto(s, tid, th.(local := local.(modelId := ""))), tid, o, SyncDrift, GaveUp)
    case Succeeded => s
    case GaveUp => s
  }

  function Read(s: State, tid: nat, seen: Model, at: nat, pc: Pc): State {
    if tid !in s.threads && CanRead(s.store, seen, at)
    then Goto(s, tid, Thread(pc, at, seen, Fields("", "", "", "", ""))) else s
  }

  function Apply(s: State, a: Action): State {
    match a
    case ReadForReconcile(tid, seen, at) => Read(s, tid, seen, at, Start)
    case ReadForDrift(tid, seen, at) => Read(s, tid, seen, at, SyncDrift)
    case ReadForVanished(tid, seen, at) => Read(s, tid, seen, at, SyncVanished)
    case Step(tid, o, freshId, fields) => if tid in s.threads then StepThread(s, tid, o, freshId, fields) else s
    case EditSpec(spec) => s.(store := Persist(s.store, s.store.latest.(spec := spec)))
    case OthersDelete(id) => s.(upstream := s.upstream - {id})
  }

  function Run(s: State, actions: seq<Action>): State
    decreases |actions|
  {
    if actions == [] then s else Run(Apply(s, actions[0]), actions[1..])
  }

  /** The last sync record is complete: the annotation names the mode the recorded model
      was created with. Between the two writes of a sync record, and after a second
      write that failed, it is not. */
  predicate Complete(s: State) {
    var m := s.store.latest;
    m.modelId == "" || (m.modelId in s.issued && m.authMode == Some(s.issued[m.modelId]))
  }

  /** Every edit of the run that switches the mode finds the sync record complete. */
  ghost predicate SwitchesWhenComplete(s: State, actions: seq<Action>)
    decreases |actions|
  {
    actions == [] ||
    (&& (actions[0].EditSpec? && actions[0].spec.mode != s.store.latest.spec.mode ==> Complete(s))
     && SwitchesWhenComplete(Apply(s, actions[0]), actions[1..]))
  }

  /** All pushes a record received were made in `mode`. */
  predicate Pure(pushes: seq<Push>, mode: Mode) {
    pushes != [] && forall i :: 0 <= i < |pushes| ==> pushes[i].mode == mode && Fits(mode, pushes[i].fields)
  }

  ghost predicate VersionOk(issued: map<string, Mode>, m: Model) {
    m.modelId != "" ==>
      && m.modelId in issued
      && (m.spec.mode == issued[m.modelId] || m.authMode == Some(issued[m.modelId]))
  }

  /** The pass may push to, or record, a model of its own mode. */
  ghost predicate OwnModel(issued: map<string, Mode>, m: Model) {
    m.modelId in issued && issued[m.modelId] == m.spec.mode
  }

  ghost predicate ThreadOk(issued: map<string, Mode>, st: Store<Model>, th: Thread) {
    && th.readAt <= st.rv
    && VersionOk(issued, th.local)
    && (th.pc in {Decide, Create, DeleteOld, Recreate, Update, RecordStatus, RecordAnnotations} ==>
          Fits(th.local.spec.mode, th.fields))
    && (th.pc in {Update, RecordStatus, RecordAnnotations, CloseOk, Succeeded} ==> OwnModel(issued, th.local))
    && (th.readAt == st.rv && th.pc != Succeeded && th.pc != GaveUp ==>
          && th.local.spec == st.latest.spec
          && th.local.authMode == st.latest.authMode
          && (th.pc == RecordAnnotations ==> th.local.modelId == st.latest.modelId))
  }

  ghost predicate Inv(s: State) {
    && s.store.latest in s.store.history
    && (forall m :: m in s.store.history ==> VersionOk(s.issued, m))
    && (forall t :: t in s.threads ==> ThreadOk(s.issued, s.store, s.threads[t]))
    && (forall id :: id in s.upstream ==> id in s.issued && Pure(s.upstream[id], s.issued[id]))
  }

  lemma GotoKeepsInv(s: State, tid: nat, th: Thread)
    requires Inv(s) && ThreadOk(s.issued, s.store, th)
    ensures Inv(Goto(s, tid, th))
  {
  }

  lemma PersistKeepsInv(s: State, next: Model)
    requires Inv(s) && VersionOk(s.issued, next)
    ensures Inv(s.(store := Persist(s.store, next)))
  {
  }

  lemma CommitKeepsInv(s: State, tid: nat, next: Model, o: Outcome, onOk: Pc, onError: Pc)
    requires Inv(s) && tid in s.threads
    requires var th := s.threads[tid];
      && ThreadOk(s.issued, s.store, th.(pc := onError))
      && (th.readAt == s.store.rv ==>
            VersionOk(s.issued, next) &&
            ThreadOk(s.issued, Persist(s.store, next),
                     th.(pc := onOk, readAt := Persist(s.store, next).rv, local := next)))
    requires onError in {CloseFailed, Succeeded, GaveUp}
    ensures Inv(Commit(s, tid, next, o, onOk, onError))
  {
    var th := s.threads[tid];
    if o != Fail && th.readAt == s.store.rv {
      PersistKeepsInv(s, next);
      var s' := s.(store := Persist(s.store, next));
      GotoKeepsInv(s', tid, if o == Ok then th.(pc := onOk, readAt := s'.store.rv, local := next)
                            else th.(pc := onError));
    } else {
      GotoKeepsInv(s, tid, th.(pc := onError));
    }
  }

  lemma IssueKeepsThread(s: State, id: string, mode: Mode, th: Thread)
    requires ThreadOk(s.issued, s.store, th) && id !in s.issued
    ensures ThreadOk(s.issued[id := mode], s.store, th)
  {
  }

  lemma IssueKeepsInv(s: State, id: string, push: Push)
    requires Inv(s) && id !in s.issued && Fits(push.mode, push.fields)
    ensures Inv(Issue(s, id, push))
  {
    var s' := Issue(s, id, push);
    forall t | t in s.threads
      ensures ThreadOk(s'.issued, s.store, s.threads[t])
    {
      IssueKeepsThread(s, id, push.mode, s.threads[t]);
    }
  }

  lemma CreateKeepsInv(s: State, tid: nat, o: Outcome, freshId: string, onError: Pc)
    requires Inv(s) && tid in s.threads && s.threads[tid].pc in {Create, Recreate}
    requires onError in {CloseFailed, ClearStale}
    ensures Inv(StepCreate(s, tid, o, freshId, onError))
  {
    var th, r := s.threads[tid], StepCreate(s, tid, o, freshId, onError);
    if o == Fail || freshId == "" || freshId in s.issued {
      GotoKeepsInv(s, tid, th.(pc := onError));
      assert r == Goto(s, tid, th.(pc := onError));
    } else {
      var s' := Issue(s, freshId, Push(th.local.spec.mode, th.fields));
      var next := if o == Lost then th.(pc := onError)
                  else th.(pc := RecordStatus, local := th.local.(modelId := freshId));
      IssueKeepsInv(s, freshId, Push(th.local.spec.mode, th.fields));
      GotoKeepsInv(s', tid, next);
      assert r == Goto(s', tid, next);
    }
  }

  /** Routing sends an update only to a model of the pass's own mode. */
  lemma RouteIsOwn(issued: map<string, Mode>, local: Model, fields: Fields)
    requires VersionOk(issued, local)
    ensures Route(local, fields) in {Update, CloseOk} ==> OwnModel(issued, local)
  {
  }

  lemma CallKeepsInv(s: State, tid: nat, o: Outcome, fields: Fields)
    requires Inv(s) && tid in s.threads && s.threads[tid].pc in {Start, Decide, DeleteOld, Update}
    ensures Inv(StepThread(s, tid, o, "", fields))
  {
    var th := s.threads[tid];
    var id := th.local.modelId;
    match th.pc
    case Start =>
      GotoKeepsInv(s, tid, if o == Ok && Fits(th.local.spec.mode, fields) then th.(pc := Decide, fields := fields)
                           else th.(pc := CloseFailed));
    case Decide =>
      RouteIsOwn(s.issued, th.local, th.fields);
      GotoKeepsInv(s, tid, th.(pc := Route(th.local, th.fields)));
    case DeleteOld =>
      var s' := if o == Fail || id !in s.upstream then s else s.(upstream := s.upstream - {id});
      assert Inv(s');
      GotoKeepsInv(s', tid, StepThread(s, tid, o, "", fields).threads[tid]);
    case Update =>
      var s' := if o == Fail || id !in s.upstream then s
                else s.(upstream := s.upstream[id := s.upstream[id] + [Push(th.local.spec.mode, th.fields)]]);
      assert Inv(s');
      GotoKeepsInv(s', tid, StepThread(s, tid, o, "", fields).threads[tid]);
  }

  lemma StatusStepKeepsInv(s: State, tid: nat, o: Outcome)
    requires Inv(s) && tid in s.threads
    requires s.threads[tid].pc in {RecordStatus, CloseOk, CloseFailed}
    ensures Inv(StepThread(s, tid, o, "", s.threads[tid].fields))
  {
    var withStatus := s.store.latest.(modelId := s.threads[tid].local.modelId);
    match s.threads[tid].pc
    case RecordStatus => CommitKeepsInv(s, tid, withStatus, o, RecordAnnotations, CloseFailed);
    case CloseOk => CommitKeepsInv(s, tid, withStatus, o, Succeeded, Succeeded);
    case CloseFailed => CommitKeepsInv(s, tid, withStatus, o, GaveUp, GaveUp);
  }

  lemma ObjectStepKeepsInv(s: State, tid: nat, o: Outcome)
    requires Inv(s) && tid in s.threads && s.threads[tid].pc in {RecordAnnotations, SyncDrift}
    ensures Inv(StepThread(s, tid, o, "", s.threads[tid].fields))
  {
    var th := s.threads[tid];
    var local := th.local.(modelId := s.store.latest.modelId);
    match th.pc
    case RecordAnnotations =>
      CommitKeepsInv(s, tid, local.(syncHash := Some((local.spec, th.fields)), authMode := Some(local.spec.mode)),
                     o, CloseOk, CloseFailed);
    case SyncDrift => CommitKeepsInv(s, tid, local.(syncHash := None), o, GaveUp, GaveUp);
  }

  /** Forgetting the id, whether after a failed recreate or in config sync. */
  lemma ForgetKeepsInv(s: State, tid: nat, o: Outcome, onOk: Pc, onError: Pc)
    requires Inv(s) && tid in s.threads && s.threads[tid].pc in {ClearStale, SyncVanished}
    requires onOk in {CloseFailed, SyncDrift} && onError in {CloseFailed, GaveUp}
    ensures var th := s.threads[tid];
      Inv(UpdateStatus(Goto(s, tid, th.(local := th.local.(modelId := ""))), tid, o, onOk, onError))
  {
    var th := s.threads[tid].(local := s.threads[tid].local.(modelId := ""));
    GotoKeepsInv(s, tid, th);
    var s' := Goto(s, tid, th);
    CommitKeepsInv(s', tid, s.store.latest.(modelId := ""), o, onOk, onError);
    assert UpdateStatus(s', tid, o, onOk, onError) == Commit(s', tid, s.store.latest.(modelId := ""), o, onOk, onError);
  }

  lemma StepKeepsInv(s: State, tid: nat, o: Outcome, freshId: string, fields: Fields)
    requires Inv(s) && tid in s.threads
    ensures Inv(StepThread(s, tid, o, freshId, fields))
  {
    match s.threads[tid].pc
    case Start => CallKeepsInv(s, tid, o, fields);
    case Decide => CallKeepsInv(s, tid, o, fields);
    case DeleteOld => CallKeepsInv(s, tid, o, fields);
    case Update => CallKeepsInv(s, tid, o, fields);
    case Create => CreateKeepsInv(s, tid, o, freshId, CloseFailed);
    case Recreate => CreateKeepsInv(s, tid, o, freshId, ClearStale);
    case ClearStale => ForgetKeepsInv(s, tid, o, CloseFailed, CloseFailed);
    case SyncVanished => ForgetKeepsInv(s, tid, o, SyncDrift, GaveUp);
    case Succeeded =>
    case GaveUp =>
    case RecordAnnotations => ObjectStepKeepsInv(s, tid, o);
    case SyncDrift => ObjectStepKeepsInv(s, tid, o);
    case _ => StatusStepKeepsInv(s, tid, o);
  }

  lemma ReadKeepsInv(s: State, tid: nat, seen: Model, at: nat, pc: Pc)
    requires Inv(s) && pc in {Start, SyncDrift, SyncVanished}
    ensures Inv(Read(s, tid, seen, at, pc))
  {
    if CanRead(s.store, seen, at) {
      GotoKeepsInv(s, tid, Thread(pc, at, seen, Fields("", "", "", "", "")));
    }
  }

  lemma ApplyKeepsInv(s: State, a: Action)
    requires Inv(s)
    requires a.EditSpec? && a.spec.mode != s.store.latest.spec.mode ==> Complete(s)
    ensures Inv(Apply(s, a))
  {
    match a
    case ReadForReconcile(tid, seen, at) => ReadKeepsInv(s, tid, seen, at, Start);
    case ReadForDrift(tid, seen, at) => ReadKeepsInv(s, tid, seen, at, SyncDrift);
    case ReadForVanished(tid, seen, at) => ReadKeepsInv(s, tid, seen, at, SyncVanished);
    case Step(tid, o, freshId, fields) => if tid in s.threads { StepKeepsInv(s, tid, o, freshId, fields); }
    case EditSpec(spec) => PersistKeepsInv(s, s.store.latest.(spec := spec));
    case OthersDelete(id) =>
  }

  lemma {:induction false} RunKeepsInv(s: State, actions: seq<Action>)
    requires Inv(s) && SwitchesWhenComplete(s, actions)
    ensures Inv(Run(s, actions))
    decreases |actions|
  {
    if actions != [] {
      ApplyKeepsInv(s, actions[0]);
      RunKeepsInv(Apply(s, actions[0]), actions[1..]);
    }
  }

  /** Merging pushes of one mode leaves a record of that mode: a credential name exactly
      in credential mode, and no vertex credentials there. */
  lemma {:induction false} PureRecord(pushes: seq<Push>, mode: Mode)
    requires Pure(pushes, mode)
    ensures Record(pushes).credentialName != "" <==> mode == Credential
    ensures mode == Credential ==> Record(pushes).vertexCredentials == ""
    decreases |pushes|
  {
    var before := pushes[..|pushes| - 1];
    if before != [] {
      PureRecord(before, mode);
    }
  }

  /** The last of some values that is not empty. */
  function LastSet(values: seq<string>): string {
    if values == [] then ""
    else if values[|values| - 1] != "" then values[|values| - 1]
    else LastSet(values[..|values| - 1])
  }

  function Sent(pushes: seq<Push>, field: Fields -> string): seq<string> {
    seq(|pushes|, i requires 0 <= i < |pushes| => field(pushes[i].fields))
  }

  lemma LastSetSnoc(pushes: seq<Push>, field: Fields -> string)
    requires pushes != []
    ensures var n := |pushes| - 1;
      LastSet(Sent(pushes, field)) == MergeField(LastSet(Sent(pushes[..n], field)), field(pushes[n].fields))
  {
    var n := |pushes| - 1;
    assert Sent(pushes, field)[..n] == Sent(pushes[..n], field);
  }

  /** What updates make of a record: each field is the last one sent that was not empty, so no
      push can clear one. */
  lemma {:induction false} RecordKeepsLastSet(pushes: seq<Push>)
    ensures Record(pushes) == Fields(LastSet(Sent(pushes, (f: Fields) => f.credentialName)),
                                     LastSet(Sent(pushes, (f: Fields) => f.apiBase)),
                                     LastSet(Sent(pushes, (f: Fields) => f.apiVersion)),
                                     LastSet(Sent(pushes, (f: Fields) => f.apiKey)),
                                     LastSet(Sent(pushes, (f: Fields) => f.vertexCredentials)))
    decreases |pushes|
  {
    if pushes != [] {
      RecordKeepsLastSet(pushes[..|pushes| - 1]);
      LastSetSnoc(pushes, (f: Fields) => f.credentialName);
      LastSetSnoc(pushes, (f: Fields) => f.apiBase);
      LastSetSnoc(pushes, (f: Fields) => f.apiVersion);
      LastSetSnoc(pushes, (f: Fields) => f.apiKey);
      LastSetSnoc(pushes, (f: Fields) => f.vertexCredentials);
    }
  }

  /** Auth-mode cleanliness. In every run whose mode switches find the sync record
      complete, with any calls failing and any reads stale, every model a successful
      pass leaves behind has received pushes of that pass's mode only since it was
      created, so it names a credential exactly in credential mode. */
  lemma SuccessLeavesACleanRecord(s: State, actions: seq<Action>, tid: nat)
    requires Init(s) && SwitchesWhenComplete(s, actions)
    requires var r := Run(s, actions); tid in r.threads && r.threads[tid].pc == Succeeded
    ensures
      var r := Run(s, actions);
      var m := r.threads[tid].local;
      m.modelId in r.upstream ==>
        && Pure(r.upstream[m.modelId], m.spec.mode)
        && (Record(r.upstream[m.modelId]).credentialName != "" <==> m.spec.mode == Credential)
        && (m.spec.mode == Credential ==> Record(r.upstream[m.modelId]).vertexCredentials == "")
  {
    RunKeepsInv(s, actions);
    var r := Run(s, actions);
    var m := r.threads[tid].local;
    assert ThreadOk(r.issued, r.store, r.threads[tid]);
    if m.modelId in r.upstream {
      PureRecord(r.upstream[m.modelId], m.spec.mode);
    }
  }

  /** The two writes of a sync record do come apart: once the id of a created or
      recreated model is recorded and the annotation is not, the record is incomplete. */
  lemma HalfARecordIsIncomplete(s: State, tid: nat, freshId: string, fields: Fields)
    requires Inv(s) && tid in s.threads
    requires var th := s.threads[tid];
      && th.pc == RecordStatus && th.readAt == s.store.rv
      && th.local.modelId != "" && th.local.authMode != Some(th.local.spec.mode)
    ensures !Complete(Apply(s, Step(tid, Ok, freshId, fields)))
  {
    assert ThreadOk(s.issued, s.store, s.threads[tid]);
  }

  /** The pass `tid` takes `steps` undisturbed steps, resolving `fields`. */
  function Undisturbed(s: State, tid: nat, steps: nat, fields: Fields): State
    decreases steps
  {
    if steps == 0 then s else Undisturbed(Apply(s, Step(tid, Ok, "", fields)), tid, steps - 1, fields)
  }

  /** Recording the push changes nothing upstream. */
  lemma DirtyRecord(s: State, tid: nat, fields: Fields)
    requires tid in s.threads && s.threads[tid] == Thread(RecordStatus, s.store.rv, s.store.latest, fields)
    ensures var r := Undisturbed(s, tid, 3, fields);
      && r.upstream == s.upstream
      && tid in r.threads && r.threads[tid].pc == Succeeded
      && r.threads[tid].local.spec == s.store.latest.spec && r.threads[tid].local.modelId == s.store.latest.modelId
  {
    var go := Step(tid, Ok, "", fields);
    var s1 := Apply(s, go);
    assert s1.threads[tid] == Thread(RecordAnnotations, s1.store.rv, s.store.latest, fields) && s1.store == s.store;
    var s2 := Apply(s1, go);
    assert s2.threads[tid].pc == CloseOk && s2.threads[tid].local == s2.store.latest;
    var s3 := Apply(s2, go);
    assert Undisturbed(s, tid, 3, fields) == Undisturbed(s1, tid, 2, fields) == Undisturbed(s2, tid, 1, fields) ==
           Undisturbed(s3, tid, 0, fields);
  }

  lemma DirtyPass(s: State, tid: nat, fields: Fields)
    requires tid in s.threads
    requires s.threads[tid].pc == Start && s.threads[tid].readAt == s.store.rv && s.threads[tid].local == s.store.latest
    requires var m := s.store.latest;
      && m.modelId != "" && m.modelId in s.upstream && s.upstream[m.modelId] != []
      && s.upstream[m.modelId][0].mode != m.spec.mode
      && (m.authMode == None || m.authMode == Some(m.spec.mode))
      && Fits(m.spec.mode, fields)
    ensures
      var m := s.store.latest;
      var inSync := m.syncHash == Some((m.spec, fields)) && m.authMode == Some(m.spec.mode);
      var r := Undisturbed(s, tid, if inSync then 3 else 6, fields);
      && tid in r.threads && r.threads[tid].pc == Succeeded
      && r.threads[tid].local.spec == m.spec && r.threads[tid].local.modelId == m.modelId
      && m.modelId in r.upstream && !Pure(r.upstream[m.modelId], m.spec.mode)
  {
    var m := s.store.latest;
    var go := Step(tid, Ok, "", fields);
    var s1 := Apply(s, go);
    assert s1 == Goto(s, tid, Thread(Decide, s.store.rv, m, fields));
    var s2 := Apply(s1, go);
    assert s2.store == s.store && s2.upstream == s.upstream;
    assert s2.threads[tid] == Thread(Route(m, fields), s.store.rv, m, fields);
    var s3 := Apply(s2, go);
    assert Undisturbed(s, tid, 3, fields) == Undisturbed(s2, tid, 1, fields) == Undisturbed(s3, tid, 0, fields);
    if Route(m, fields) == Update {
      var dirty := s.upstream[m.modelId] + [Push(m.spec.mode, fields)];
      assert s3.upstream[m.modelId] == dirty && dirty[0].mode != m.spec.mode;
      assert s3.threads[tid] == Thread(RecordStatus, s.store.rv, m, fields);
      DirtyRecord(s3, tid, fields);
      assert Undisturbed(s, tid, 6, fields) == Undisturbed(s2, tid, 4, fields) == Undisturbed(s3, tid, 3, fields);
    } else {
      assert s2.upstream[m.modelId][0].mode != m.spec.mode;
    }
  }

  /** The condition is exact. Whenever the sync record is incomplete, any switch of mode
      followed by an undisturbed pass ends in success on a record that is not of the
      pass's mode. */
  lemma IncompleteSwitchLeavesADirtyRecord(s: State, spec: Spec, tid: nat, fields: Fields)
    requires Inv(s) && !Complete(s) && s.store.latest.modelId in s.upstream
    requires spec.mode != s.store.latest.spec.mode && Fits(spec.mode, fields)
    requires tid !in s.threads
    ensures
      var s0 := Apply(s, EditSpec(spec));
      var s1 := Apply(s0, ReadForReconcile(tid, s0.store.latest, s0.store.rv));
      var inSync := s1.store.latest.syncHash == Some((spec, fields)) && s1.store.latest.authMode == Some(spec.mode);
      var r := Undisturbed(s1, tid, if inSync then 3 else 6, fields);
      && tid in r.threads && r.threads[tid].pc == Succeeded
      && r.threads[tid].local.spec == spec
      && r.threads[tid].local.modelId in r.upstream
      && !Pure(r.upstream[r.threads[tid].local.modelId], spec.mode)
  {
    var s0 := Apply(s, EditSpec(spec));
    var m := s0.store.latest;
    assert VersionOk(s.issued, s.store.latest);
    assert Pure(s.upstream[m.modelId], s.issued[m.modelId]) && s.issued[m.modelId] != spec.mode;
    assert s.upstream[m.modelId][0].mode != spec.mode;
    assert CanRead(s0.store, m, s0.store.rv) && m.modelId != "";
    var s1 := Apply(s0, ReadForReconcile(tid, m, s0.store.rv));
    assert s1 == Goto(s0, tid, Thread(Start, s0.store.rv, m, Fields("", "", "", "", "")));
    match m.authMode { case None => case Some(Inline) => case Some(Credential) => }
    DirtyPass(s1, tid, fields);
  }

  // ---- The condition, as a user can see it ----

  /** A record that names the spec's mode is complete. */
  lemma RecordedModeIsComplete(s: State)
    requires Inv(s)
    requires var m := s.store.latest; m.modelId == "" || m.authMode == Some(m.spec.mode)
    ensures Complete(s)
  {
    assert VersionOk(s.issued, s.store.latest);
  }

  /** Every edit of the run that switches the mode finds no model, or the annotation naming
      the mode it switches from. */
  ghost predicate SwitchesWhenRecorded(s: State, actions: seq<Action>)
    decreases |actions|
  {
    var m := s.store.latest;
    actions == [] ||
    (&& (actions[0].EditSpec? && actions[0].spec.mode != m.spec.mode ==>
           m.modelId == "" || m.authMode == Some(m.spec.mode))
     && SwitchesWhenRecorded(Apply(s, actions[0]), actions[1..]))
  }

  /** So the promise holds for every user who waits for the annotation before a switch. */
  lemma {:induction false} RecordedSwitchesAreComplete(s: State, actions: seq<Action>)
    requires Inv(s) && SwitchesWhenRecorded(s, actions)
    ensures SwitchesWhenComplete(s, actions)
    decreases |actions|
  {
    if actions != [] {
      var a, m := actions[0], s.store.latest;
      if a.EditSpec? && a.spec.mode != m.spec.mode {
        RecordedModeIsComplete(s);
      }
      ApplyKeepsInv(s, a);
      RecordedSwitchesAreComplete(Apply(s, a), actions[1..]);
    }
  }

  // ---- And a run that does not meet it ----

  lemma {:induction false} RunAppend(s: State, first: seq<Action>, second: seq<Action>)
    ensures Run(s, first + second) == Run(Run(s, first), second)
    decreases |first|
  {
    if first == [] {
      assert first + second == second;
    } else {
      assert (first + second)[1..] == first[1..] + second;
      RunAppend(Apply(s, first[0]), first[1..], second);
    }
  }

  function Steps(tid: nat, steps: nat, fields: Fields): seq<Action> {
    seq(steps, _ => Step(tid, Ok, "", fields))
  }

  lemma {:induction false} UndisturbedIsARun(s: State, tid: nat, steps: nat, fields: Fields)
    ensures Undisturbed(s, tid, steps, fields) == Run(s, Steps(tid, steps, fields))
    decreases steps
  {
    if steps > 0 {
      assert Steps(tid, steps, fields)[1..] == Steps(tid, steps - 1, fields);
      UndisturbedIsARun(Apply(s, Step(tid, Ok, "", fields)), tid, steps - 1, fields);
    }
  }

  lemma RunFour(s: State, a1: Action, s1: State, a2: Action, s2: State, a3: Action, s3: State, a4: Action, s4: State)
    requires s1 == Apply(s, a1) && s2 == Apply(s1, a2) && s3 == Apply(s2, a3) && s4 == Apply(s3, a4)
    ensures Run(s, [a1, a2, a3, a4]) == s4
  {
    assert Run(s, [a1, a2, a3, a4]) == Run(s1, [a2, a3, a4]) == Run(s2, [a3, a4]) == Run(s3, [a4]) == Run(s4, []);
  }

  lemma RunTwo(s: State, a1: Action, s1: State, a2: Action, s2: State)
    requires s1 == Apply(s, a1) && s2 == Apply(s1, a2)
    ensures Run(s, [a1, a2]) == s2
  {
    assert Run(s, [a1, a2]) == Run(s1, [a2]) == Run(s2, []);
  }

  lemma FirstPassDecides(s: State, id: string, fields: Fields)
    requires Init(s) && Fits(s.store.latest.spec.mode, fields)
    ensures
      var m, go := s.store.latest, Step(0, Ok, id, fields);
      var r := Apply(Apply(Apply(s, ReadForReconcile(0, m, s.store.rv)), go), go);
      && r == Goto(s, 0, Thread(Create, s.store.rv, m, fields)) && Inv(r)
  {
    var m, go := s.store.latest, Step(0, Ok, id, fields);
    var s1 := Apply(s, ReadForReconcile(0, m, s.store.rv));
    assert s1 == Goto(s, 0, Thread(Start, s.store.rv, m, Fields("", "", "", "", "")));
    var s2 := Apply(s1, go);
    assert s2.threads == map[0 := Thread(Decide, s.store.rv, m, fields)];
    var s3 := Apply(s2, go);
    assert s3.threads == map[0 := Thread(Create, s.store.rv, m, fields)];
  }

  /** A pass has created model `id` and is about to record it. */
  ghost predicate HasCreated(s: State, m: Model, id: string, fields: Fields) {
    && Inv(s) && s.store.latest == m && s.threads.Keys == {0}
    && s.threads[0] == Thread(RecordStatus, s.store.rv, m.(modelId := id), fields)
    && id in s.upstream
  }

  lemma FirstPassCreates(s: State, id: string, fields: Fields) returns (actions: seq<Action>)
    requires Init(s) && id != "" && Fits(s.store.latest.spec.mode, fields)
    ensures HasCreated(Run(s, actions), s.store.latest, id, fields)
  {
    var read, go := ReadForReconcile(0, s.store.latest, s.store.rv), Step(0, Ok, id, fields);
    FirstPassDecides(s, id, fields);
    var s1 := Apply(s, read);
    var s2 := Apply(s1, go);
    var s3 := Apply(s2, go);
    ApplyKeepsInv(s3, go);
    actions := [read, go, go, go];
    RunFour(s, read, s1, go, s2, go, s3, go, Apply(s3, go));
  }

  /** The id of a live model is recorded and its mode is not; nobody is thread 1 yet. */
  ghost predicate Halfway(s: State, spec: Spec) {
    && Inv(s) && !Complete(s) && s.store.latest.modelId in s.upstream
    && s.store.latest.spec == spec && 1 !in s.threads
  }

  lemma RecordingCanEndHalfway(s: State, m: Model, id: string, fields: Fields) returns (actions: seq<Action>)
    requires HasCreated(s, m, id, fields) && id != "" && m.authMode == None
    ensures Halfway(Run(s, actions), m.spec)
  {
    var go, failing := Step(0, Ok, id, fields), Step(0, Fail, id, fields);
    HalfARecordIsIncomplete(s, 0, id, fields);
    var s1 := Apply(s, go);
    ApplyKeepsInv(s, go);
    assert s1.store.latest == m.(modelId := id) && s1.threads[0].pc == RecordAnnotations;
    var s2 := Apply(s1, failing);
    ApplyKeepsInv(s1, failing);
    assert s2.store == s1.store;
    actions := [go, failing];
    RunTwo(s, go, s1, failing, s2);
  }

  /** Every new CR can come to an incomplete record: its first pass creates the model and
      records its id, and the write of the annotations fails. */
  lemma FirstPassCanEndHalfway(s: State, id: string, fields: Fields)
    requires Init(s) && id != "" && Fits(s.store.latest.spec.mode, fields)
    ensures exists actions :: Halfway(Run(s, actions), s.store.latest.spec)
  {
    var first := FirstPassCreates(s, id, fields);
    var second := RecordingCanEndHalfway(Run(s, first), s.store.latest, id, fields);
    RunAppend(s, first, second);
  }

  /** Pass `tid` succeeded on a record that is not of its mode. */
  ghost predicate SucceededDirty(s: State, tid: nat, spec: Spec) {
    && tid in s.threads && s.threads[tid].pc == Succeeded && s.threads[tid].local.spec == spec
    && s.threads[tid].local.modelId in s.upstream
    && !Pure(s.upstream[s.threads[tid].local.modelId], spec.mode)
  }

  lemma DirtyRun(s: State, spec: Spec, fields: Fields) returns (actions: seq<Action>)
    requires Halfway(s, s.store.latest.spec)
    requires spec.mode != s.store.latest.spec.mode && Fits(spec.mode, fields)
    ensures SucceededDirty(Run(s, actions), 1, spec)
  {
    IncompleteSwitchLeavesADirtyRecord(s, spec, 1, fields);
    var s1 := Apply(s, EditSpec(spec));
    var read := ReadForReconcile(1, s1.store.latest, s1.store.rv);
    var s2 := Apply(s1, read);
    var m := s2.store.latest;
    var steps := if m.syncHash == Some((spec, fields)) && m.authMode == Some(spec.mode) then 3 else 6;
    UndisturbedIsARun(s2, 1, steps, fields);
    RunTwo(s, EditSpec(spec), s1, read, s2);
    RunAppend(s, [EditSpec(spec), read], Steps(1, steps, fields));
    actions := [EditSpec(spec), read] + Steps(1, steps, fields);
  }

  /** From there a switch of mode goes wrong: for every new CR, all provider fields and every
      switch, some run has its last pass succeed on a record that is not of its mode. */
  lemma SwitchCanSucceedOnADirtyRecord(s: State, id: string, fields: Fields, spec: Spec, fields': Fields)
    requires Init(s) && id != "" && Fits(s.store.latest.spec.mode, fields)
    requires spec.mode != s.store.latest.spec.mode && Fits(spec.mode, fields')
    ensures exists actions :: SucceededDirty(Run(s, actions), 1, spec)
  {
    FirstPassCanEndHalfway(s, id, fields);
    var half :| Halfway(Run(s, half), s.store.latest.spec);
    var rest := DirtyRun(Run(s, half), spec, fields');
    RunAppend(s, half, rest);
  }
}
