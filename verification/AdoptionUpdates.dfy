/** Which LiteLLM objects the team and user controllers update: a team's update names the
    object its CR is bound to, a user's names spec.userId, which an edit may change. */
module AdoptionUpdates {
  import opened Versioned
  import opened Adoption

  /** The ids this CR may touch: those its create calls returned or its GET calls found. */
  ghost predicate Own(k: Known, id: string) {
    id in k.created || id in k.confirmed
  }

  ghost predicate OwnUpdates(s: State) {
    forall id :: id in s.updates ==> Own(s.known, id)
  }

  /** A pass that goes for an existing object has an id to name, and one that updates has one
      to update. */
  predicate TargetOk(th: Thread) {
    && (th.pc in {CheckExisting, ConfirmExisting, UpdateAdopted, MarkAdopted} ==> th.local.spec.id != "")
    && (th.pc in {BindAdopted, ComparePushed, PushUpdate} ==> th.local.boundId != "")
  }

  ghost predicate Targets(s: State) {
    forall t :: t in s.threads ==> TargetOk(s.threads[t])
  }

  /** A version or copy with the spec of the thread's copy or of the latest version. */
  predicate SpecFrom(s: State, tid: nat, v: Cr)
    requires tid in s.threads
  {
    v.spec == s.threads[tid].local.spec || v.spec == s.store.latest.spec
  }

  /** What is known after a step: at most the id the spec names is new. */
  ghost predicate Learns(s: State, tid: nat, r: State)
    requires tid in s.threads
  {
    var id := s.threads[tid].local.spec.id;
    && s.known.created <= r.known.created && s.known.confirmed <= r.known.confirmed <= s.known.confirmed + {id}
    && (id != "" ==> r.known.created <= s.known.created + {id})
  }

  /** What every step does: only its own thread moves, no spec is made up, and what is known
      grows. */
  ghost predicate Moves(s: State, tid: nat, r: State)
    requires tid in s.threads
  {
    && tid in r.threads && r.threads == s.threads[tid := r.threads[tid]]
    && SpecFrom(s, tid, r.threads[tid].local) && SpecFrom(s, tid, r.store.latest)
    && (forall v :: v in r.store.history ==> v in s.store.history || SpecFrom(s, tid, v))
    && Learns(s, tid, r)
  }

  lemma GotoMoves(s: State, tid: nat, th: Thread)
    requires tid in s.threads && SpecFrom(s, tid, th.local)
    ensures Moves(s, tid, Goto(s, tid, th))
  {
  }

  lemma PersistMoves(s: State, tid: nat, next: Cr, th: Thread)
    requires tid in s.threads && SpecFrom(s, tid, th.local) && SpecFrom(s, tid, next)
    ensures Moves(s, tid, Goto(s.(store := Persist(s.store, next)), tid, th))
  {
    var st := Persist(s.store, next);
    assert st.latest == next && st.history <= s.store.history + {next};
  }

  /** A write that lands and is reported, one that lands and is not, and one that fails. */
  lemma CommitForms(s: State, tid: nat, local: Cr, next: Cr, o: Outcome, onOk: Pc, onError: Pc, r: State)
    requires tid in s.threads && r == Commit(s, tid, local, next, o, onOk, onError)
    ensures var landed := s.(store := Persist(s.store, next));
      var error := Thread(onError, s.threads[tid].readAt, local);
      || r == Goto(landed, tid, Thread(onOk, landed.store.rv, next))
      || r == Goto(landed, tid, error)
      || r == Goto(s, tid, error)
  {
  }

  lemma CommitMoves(s: State, tid: nat, local: Cr, next: Cr, o: Outcome, onOk: Pc, onError: Pc, r: State)
    requires tid in s.threads && r == Commit(s, tid, local, next, o, onOk, onError)
    requires SpecFrom(s, tid, local) && SpecFrom(s, tid, next)
    ensures Moves(s, tid, r)
  {
    var landed := s.(store := Persist(s.store, next));
    var error := Thread(onError, s.threads[tid].readAt, local);
    CommitForms(s, tid, local, next, o, onOk, onError, r);
    if r == Goto(s, tid, error) {
      GotoMoves(s, tid, error);
    } else {
      PersistMoves(s, tid, next, r.threads[tid]);
      assert r == Goto(landed, tid, r.threads[tid]);
    }
  }

  lemma CommitThread(s: State, tid: nat, local: Cr, next: Cr, o: Outcome, onOk: Pc, onError: Pc, r: State)
    requires tid in s.threads && r == Commit(s, tid, local, next, o, onOk, onError)
    ensures tid in r.threads && r.updates == s.updates
    ensures var th := r.threads[tid];
      (th.pc == onOk && th.local == next) || (th.pc == onError && th.local == local)
  {
    CommitForms(s, tid, local, next, o, onOk, onError, r);
  }

  lemma StatusTargets(s: State, tid: nat, local: Cr, o: Outcome, onOk: Pc, onError: Pc, r: State)
    requires tid in s.threads && SpecFrom(s, tid, local) && r == UpdateStatus(s, tid, local, o, onOk, onError)
    requires onOk in {RecordHash, Done, SyncVanishedHash} || (onOk == ComparePushed && local.boundId != "")
    requires onError in {FinalStatus, Done}
    ensures Moves(s, tid, r) && r.updates == s.updates && TargetOk(r.threads[tid])
  {
    CommitMoves(s, tid, local, s.store.latest.(boundId := local.boundId), o, onOk, onError, r);
    CommitThread(s, tid, local, s.store.latest.(boundId := local.boundId), o, onOk, onError, r);
  }

  lemma ObjectTargets(s: State, tid: nat, local: Cr, o: Outcome, onOk: Pc, onError: Pc, r: State)
    requires tid in s.threads && SpecFrom(s, tid, local) && r == UpdateObject(s, tid, local, o, onOk, onError)
    requires onOk in {ResolveRefs, Rest, Done} && onError in {FinalStatus, Done}
    ensures Moves(s, tid, r) && r.updates == s.updates && TargetOk(r.threads[tid])
  {
    var latest := s.store.latest;
    CommitMoves(s, tid, local, local.(deleting := latest.deleting, boundId := latest.boundId), o, onOk, onError, r);
    CommitThread(s, tid, local, local.(deleting := latest.deleting, boundId := latest.boundId), o, onOk, onError, r);
  }

  lemma MarkTargets(s: State, tid: nat, o: Outcome)
    requires tid in s.threads && s.threads[tid].local.spec.id != ""
    ensures var r := StepMark(s, tid, o); Moves(s, tid, r) && r.updates == s.updates && TargetOk(r.threads[tid])
  {
    var local, latest := s.threads[tid].local.(adopted := true), s.store.latest;
    var r := UpdateObject(s, tid, local, o, BindAdopted, FinalStatus);
    var next := local.(deleting := latest.deleting, boundId := latest.boundId);
    CommitMoves(s, tid, local, next, o, BindAdopted, FinalStatus, r);
    CommitThread(s, tid, local, next, o, BindAdopted, FinalStatus, r);
  }

  lemma StatusStepTargets(c: Controller, s: State, tid: nat, o: Outcome, freshId: string, r: State)
    requires tid in s.threads && TargetOk(s.threads[tid]) && r == StepThread(c, s, tid, o, freshId)
    requires s.threads[tid].pc in {BindAdopted, BindCreated, FinalStatus, SyncVanished}
    ensures Moves(s, tid, r) && r.updates == s.updates && TargetOk(r.threads[tid])
  {
    var local := s.threads[tid].local;
    match s.threads[tid].pc
    case BindAdopted =>
      StatusTargets(s, tid, local, o, if c == TeamController then ComparePushed else RecordHash, FinalStatus, r);
    case BindCreated => StatusTargets(s, tid, local, o, RecordHash, FinalStatus, r);
    case FinalStatus => StatusTargets(s, tid, local, o, Done, Done, r);
    case SyncVanished => StatusTargets(s, tid, local.(boundId := ""), o, SyncVanishedHash, Done, r);
  }

  lemma ObjectStepTargets(c: Controller, s: State, tid: nat, o: Outcome, freshId: string, r: State)
    requires tid in s.threads && r == StepThread(c, s, tid, o, freshId)
    requires s.threads[tid].pc in {RecordHash, RemoveFinalizer, SyncDrift, SyncVanishedHash}
    ensures Moves(s, tid, r) && r.updates == s.updates && TargetOk(r.threads[tid])
  {
    var local := s.threads[tid].local;
    match s.threads[tid].pc
    case RecordHash => ObjectTargets(s, tid, local.(syncHash := Some(local.spec)), o, Rest, FinalStatus, r);
    case RemoveFinalizer => ObjectTargets(s, tid, local.(finalizer := false), o, Done, Done, r);
    case SyncDrift => ObjectTargets(s, tid, local.(syncHash := None), o, Done, Done, r);
    case SyncVanishedHash => ObjectTargets(s, tid, local.(syncHash := None), o, Done, Done, r);
  }

  /** The steps that write nothing to Kubernetes, other than updates. */
  lemma CallTargets(c: Controller, s: State, tid: nat, o: Outcome, freshId: string, r: State)
    requires tid in s.threads && TargetOk(s.threads[tid]) && r == StepThread(c, s, tid, o, freshId)
    requires s.threads[tid].pc in
      {CheckExisting, ConfirmExisting, FinalizerDelete, ResolveRefs, ComparePushed, Rest, Done}
    ensures Moves(s, tid, r) && r.updates == s.updates && TargetOk(r.threads[tid])
  {
    assert s.threads == s.threads[tid := s.threads[tid]];
  }

  lemma StartTargets(c: Controller, s: State, tid: nat, o: Outcome, freshId: string, r: State)
    requires tid in s.threads && r == StepThread(c, s, tid, o, freshId) && s.threads[tid].pc == Start
    ensures Moves(s, tid, r) && r.updates == s.updates && TargetOk(r.threads[tid])
  {
    var local := s.threads[tid].local;
    if !local.deleting && !local.finalizer {
      ObjectTargets(s, tid, local.(finalizer := true), o, ResolveRefs, Done, r);
    }
  }

  lemma CreateTargets(c: Controller, s: State, tid: nat, o: Outcome, freshId: string)
    requires tid in s.threads
    ensures var r := StepCreate(c, s, tid, o, freshId);
      Moves(s, tid, r) && r.updates == s.updates && TargetOk(r.threads[tid])
  {
  }

  /** The ids a step adds to those updated. */
  function NamedBy(c: Controller, th: Thread): set<string> {
    match th.pc
    case UpdateAdopted => {th.local.spec.id}
    case PushUpdate => {UpdateTarget(c, th.local)}
    case _ => {}
  }

  lemma StepTargets(c: Controller, s: State, tid: nat, o: Outcome, freshId: string, r: State)
    requires tid in s.threads && TargetOk(s.threads[tid]) && r == StepThread(c, s, tid, o, freshId)
    ensures Moves(s, tid, r) && TargetOk(r.threads[tid])
    ensures r.updates == s.updates + NamedBy(c, s.threads[tid])
  {
    match s.threads[tid].pc
    case Start => StartTargets(c, s, tid, o, freshId, r);
    case Create => CreateTargets(c, s, tid, o, freshId);
    case MarkAdopted => MarkTargets(s, tid, o);
    case UpdateAdopted =>
    case PushUpdate =>
    case BindAdopted => StatusStepTargets(c, s, tid, o, freshId, r);
    case BindCreated => StatusStepTargets(c, s, tid, o, freshId, r);
    case FinalStatus => StatusStepTargets(c, s, tid, o, freshId, r);
    case SyncVanished => StatusStepTargets(c, s, tid, o, freshId, r);
    case RecordHash => ObjectStepTargets(c, s, tid, o, freshId, r);
    case RemoveFinalizer => ObjectStepTargets(c, s, tid, o, freshId, r);
    case SyncDrift => ObjectStepTargets(c, s, tid, o, freshId, r);
    case SyncVanishedHash => ObjectStepTargets(c, s, tid, o, freshId, r);
    case _ => CallTargets(c, s, tid, o, freshId, r);
  }

  // ---- Every run ----

  lemma TargetsStay(c: Controller, s: State, a: Action)
    requires Targets(s)
    ensures Targets(Apply(c, s, a))
  {
    if a.Step? && a.tid in s.threads {
      StepTargets(c, s, a.tid, a.outcome, a.freshId, Apply(c, s, a));
    }
  }

  /** What a step must meet for its update call, if it is one, to name one of the CR's own
      objects. */
  ghost predicate NamesOwn(c: Controller, s: State, a: Action) {
    a.Step? && a.tid in s.threads ==> forall id :: id in NamedBy(c, s.threads[a.tid]) ==> Own(s.known, id)
  }

  lemma OwnStays(c: Controller, s: State, a: Action)
    requires Targets(s) && OwnUpdates(s) && NamesOwn(c, s, a)
    ensures OwnUpdates(Apply(c, s, a))
  {
    if a.Step? && a.tid in s.threads {
      StepTargets(c, s, a.tid, a.outcome, a.freshId, Apply(c, s, a));
    }
  }

  lemma PassNamesOwn(c: Controller, k: Known, st: Store<Cr>, th: Thread)
    requires ThreadOk(k, st, th) && TargetOk(th)
    ensures (forall id :: id in NamedBy(c, th) ==> Own(k, id)) <==>
      (c == UserController && th.pc == PushUpdate ==> Own(k, th.local.spec.id))
  {
    match th.pc
    case UpdateAdopted => assert NamedBy(c, th) == {th.local.spec.id};
    case PushUpdate => assert NamedBy(c, th) == {UpdateTarget(c, th.local)};
    case _ => assert NamedBy(c, th) == {};
  }

  /** An adopting update names what was found, and a team's push what the CR is bound to. */
  lemma NamesOwnExactly(c: Controller, s: State, a: Action)
    requires Inv(s) && Targets(s)
    ensures NamesOwn(c, s, a) <==>
      (c == UserController && a.Step? && a.tid in s.threads && s.threads[a.tid].pc == PushUpdate ==>
         Own(s.known, s.threads[a.tid].local.spec.id))
  {
    if a.Step? && a.tid in s.threads {
      PassNamesOwn(c, s.known, s.store, s.threads[a.tid]);
    }
  }

  /** Teams: in every run, each update call names an object that this CR's create calls
      returned or its GET calls found. */
  lemma {:induction false} TeamUpdatesAreOwn(s: State, actions: seq<Action>)
    requires Inv(s) && Targets(s) && OwnUpdates(s)
    ensures OwnUpdates(Run(TeamController, s, actions))
    decreases |actions|
  {
    if actions != [] {
      ApplyKeepsInv(TeamController, s, actions[0]);
      TargetsStay(TeamController, s, actions[0]);
      NamesOwnExactly(TeamController, s, actions[0]);
      OwnStays(TeamController, s, actions[0]);
      TeamUpdatesAreOwn(Apply(TeamController, s, actions[0]), actions[1..]);
    }
  }

  /** A new CR is a state such a run may start from. */
  lemma NewCrIsOwn(s: State)
    requires Init(s)
    ensures Inv(s) && Targets(s) && OwnUpdates(s)
  {
  }

  // ---- Users ----

  /** spec.userId has always been `id`, and nothing else was created or found. */
  ghost predicate Fixed(s: State, id: string) {
    && (forall v :: v in s.store.history ==> v.spec.id == id)
    && s.store.latest.spec.id == id
    && (forall t :: t in s.threads ==> s.threads[t].local.spec.id == id)
    && s.known.created <= {id} && s.known.confirmed <= {id}
  }

  lemma FixedStays(c: Controller, s: State, a: Action, id: string)
    requires Targets(s) && Fixed(s, id) && id != "" && (a.EditSpec? ==> a.spec.id == id)
    ensures Fixed(Apply(c, s, a), id)
  {
    if a.Step? && a.tid in s.threads {
      StepTargets(c, s, a.tid, a.outcome, a.freshId, Apply(c, s, a));
    }
  }

  /** A user's push goes to the bound object exactly when spec.userId still names it. While
      the id has never been edited, it does. */
  lemma FixedPushIsOwn(s: State, a: Action, id: string)
    requires Inv(s) && Targets(s) && Fixed(s, id)
    ensures NamesOwn(UserController, s, a)
  {
    NamesOwnExactly(UserController, s, a);
    if a.Step? && a.tid in s.threads && s.threads[a.tid].pc == PushUpdate {
      assert ThreadOk(s.known, s.store, s.threads[a.tid]) && TargetOk(s.threads[a.tid]);
    }
  }

  /** Users: the same holds in every run that never edits spec.userId. */
  lemma {:induction false} UserUpdatesAreOwn(s: State, actions: seq<Action>, id: string)
    requires Inv(s) && Targets(s) && OwnUpdates(s) && Fixed(s, id) && id != ""
    requires forall i :: 0 <= i < |actions| && actions[i].EditSpec? ==> actions[i].spec.id == id
    ensures OwnUpdates(Run(UserController, s, actions))
    decreases |actions|
  {
    if actions != [] {
      ApplyKeepsInv(UserController, s, actions[0]);
      TargetsStay(UserController, s, actions[0]);
      FixedPushIsOwn(s, actions[0], id);
      OwnStays(UserController, s, actions[0]);
      FixedStays(UserController, s, actions[0], id);
      UserUpdatesAreOwn(Apply(UserController, s, actions[0]), actions[1..], id);
    }
  }

  lemma NewUserIsFixed(s: State)
    requires Init(s)
    ensures Fixed(s, s.store.latest.spec.id)
  {
  }

  /** After an edit of a bound user CR, an undisturbed pass that finds the spec changed
      updates the object the new spec names: the bound one if and only if the id is still
      the bound one, and any other user that has that id otherwise. */
  lemma EditedUserUpdatesExactly(s: State, tid: nat, spec: Spec)
    requires tid !in s.threads && s.store.latest in s.store.history
    requires var cr := s.store.latest;
      !cr.deleting && cr.finalizer && cr.boundId != "" && cr.syncHash != Some(spec)
    ensures var edited := Apply(UserController, s, EditSpec(spec));
      var read := Apply(UserController, edited, ReadForReconcile(tid, edited.store.latest, edited.store.rv));
      var r := Undisturbed(UserController, read, tid, 4, "");
      && r.updates == s.updates + {spec.id} && r.known == s.known
      && r.store.latest == s.store.latest.(spec := spec)
      && r.upstream ==
         (if spec.id in s.upstream && spec.title != "" then s.upstream[spec.id := spec.title] else s.upstream)
  {
    var edited := Apply(UserController, s, EditSpec(spec));
    var cr := edited.store.latest;
    assert cr == s.store.latest.(spec := spec) && CanRead(edited.store, cr, edited.store.rv);
    var go := Step(tid, Ok, "");
    var s0 := Apply(UserController, edited, ReadForReconcile(tid, cr, edited.store.rv));
    var s1 := Apply(UserController, s0, go);
    assert s1.threads[tid] == Thread(ResolveRefs, edited.store.rv, cr) && s1.store == edited.store;
    var s2 := Apply(UserController, s1, go);
    assert s2.threads[tid] == Thread(ComparePushed, edited.store.rv, cr) && s2.store == edited.store;
    var s3 := Apply(UserController, s2, go);
    assert s3.threads[tid] == Thread(PushUpdate, edited.store.rv, cr) && s3.store == edited.store;
    var s4 := Apply(UserController, s3, go);
    assert Undisturbed(UserController, s0, tid, 4, "") == Undisturbed(UserController, s1, tid, 3, "") ==
           Undisturbed(UserController, s2, tid, 2, "") == Undisturbed(UserController, s3, tid, 1, "") ==
           Undisturbed(UserController, s4, tid, 0, "");
  }

  lemma {:induction false} RunAppend(c: Controller, s: State, first: seq<Action>, second: seq<Action>)
    ensures Run(c, s, first + second) == Run(c, Run(c, s, first), second)
    decreases |first|
  {
    if first == [] {
      assert first + second == second;
    } else {
      assert (first + second)[1..] == first[1..] + second;
      RunAppend(c, Apply(c, s, first[0]), first[1..], second);
    }
  }

  lemma RunTwo(c: Controller, s: State, a: Action, b: Action)
    ensures Run(c, s, [a, b]) == Apply(c, Apply(c, s, a), b)
  {
    assert Run(c, s, [a, b]) == Run(c, Apply(c, s, a), [b]) == Run(c, Apply(c, Apply(c, s, a), b), []);
  }

  function Steps(tid: nat, steps: nat): seq<Action> {
    seq(steps, _ => Step(tid, Ok, ""))
  }

  lemma {:induction false} UndisturbedIsARun(c: Controller, s: State, tid: nat, steps: nat)
    ensures Undisturbed(c, s, tid, steps, "") == Run(c, s, Steps(tid, steps))
    decreases steps
  {
    if steps > 0 {
      assert Steps(tid, steps)[1..] == Steps(tid, steps - 1);
      UndisturbedIsARun(c, Apply(c, s, Step(tid, Ok, "")), tid, steps - 1);
    }
  }

  /** The first pass over a new user CR gets to the create call. */
  lemma ReachesCreate(s: State)
    requires Init(s) && !s.store.latest.deleting
    ensures var read := ReadForReconcile(0, s.store.latest, s.store.rv);
      var r := Undisturbed(UserController, Apply(UserController, s, read), 0, 2, "");
      && AboutTo(r, 0, Create) && r.threads.Keys == {0} && r.upstream == s.upstream && r.known == s.known
      && r.store.latest == s.store.latest.(finalizer := true)
  {
    var go := Step(0, Ok, "");
    var s0 := Apply(UserController, s, ReadForReconcile(0, s.store.latest, s.store.rv));
    assert AboutTo(s0, 0, Start);
    var s1 := Apply(UserController, s0, go);
    assert AboutTo(s1, 0, ResolveRefs);
    var s2 := Apply(UserController, s1, go);
    assert Undisturbed(UserController, s0, 0, 2, "") == Undisturbed(UserController, s1, 0, 1, "") ==
           Undisturbed(UserController, s2, 0, 0, "");
  }

  /** A user CR that is bound to what it created, about to be edited. */
  ghost predicate BoundUser(s: State, cr: Cr) {
    && s.store.latest == cr.(finalizer := true, boundId := cr.spec.id) && s.store.latest in s.store.history
    && s.known == Known({cr.spec.id}, {}) && 1 !in s.threads
  }

  lemma FirstPassBinds(s: State) returns (actions: seq<Action>)
    requires Init(s) && !s.store.latest.deleting && s.store.latest.spec.id != ""
    requires !Conflicts(UserController, s.upstream, s.store.latest.spec.id, s.store.latest.spec.title)
    ensures BoundUser(Run(UserController, s, actions), s.store.latest)
  {
    var read := ReadForReconcile(0, s.store.latest, s.store.rv);
    var s0 := Apply(UserController, s, read);
    ReachesCreate(s);
    var s2 := Undisturbed(UserController, s0, 0, 2, "");
    ObjectIsMade(UserController, s2, 0, "");
    UndisturbedIsARun(UserController, s0, 0, 2);
    UndisturbedIsARun(UserController, s2, 0, 2);
    assert Made(UserController, s2, 0, "") == Undisturbed(UserController, s2, 0, 2, "");
    actions := [read] + (Steps(0, 2) + Steps(0, 2));
    RunAppend(UserController, s, [read], Steps(0, 2) + Steps(0, 2));
    assert Run(UserController, s, [read]) == s0;
    RunAppend(UserController, s0, Steps(0, 2), Steps(0, 2));
    NewCrIsOwn(s);
    RunKeepsInv(UserController, s, actions);
  }

  lemma EditGoesElsewhere(s: State, cr: Cr, spec: Spec) returns (actions: seq<Action>)
    requires BoundUser(s, cr) && !cr.deleting && cr.syncHash != Some(spec) && cr.spec.id != "" && spec.id != cr.spec.id
    ensures var r := Run(UserController, s, actions); spec.id in r.updates && !Own(r.known, spec.id)
  {
    EditedUserUpdatesExactly(s, 1, spec);
    var edited := Apply(UserController, s, EditSpec(spec));
    var read := ReadForReconcile(1, edited.store.latest, edited.store.rv);
    RunTwo(UserController, s, EditSpec(spec), read);
    UndisturbedIsARun(UserController, Apply(UserController, edited, read), 1, 4);
    RunAppend(UserController, s, [EditSpec(spec), read], Steps(1, 4));
    actions := [EditSpec(spec), read] + Steps(1, 4);
  }

  /** So an edit of spec.userId after binding does go elsewhere: for every new user CR whose
      user can be created, and every spec with another id, a run without a failure whose last
      pass updates an object that this CR neither created nor found. */
  lemma EditedIdUpdatesAnotherUser(s: State, spec: Spec)
    requires Init(s) && !s.store.latest.deleting && s.store.latest.spec.id != ""
    requires !Conflicts(UserController, s.upstream, s.store.latest.spec.id, s.store.latest.spec.title)
    requires s.store.latest.syncHash != Some(spec) && spec.id != s.store.latest.spec.id
    ensures exists actions :: !OwnUpdates(Run(UserController, s, actions))
  {
    var first := FirstPassBinds(s);
    var second := EditGoesElsewhere(Run(UserController, s, first), s.store.latest, spec);
    RunAppend(UserController, s, first, second);
  }
}
