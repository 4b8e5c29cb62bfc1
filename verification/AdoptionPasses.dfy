/** What a pass of the team or user controller that nothing disturbs comes to: which CRs are
    adopted, which get an object made, and which are pushed to. */
module AdoptionPasses {
  import opened Versioned
  import opened Adoption

  /** What a pass can change: the CR and LiteLLM's objects, and what is known and asked of them. */
  datatype Face = Face(cr: Cr, upstream: map<string, string>, known: Known, updates: set<string>)

  function FaceOf(s: State): Face {
    Face(s.store.latest, s.upstream, s.known, s.updates)
  }

  /** Pass `tid` is up to date and about to take step `pc`; its copy is bound to `id`. */
  predicate At(s: State, tid: nat, pc: Pc, id: string, f: Face) {
    && tid in s.threads && FaceOf(s) == f && !f.cr.deleting
    && s.threads[tid] == Thread(pc, s.store.rv, f.cr.(boundId := id))
  }

  function Once(c: Controller, s: State, tid: nat, freshId: string): State {
    Apply(c, s, Step(tid, Ok, freshId))
  }

  lemma UndisturbedAdds(c: Controller, s: State, tid: nat, m: nat, n: nat, freshId: string)
    ensures Undisturbed(c, Undisturbed(c, s, tid, m, freshId), tid, n, freshId) ==
            Undisturbed(c, s, tid, m + n, freshId)
  {
    RepeatAdds(x => Apply(c, x, Step(tid, Ok, freshId)), s, m, n);
  }

  lemma Twice(c: Controller, s: State, tid: nat, freshId: string)
    ensures Undisturbed(c, s, tid, 1, freshId) == Once(c, s, tid, freshId)
    ensures Undisturbed(c, s, tid, 2, freshId) == Once(c, Once(c, s, tid, freshId), tid, freshId)
  {
    var s1 := Once(c, s, tid, freshId);
    assert Undisturbed(c, s, tid, 2, freshId) == Undisturbed(c, s1, tid, 1, freshId) ==
           Undisturbed(c, Once(c, s1, tid, freshId), tid, 0, freshId);
    assert Undisturbed(c, s, tid, 1, freshId) == Undisturbed(c, s1, tid, 0, freshId);
  }

  // ---- Beginning and end ----

  /** Where a pass goes once its references are resolved. */
  function FirstCall(c: Controller, cr: Cr): Pc {
    if cr.boundId != "" then ComparePushed
    else if c == TeamController && cr.spec.id != "" then CheckExisting
    else Create
  }

  lemma Opens(c: Controller, s: State, tid: nat, f: Face, freshId: string)
    requires At(s, tid, Start, f.cr.boundId, f)
    ensures At(Undisturbed(c, s, tid, 2, freshId), tid, FirstCall(c, f.cr), f.cr.boundId,
               f.(cr := f.cr.(finalizer := true)))
  {
    var s1 := Once(c, s, tid, freshId);
    assert At(s1, tid, ResolveRefs, f.cr.boundId, f.(cr := f.cr.(finalizer := true)));
    Twice(c, s, tid, freshId);
  }

  lemma Ends(c: Controller, s: State, tid: nat, f: Face, freshId: string)
    requires At(s, tid, FinalStatus, f.cr.boundId, f)
    ensures At(Undisturbed(c, s, tid, 1, freshId), tid, Done, f.cr.boundId, f)
  {
    Twice(c, s, tid, freshId);
  }

  lemma Rests(c: Controller, s: State, tid: nat, f: Face, freshId: string)
    requires At(s, tid, Rest, f.cr.boundId, f)
    ensures At(Undisturbed(c, s, tid, 2, freshId), tid, Done, f.cr.boundId, f)
  {
    var s1 := Once(c, s, tid, freshId);
    assert At(s1, tid, FinalStatus, f.cr.boundId, f);
    Twice(c, s, tid, freshId);
  }

  lemma Closes(c: Controller, s: State, tid: nat, f: Face, freshId: string)
    requires At(s, tid, RecordHash, f.cr.boundId, f)
    ensures At(Undisturbed(c, s, tid, 3, freshId), tid, Done, f.cr.boundId,
               f.(cr := f.cr.(syncHash := Some(f.cr.spec))))
  {
    var s1 := Once(c, s, tid, freshId);
    Twice(c, s, tid, freshId);
    Rests(c, s1, tid, f.(cr := f.cr.(syncHash := Some(f.cr.spec))), freshId);
    UndisturbedAdds(c, s, tid, 1, 2, freshId);
  }

  /** A pass that is over stays over. */
  lemma {:induction false} Stays(c: Controller, s: State, tid: nat, n: nat, freshId: string)
    requires tid in s.threads && s.threads[tid].pc == Done
    ensures Undisturbed(c, s, tid, n, freshId) == s
    decreases n
  {
    if n > 0 {
      assert Once(c, s, tid, freshId) == s;
      Stays(c, s, tid, n - 1, freshId);
    }
  }

  // ---- Creating ----

  lemma LooksInVain(s: State, tid: nat, f: Face, freshId: string)
    requires At(s, tid, CheckExisting, f.cr.boundId, f) && f.cr.spec.id !in f.upstream
    ensures At(Undisturbed(TeamController, s, tid, 1, freshId), tid, Create, f.cr.boundId, f)
  {
    Twice(TeamController, s, tid, freshId);
  }

  lemma Creates(c: Controller, s: State, tid: nat, f: Face, freshId: string)
    requires At(s, tid, Create, f.cr.boundId, f)
    requires var id := NewId(f.cr.spec, freshId); id != "" && !Conflicts(c, f.upstream, id, f.cr.spec.title)
    ensures var id := NewId(f.cr.spec, freshId);
      At(Undisturbed(c, s, tid, 2, freshId), tid, RecordHash, id,
         f.(cr := f.cr.(boundId := id), upstream := f.upstream[id := f.cr.spec.title],
            known := f.known.(created := f.known.created + {id})))
  {
    var id := NewId(f.cr.spec, freshId);
    var s1 := Once(c, s, tid, freshId);
    assert At(s1, tid, BindCreated, id, f.(upstream := f.upstream[id := f.cr.spec.title],
                                           known := f.known.(created := f.known.created + {id})));
    Twice(c, s, tid, freshId);
  }

  // ---- Adopting ----

  lemma MarksAndBinds(c: Controller, s: State, tid: nat, f: Face, freshId: string)
    requires At(s, tid, MarkAdopted, f.cr.boundId, f)
    ensures At(Undisturbed(c, s, tid, 2, freshId), tid, if c == TeamController then ComparePushed else RecordHash,
               f.cr.spec.id, f.(cr := f.cr.(adopted := true, boundId := f.cr.spec.id)))
  {
    var s1 := Once(c, s, tid, freshId);
    assert s1 == StepMark(s, tid, Ok);
    assert At(s1, tid, BindAdopted, f.cr.spec.id, f.(cr := f.cr.(adopted := true)));
    Twice(c, s, tid, freshId);
  }

  lemma LooksAndFinds(s: State, tid: nat, f: Face, freshId: string)
    requires At(s, tid, CheckExisting, f.cr.boundId, f) && f.cr.spec.id in f.upstream
    ensures At(Undisturbed(TeamController, s, tid, 1, freshId), tid, MarkAdopted, f.cr.boundId,
               f.(known := f.known.(confirmed := f.known.confirmed + {f.cr.spec.id})))
  {
    Twice(TeamController, s, tid, freshId);
  }

  lemma CreateConflicts(s: State, tid: nat, f: Face, freshId: string)
    requires At(s, tid, Create, f.cr.boundId, f)
    requires f.cr.spec.id != "" && Conflicts(UserController, f.upstream, f.cr.spec.id, f.cr.spec.title)
    ensures At(Undisturbed(UserController, s, tid, 1, freshId), tid, ConfirmExisting, f.cr.boundId, f)
  {
    Twice(UserController, s, tid, freshId);
  }

  lemma ConfirmsNobody(s: State, tid: nat, f: Face, freshId: string)
    requires At(s, tid, ConfirmExisting, f.cr.boundId, f) && f.cr.spec.id !in f.upstream
    ensures At(Undisturbed(UserController, s, tid, 1, freshId), tid, FinalStatus, f.cr.boundId, f)
  {
    Twice(UserController, s, tid, freshId);
  }

  /** LiteLLM's objects after an update of `id`: an empty title is not sent. */
  function Retitled(upstream: map<string, string>, id: string, title: string): map<string, string> {
    if title == "" then upstream else upstream[id := title]
  }

  lemma LooksAndUpdates(s: State, tid: nat, f: Face, freshId: string)
    requires At(s, tid, ConfirmExisting, f.cr.boundId, f) && f.cr.spec.id in f.upstream
    ensures var id := f.cr.spec.id;
      At(Undisturbed(UserController, s, tid, 2, freshId), tid, MarkAdopted, f.cr.boundId,
         f.(upstream := Retitled(f.upstream, id, f.cr.spec.title), updates := f.updates + {id},
            known := f.known.(confirmed := f.known.confirmed + {id})))
  {
    var s1 := Once(UserController, s, tid, freshId);
    assert At(s1, tid, UpdateAdopted, f.cr.boundId,
              f.(known := f.known.(confirmed := f.known.confirmed + {f.cr.spec.id})));
    Twice(UserController, s, tid, freshId);
  }

  // ---- Pushing ----

  lemma FindsCurrent(c: Controller, s: State, tid: nat, f: Face, freshId: string)
    requires At(s, tid, ComparePushed, f.cr.boundId, f) && f.cr.syncHash == Some(f.cr.spec)
    ensures At(Undisturbed(c, s, tid, 1, freshId), tid, Rest, f.cr.boundId, f)
  {
    Twice(c, s, tid, freshId);
  }

  /** The object an update names: a team's is the bound one, a user's that of spec.userId. */
  function Target(c: Controller, cr: Cr): string {
    if c == TeamController then cr.boundId else cr.spec.id
  }

  lemma Pushes(c: Controller, s: State, tid: nat, f: Face, freshId: string)
    requires At(s, tid, ComparePushed, f.cr.boundId, f) && f.cr.syncHash != Some(f.cr.spec)
    ensures var target := Target(c, f.cr);
      At(Undisturbed(c, s, tid, 2, freshId), tid, if target in f.upstream then RecordHash else FinalStatus,
         f.cr.boundId,
         f.(updates := f.updates + {target},
            upstream := if target in f.upstream then Retitled(f.upstream, target, f.cr.spec.title) else f.upstream))
  {
    var s1 := Once(c, s, tid, freshId);
    assert At(s1, tid, PushUpdate, f.cr.boundId, f);
    Twice(c, s, tid, freshId);
  }

  // ---- Whole passes ----

  /** Pass `tid` has just read the latest version of a CR that is not being deleted. */
  predicate Begins(s: State, tid: nat) {
    At(s, tid, Start, s.store.latest.boundId, FaceOf(s))
  }

  /** Once the pass is over it has left this. */
  ghost predicate Leaves(c: Controller, s: State, tid: nat, freshId: string, f: Face) {
    exists n: nat :: At(Undisturbed(c, s, tid, n, freshId), tid, Done, f.cr.boundId, f)
  }

  /** A pass leaves one thing. */
  lemma LeavesOne(c: Controller, s: State, tid: nat, freshId: string, f: Face, g: Face)
    requires Leaves(c, s, tid, freshId, f) && Leaves(c, s, tid, freshId, g)
    ensures f == g
  {
    var m: nat :| At(Undisturbed(c, s, tid, m, freshId), tid, Done, f.cr.boundId, f);
    var n: nat :| At(Undisturbed(c, s, tid, n, freshId), tid, Done, g.cr.boundId, g);
    if m <= n {
      Stays(c, Undisturbed(c, s, tid, m, freshId), tid, n - m, freshId);
      UndisturbedAdds(c, s, tid, m, n - m, freshId);
    } else {
      Stays(c, Undisturbed(c, s, tid, n, freshId), tid, m - n, freshId);
      UndisturbedAdds(c, s, tid, n, m - n, freshId);
    }
  }

  /** What creating the object comes to. */
  function WithNew(f: Face, id: string): Face {
    f.(cr := f.cr.(boundId := id, syncHash := Some(f.cr.spec)), upstream := f.upstream[id := f.cr.spec.title],
       known := f.known.(created := f.known.created + {id}))
  }

  lemma CreatesAndCloses(c: Controller, s: State, tid: nat, f: Face, freshId: string)
    requires At(s, tid, Create, f.cr.boundId, f)
    requires var id := NewId(f.cr.spec, freshId); id != "" && !Conflicts(c, f.upstream, id, f.cr.spec.title)
    ensures var g := WithNew(f, NewId(f.cr.spec, freshId));
      At(Undisturbed(c, s, tid, 5, freshId), tid, Done, g.cr.boundId, g)
  {
    var id := NewId(f.cr.spec, freshId);
    var g := f.(cr := f.cr.(boundId := id), upstream := f.upstream[id := f.cr.spec.title],
                known := f.known.(created := f.known.created + {id}));
    Creates(c, s, tid, f, freshId);
    Closes(c, Undisturbed(c, s, tid, 2, freshId), tid, g, freshId);
    UndisturbedAdds(c, s, tid, 2, 3, freshId);
  }

  lemma CreatesAndRecords(c: Controller, s: State, tid: nat, m: nat, f: Face, freshId: string)
    requires At(Undisturbed(c, s, tid, m, freshId), tid, Create, f.cr.boundId, f)
    requires var id := NewId(f.cr.spec, freshId); id != "" && !Conflicts(c, f.upstream, id, f.cr.spec.title)
    ensures Leaves(c, s, tid, freshId, WithNew(f, NewId(f.cr.spec, freshId)))
  {
    var g := WithNew(f, NewId(f.cr.spec, freshId));
    CreatesAndCloses(c, Undisturbed(c, s, tid, m, freshId), tid, f, freshId);
    UndisturbedAdds(c, s, tid, m, 5, freshId);
  }

  /** A team that is not there is created, after a look. */
  lemma LooksAndCreates(s: State, tid: nat, f: Face, freshId: string)
    requires At(Undisturbed(TeamController, s, tid, 2, freshId), tid, CheckExisting, f.cr.boundId, f)
    requires f.cr.spec.id != "" && !Conflicts(TeamController, f.upstream, f.cr.spec.id, f.cr.spec.title)
    ensures Leaves(TeamController, s, tid, freshId, WithNew(f, f.cr.spec.id))
  {
    LooksInVain(Undisturbed(TeamController, s, tid, 2, freshId), tid, f, freshId);
    UndisturbedAdds(TeamController, s, tid, 2, 1, freshId);
    CreatesAndRecords(TeamController, s, tid, 3, f, freshId);
  }

  /** An unbound CR whose object can be made gets it made under the id of the spec, or one
      LiteLLM picks, with the spec's title; it is bound to it and recorded, and not marked. */
  lemma NewObjectIsMade(c: Controller, s: State, tid: nat, freshId: string)
    requires Begins(s, tid) && s.store.latest.boundId == "" && NewId(s.store.latest.spec, freshId) != ""
    requires !Conflicts(c, s.upstream, NewId(s.store.latest.spec, freshId), s.store.latest.spec.title)
    ensures var cr, f := s.store.latest, FaceOf(s);
      var id := NewId(cr.spec, freshId);
      Leaves(c, s, tid, freshId,
             f.(cr := cr.(finalizer := true, boundId := id, syncHash := Some(cr.spec)),
                upstream := f.upstream[id := cr.spec.title],
                known := f.known.(created := f.known.created + {id})))
  {
    var f := FaceOf(s).(cr := s.store.latest.(finalizer := true));
    Opens(c, s, tid, FaceOf(s), freshId);
    if FirstCall(c, s.store.latest) == CheckExisting {
      LooksAndCreates(s, tid, f, freshId);
    } else {
      CreatesAndRecords(c, s, tid, 2, f, freshId);
    }
  }

  lemma ConflictIsConfirmed(s: State, tid: nat, f: Face, freshId: string)
    requires At(Undisturbed(UserController, s, tid, 2, freshId), tid, Create, "", f) && f.cr.boundId == ""
    requires f.cr.spec.id != "" && Conflicts(UserController, f.upstream, f.cr.spec.id, f.cr.spec.title)
    ensures At(Undisturbed(UserController, s, tid, 3, freshId), tid, ConfirmExisting, "", f)
  {
    CreateConflicts(Undisturbed(UserController, s, tid, 2, freshId), tid, f, freshId);
    UndisturbedAdds(UserController, s, tid, 2, 1, freshId);
  }

  /** An unbound user CR whose spec.userId exists is bound to that user, marked and recorded,
      and the user gets the spec's email; nothing is created. */
  lemma ExistingUserIsAdopted(s: State, tid: nat, freshId: string)
    requires Begins(s, tid) && s.store.latest.boundId == ""
    requires s.store.latest.spec.id != "" && s.store.latest.spec.id in s.upstream
    ensures var cr, f := s.store.latest, FaceOf(s);
      var id := cr.spec.id;
      Leaves(UserController, s, tid, freshId,
             f.(cr := cr.(finalizer := true, adopted := true, boundId := id, syncHash := Some(cr.spec)),
                upstream := Retitled(f.upstream, id, cr.spec.title), updates := f.updates + {id},
                known := f.known.(confirmed := f.known.confirmed + {id})))
  {
    var c, cr, f := UserController, s.store.latest, FaceOf(s);
    var id := cr.spec.id;
    var f2 := f.(cr := cr.(finalizer := true));
    Opens(c, s, tid, f, freshId);
    ConflictIsConfirmed(s, tid, f2, freshId);
    LooksAndUpdates(Undisturbed(c, s, tid, 3, freshId), tid, f2, freshId);
    UndisturbedAdds(c, s, tid, 3, 2, freshId);
    var f5 := f2.(upstream := Retitled(f.upstream, id, cr.spec.title), updates := f.updates + {id},
                  known := f.known.(confirmed := f.known.confirmed + {id}));
    MarksAndBinds(c, Undisturbed(c, s, tid, 5, freshId), tid, f5, freshId);
    UndisturbedAdds(c, s, tid, 5, 2, freshId);
    Closes(c, Undisturbed(c, s, tid, 7, freshId), tid, f5.(cr := f5.cr.(adopted := true, boundId := id)), freshId);
    UndisturbedAdds(c, s, tid, 7, 3, freshId);
  }

  /** A 409 adopts exactly when the user of that id exists: any other leaves the CR unbound and
      unmarked, and LiteLLM as it was. */
  lemma ConflictAdoptsExactly(s: State, tid: nat, freshId: string, f: Face)
    requires Begins(s, tid) && s.store.latest.boundId == "" && s.store.latest.spec.id != ""
    requires Conflicts(UserController, s.upstream, s.store.latest.spec.id, s.store.latest.spec.title)
    requires Leaves(UserController, s, tid, freshId, f)
    ensures f.cr.boundId == s.store.latest.spec.id && f.cr.adopted <==> s.store.latest.spec.id in s.upstream
    ensures s.store.latest.spec.id !in s.upstream ==> f == FaceOf(s).(cr := s.store.latest.(finalizer := true))
  {
    var c, cr := UserController, s.store.latest;
    if cr.spec.id in s.upstream {
      ExistingUserIsAdopted(s, tid, freshId);
      var bound := cr.(finalizer := true, adopted := true, boundId := cr.spec.id, syncHash := Some(cr.spec));
      var g := FaceOf(s).(cr := bound,
                          upstream := Retitled(s.upstream, cr.spec.id, cr.spec.title),
                          updates := s.updates + {cr.spec.id},
                          known := s.known.(confirmed := s.known.confirmed + {cr.spec.id}));
      LeavesOne(c, s, tid, freshId, f, g);
    } else {
      var g := FaceOf(s).(cr := cr.(finalizer := true));
      Opens(c, s, tid, FaceOf(s), freshId);
      ConflictIsConfirmed(s, tid, g, freshId);
      ConfirmsNobody(Undisturbed(c, s, tid, 3, freshId), tid, g, freshId);
      UndisturbedAdds(c, s, tid, 3, 1, freshId);
      Ends(c, Undisturbed(c, s, tid, 4, freshId), tid, g, freshId);
      UndisturbedAdds(c, s, tid, 4, 1, freshId);
      LeavesOne(c, s, tid, freshId, f, g);
    }
  }

  lemma KeepsCurrent(c: Controller, s: State, tid: nat, m: nat, f: Face, freshId: string)
    requires At(Undisturbed(c, s, tid, m, freshId), tid, ComparePushed, f.cr.boundId, f)
    requires f.cr.syncHash == Some(f.cr.spec)
    ensures Leaves(c, s, tid, freshId, f)
  {
    FindsCurrent(c, Undisturbed(c, s, tid, m, freshId), tid, f, freshId);
    UndisturbedAdds(c, s, tid, m, 1, freshId);
    Rests(c, Undisturbed(c, s, tid, m + 1, freshId), tid, f, freshId);
    UndisturbedAdds(c, s, tid, m + 1, 2, freshId);
  }

  /** What a push that lands comes to. */
  function WithPush(f: Face, target: string): Face {
    f.(cr := f.cr.(syncHash := Some(f.cr.spec)), updates := f.updates + {target},
       upstream := Retitled(f.upstream, target, f.cr.spec.title))
  }

  lemma PushesAndCloses(c: Controller, s: State, tid: nat, f: Face, freshId: string)
    requires At(s, tid, ComparePushed, f.cr.boundId, f)
    requires f.cr.syncHash != Some(f.cr.spec) && Target(c, f.cr) in f.upstream
    ensures At(Undisturbed(c, s, tid, 5, freshId), tid, Done, f.cr.boundId, WithPush(f, Target(c, f.cr)))
  {
    var g := f.(updates := f.updates + {Target(c, f.cr)},
                upstream := Retitled(f.upstream, Target(c, f.cr), f.cr.spec.title));
    Pushes(c, s, tid, f, freshId);
    Closes(c, Undisturbed(c, s, tid, 2, freshId), tid, g, freshId);
    UndisturbedAdds(c, s, tid, 2, 3, freshId);
  }

  lemma PushesAndRecords(c: Controller, s: State, tid: nat, m: nat, f: Face, freshId: string)
    requires At(Undisturbed(c, s, tid, m, freshId), tid, ComparePushed, f.cr.boundId, f)
    requires f.cr.syncHash != Some(f.cr.spec) && Target(c, f.cr) in f.upstream
    ensures Leaves(c, s, tid, freshId, WithPush(f, Target(c, f.cr)))
  {
    PushesAndCloses(c, Undisturbed(c, s, tid, m, freshId), tid, f, freshId);
    UndisturbedAdds(c, s, tid, m, 5, freshId);
  }

  lemma PushesInVain(c: Controller, s: State, tid: nat, m: nat, f: Face, freshId: string)
    requires At(Undisturbed(c, s, tid, m, freshId), tid, ComparePushed, f.cr.boundId, f)
    requires f.cr.syncHash != Some(f.cr.spec) && Target(c, f.cr) !in f.upstream
    ensures Leaves(c, s, tid, freshId, f.(updates := f.updates + {Target(c, f.cr)}))
  {
    var g := f.(updates := f.updates + {Target(c, f.cr)});
    Pushes(c, Undisturbed(c, s, tid, m, freshId), tid, f, freshId);
    UndisturbedAdds(c, s, tid, m, 2, freshId);
    Ends(c, Undisturbed(c, s, tid, m + 2, freshId), tid, g, freshId);
    UndisturbedAdds(c, s, tid, m + 2, 1, freshId);
  }

  /** A bound CR, whatever it is bound to: recorded as it is, nothing happens; otherwise the
      object the update names gets the spec's title and the CR is recorded, or, if there is no
      such object, nothing changes. */
  lemma BoundObjectIsPushed(c: Controller, s: State, tid: nat, freshId: string)
    requires Begins(s, tid) && s.store.latest.boundId != ""
    ensures var cr, target := s.store.latest, Target(c, s.store.latest);
      var f := FaceOf(s).(cr := cr.(finalizer := true));
      Leaves(c, s, tid, freshId,
             if cr.syncHash == Some(cr.spec) then f
             else if target !in f.upstream then f.(updates := f.updates + {target})
             else f.(cr := f.cr.(syncHash := Some(cr.spec)), updates := f.updates + {target},
                     upstream := Retitled(f.upstream, target, cr.spec.title)))
  {
    var f := FaceOf(s).(cr := s.store.latest.(finalizer := true));
    Opens(c, s, tid, FaceOf(s), freshId);
    if f.cr.syncHash == Some(f.cr.spec) {
      KeepsCurrent(c, s, tid, 2, f, freshId);
    } else if Target(c, f.cr) in f.upstream {
      PushesAndRecords(c, s, tid, 2, f, freshId);
    } else {
      PushesInVain(c, s, tid, 2, f, freshId);
    }
  }

  /** An unbound team CR whose spec.teamId exists is bound to that team, marked and recorded,
      and the team gets the spec's alias unless the CR says it has it. */
  lemma ExistingTeamIsAdopted(s: State, tid: nat, freshId: string)
    requires Begins(s, tid) && s.store.latest.boundId == ""
    requires s.store.latest.spec.id != "" && s.store.latest.spec.id in s.upstream
    ensures var cr, f := s.store.latest, FaceOf(s);
      var id := cr.spec.id;
      var g := f.(cr := cr.(finalizer := true, adopted := true, boundId := id, syncHash := Some(cr.spec)),
                  known := f.known.(confirmed := f.known.confirmed + {id}));
      Leaves(TeamController, s, tid, freshId,
             if cr.syncHash == Some(cr.spec) then g
             else g.(updates := f.updates + {id}, upstream := Retitled(f.upstream, id, cr.spec.title)))
  {
    var c, cr, f := TeamController, s.store.latest, FaceOf(s);
    var id := cr.spec.id;
    var f2 := f.(cr := cr.(finalizer := true));
    Opens(c, s, tid, f, freshId);
    var s2 := Undisturbed(c, s, tid, 2, freshId);
    var f3 := f2.(known := f.known.(confirmed := f.known.confirmed + {id}));
    LooksAndFinds(s2, tid, f2, freshId);
    UndisturbedAdds(c, s, tid, 2, 1, freshId);
    MarksAndBinds(c, Undisturbed(c, s, tid, 3, freshId), tid, f3, freshId);
    UndisturbedAdds(c, s, tid, 3, 2, freshId);
    var f5 := f3.(cr := f3.cr.(adopted := true, boundId := id));
    if cr.syncHash == Some(cr.spec) {
      KeepsCurrent(c, s, tid, 5, f5, freshId);
    } else {
      PushesAndRecords(c, s, tid, 5, f5, freshId);
    }
  }

  // ---- Calls that fail ----

  /** A call that fails ends the pass, and nothing has changed; an update was asked for. */
  lemma FailedCallChangesNothing(c: Controller, s: State, tid: nat, pc: Pc, f: Face, freshId: string)
    requires At(s, tid, pc, f.cr.boundId, f)
    requires pc in {ResolveRefs, CheckExisting, Create, ConfirmExisting, UpdateAdopted, PushUpdate}
    ensures var failed := Apply(c, s, Step(tid, Fail, freshId));
      var asked := if pc == UpdateAdopted then {f.cr.spec.id} else if pc == PushUpdate then {Target(c, f.cr)} else {};
      Leaves(c, failed, tid, freshId, f.(updates := f.updates + asked))
  {
    var failed := Apply(c, s, Step(tid, Fail, freshId));
    var asked := if pc == UpdateAdopted then {f.cr.spec.id} else if pc == PushUpdate then {Target(c, f.cr)} else {};
    assert At(failed, tid, FinalStatus, f.cr.boundId, f.(updates := f.updates + asked));
    Ends(c, failed, tid, f.(updates := f.updates + asked), freshId);
  }

  /** A reconcile begins by reading, perhaps the latest version. */
  lemma ReadBegins(c: Controller, s: State, tid: nat)
    requires tid !in s.threads && s.store.latest in s.store.history && !s.store.latest.deleting
    ensures var r := Apply(c, s, ReadForReconcile(tid, s.store.latest, s.store.rv));
      Begins(r, tid) && FaceOf(r) == FaceOf(s)
  {
  }

  // ---- Config sync ----

  /** Config sync drops the hash of a CR that drifted and nothing else. */
  lemma DriftDropsTheHash(c: Controller, s: State, tid: nat)
    requires tid !in s.threads && s.store.latest in s.store.history && !Gone(s.store.latest)
    ensures var read := Apply(c, s, ReadForDrift(tid, s.store.latest, s.store.rv));
      FaceOf(Once(c, read, tid, "")) == FaceOf(s).(cr := s.store.latest.(syncHash := None))
  {
    var read := Apply(c, s, ReadForDrift(tid, s.store.latest, s.store.rv));
    assert AboutTo(read, tid, SyncDrift);
  }

  /** It unbinds a CR whose object vanished and drops its hash; the mark stays. */
  lemma VanishedIsUnbound(c: Controller, s: State, tid: nat)
    requires tid !in s.threads && s.store.latest in s.store.history && !Gone(s.store.latest)
    ensures var read := Apply(c, s, ReadForVanished(tid, s.store.latest, s.store.rv));
      FaceOf(Once(c, Once(c, read, tid, ""), tid, "")) ==
        FaceOf(s).(cr := s.store.latest.(boundId := "", syncHash := None))
  {
    var read := Apply(c, s, ReadForVanished(tid, s.store.latest, s.store.rv));
    assert AboutTo(read, tid, SyncVanished);
    assert AboutTo(Once(c, read, tid, ""), tid, SyncVanishedHash);
  }
}
