/** What a pass of the model controller that nothing disturbs comes to, for every state of its
    CR: a model created, left alone, recreated or updated, and the record of it. */
module ModelPasses {
  import opened Versioned
  import opened ModelAuth

  /** What a pass can change. */
  datatype Face = Face(cr: Model, upstream: map<string, seq<Push>>, issued: map<string, Mode>)

  function FaceOf(s: State): Face {
    Face(s.store.latest, s.upstream, s.issued)
  }

  /** Pass `tid` has resolved `fields`, is up to date but for the model id `id`, and about to take
      step `pc`. */
  predicate At(s: State, tid: nat, pc: Pc, id: string, fields: Fields, f: Face) {
    tid in s.threads && FaceOf(s) == f && s.threads[tid] == Thread(pc, s.store.rv, f.cr.(modelId := id), fields)
  }

  function Once(s: State, tid: nat, freshId: string, fields: Fields): State {
    Apply(s, Step(tid, Ok, freshId, fields))
  }

  /** The pass takes `n` undisturbed steps; LiteLLM answers a create with `freshId`. */
  function Steps(s: State, tid: nat, freshId: string, fields: Fields, n: nat): State {
    Repeat(x => Once(x, tid, freshId, fields), s, n)
  }

  lemma StepsAdd(s: State, tid: nat, freshId: string, fields: Fields, m: nat, n: nat)
    ensures Steps(Steps(s, tid, freshId, fields, m), tid, freshId, fields, n) == Steps(s, tid, freshId, fields, m + n)
  {
    RepeatAdds(x => Once(x, tid, freshId, fields), s, m, n);
  }

  lemma Twice(s: State, tid: nat, freshId: string, fields: Fields)
    ensures Steps(s, tid, freshId, fields, 1) == Once(s, tid, freshId, fields)
    ensures Steps(s, tid, freshId, fields, 2) == Once(Once(s, tid, freshId, fields), tid, freshId, fields)
  {
    var s1 := Once(s, tid, freshId, fields);
    assert Steps(s, tid, freshId, fields, 1) == Steps(s1, tid, freshId, fields, 0);
    assert Steps(s, tid, freshId, fields, 2) == Steps(s1, tid, freshId, fields, 1) ==
           Steps(Once(s1, tid, freshId, fields), tid, freshId, fields, 0);
  }

  // ---- Parts of a pass ----

  /** The pass has just read the latest version. */
  predicate Begins(s: State, tid: nat) {
    tid in s.threads && s.threads[tid].pc == Start && s.threads[tid].readAt == s.store.rv &&
    s.threads[tid].local == s.store.latest
  }

  /** What the model's record and annotations ask for. */
  function Due(cr: Model, fields: Fields): Pc {
    if cr.modelId == "" then Create
    else if cr.authMode.None? then Update
    else if cr.authMode.value != cr.spec.mode then DeleteOld
    else if cr.syncHash == Some((cr.spec, fields)) then CloseOk
    else Update
  }

  lemma Opens(s: State, tid: nat, freshId: string, fields: Fields)
    requires Begins(s, tid) && Fits(s.store.latest.spec.mode, fields)
    ensures At(Steps(s, tid, freshId, fields, 2), tid, Due(s.store.latest, fields), s.store.latest.modelId, fields,
               FaceOf(s))
  {
    var s1 := Once(s, tid, freshId, fields);
    assert At(s1, tid, Decide, s.store.latest.modelId, fields, FaceOf(s));
    Twice(s, tid, freshId, fields);
  }

  lemma Closes(s: State, tid: nat, pc: Pc, f: Face, freshId: string, fields: Fields)
    requires At(s, tid, pc, f.cr.modelId, fields, f) && pc in {CloseOk, CloseFailed}
    ensures At(Steps(s, tid, freshId, fields, 1), tid, if pc == CloseOk then Succeeded else GaveUp,
               f.cr.modelId, fields, f)
  {
    Twice(s, tid, freshId, fields);
  }

  /** Recording: the id first, then hash and mode. */
  lemma Records(s: State, tid: nat, id: string, f: Face, freshId: string, fields: Fields)
    requires At(s, tid, RecordStatus, id, fields, f)
    ensures var m := f.cr.(modelId := id, syncHash := Some((f.cr.spec, fields)), authMode := Some(f.cr.spec.mode));
      At(Steps(s, tid, freshId, fields, 2), tid, CloseOk, id, fields, f.(cr := m))
  {
    var s1 := Once(s, tid, freshId, fields);
    assert At(s1, tid, RecordAnnotations, id, fields, f.(cr := f.cr.(modelId := id)));
    Twice(s, tid, freshId, fields);
  }

  lemma RecordsAndCloses(s: State, tid: nat, id: string, f: Face, freshId: string, fields: Fields)
    requires At(s, tid, RecordStatus, id, fields, f)
    ensures var m := f.cr.(modelId := id, syncHash := Some((f.cr.spec, fields)), authMode := Some(f.cr.spec.mode));
      At(Steps(s, tid, freshId, fields, 3), tid, Succeeded, id, fields, f.(cr := m))
  {
    var m := f.cr.(modelId := id, syncHash := Some((f.cr.spec, fields)), authMode := Some(f.cr.spec.mode));
    Records(s, tid, id, f, freshId, fields);
    Closes(Steps(s, tid, freshId, fields, 2), tid, CloseOk, f.(cr := m), freshId, fields);
    StepsAdd(s, tid, freshId, fields, 2, 1);
  }

  /** LiteLLM's records with one new one. */
  function WithNew(f: Face, id: string, push: Push): Face {
    f.(upstream := f.upstream[id := [push]], issued := f.issued[id := push.mode])
  }

  lemma Creates(s: State, tid: nat, pc: Pc, f: Face, freshId: string, fields: Fields)
    requires At(s, tid, pc, f.cr.modelId, fields, f) && pc in {Create, Recreate}
    requires freshId != "" && freshId !in f.issued
    ensures At(Steps(s, tid, freshId, fields, 1), tid, RecordStatus, freshId, fields,
               WithNew(f, freshId, Push(f.cr.spec.mode, fields)))
  {
    Twice(s, tid, freshId, fields);
  }

  lemma Deletes(s: State, tid: nat, f: Face, freshId: string, fields: Fields)
    requires At(s, tid, DeleteOld, f.cr.modelId, fields, f)
    ensures if f.cr.modelId in f.upstream
      then At(Steps(s, tid, freshId, fields, 1), tid, Recreate, f.cr.modelId, fields,
              f.(upstream := f.upstream - {f.cr.modelId}))
      else At(Steps(s, tid, freshId, fields, 1), tid, CloseFailed, f.cr.modelId, fields, f)
  {
    Twice(s, tid, freshId, fields);
  }

  lemma Updates(s: State, tid: nat, f: Face, freshId: string, fields: Fields)
    requires At(s, tid, Update, f.cr.modelId, fields, f)
    ensures var id := f.cr.modelId;
      if id in f.upstream
      then At(Steps(s, tid, freshId, fields, 1), tid, RecordStatus, id, fields,
              f.(upstream := f.upstream[id := f.upstream[id] + [Push(f.cr.spec.mode, fields)]]))
      else At(Steps(s, tid, freshId, fields, 1), tid, CloseFailed, id, fields, f)
  {
    Twice(s, tid, freshId, fields);
  }

  // ---- Whole passes ----

  /** Once the pass is over it has succeeded, or not, and left this. */
  ghost predicate Leaves(s: State, tid: nat, freshId: string, fields: Fields, ok: bool, f: Face) {
    exists n: nat :: At(Steps(s, tid, freshId, fields, n), tid, if ok then Succeeded else GaveUp,
                        f.cr.modelId, fields, f)
  }

  lemma CreatesAndRecords(s: State, tid: nat, m: nat, pc: Pc, f: Face, freshId: string, fields: Fields)
    requires At(Steps(s, tid, freshId, fields, m), tid, pc, f.cr.modelId, fields, f) && pc in {Create, Recreate}
    requires freshId != "" && freshId !in f.issued
    ensures var cr := f.cr.(modelId := freshId, syncHash := Some((f.cr.spec, fields)),
                            authMode := Some(f.cr.spec.mode));
      Leaves(s, tid, freshId, fields, true, WithNew(f, freshId, Push(f.cr.spec.mode, fields)).(cr := cr))
  {
    Creates(Steps(s, tid, freshId, fields, m), tid, pc, f, freshId, fields);
    StepsAdd(s, tid, freshId, fields, m, 1);
    RecordsAndCloses(Steps(s, tid, freshId, fields, m + 1), tid, freshId,
                     WithNew(f, freshId, Push(f.cr.spec.mode, fields)), freshId, fields);
    StepsAdd(s, tid, freshId, fields, m + 1, 3);
  }

  lemma GivesUp(s: State, tid: nat, m: nat, f: Face, freshId: string, fields: Fields)
    requires At(Steps(s, tid, freshId, fields, m), tid, CloseFailed, f.cr.modelId, fields, f)
    ensures Leaves(s, tid, freshId, fields, false, f)
  {
    Closes(Steps(s, tid, freshId, fields, m), tid, CloseFailed, f, freshId, fields);
    StepsAdd(s, tid, freshId, fields, m, 1);
  }

  /** A CR without a model gets one with the fields of this pass, and the record of it. */
  lemma UnboundModelIsCreated(s: State, tid: nat, freshId: string, fields: Fields)
    requires Begins(s, tid) && Fits(s.store.latest.spec.mode, fields) && freshId != "" && freshId !in s.issued
    requires s.store.latest.modelId == ""
    ensures var f, spec := FaceOf(s), s.store.latest.spec;
      var cr := f.cr.(modelId := freshId, syncHash := Some((spec, fields)), authMode := Some(spec.mode));
      Leaves(s, tid, freshId, fields, true, WithNew(f, freshId, Push(spec.mode, fields)).(cr := cr))
  {
    Opens(s, tid, freshId, fields);
    CreatesAndRecords(s, tid, 2, Create, FaceOf(s), freshId, fields);
  }

  /** One recorded with this spec, these fields and this mode is left alone. */
  lemma CurrentModelIsLeftAlone(s: State, tid: nat, freshId: string, fields: Fields)
    requires Begins(s, tid) && Fits(s.store.latest.spec.mode, fields)
    requires s.store.latest.modelId != ""
    requires s.store.latest.syncHash == Some((s.store.latest.spec, fields))
    requires s.store.latest.authMode == Some(s.store.latest.spec.mode)
    ensures Leaves(s, tid, freshId, fields, true, FaceOf(s))
  {
    Opens(s, tid, freshId, fields);
    Closes(Steps(s, tid, freshId, fields, 2), tid, CloseOk, FaceOf(s), freshId, fields);
    StepsAdd(s, tid, freshId, fields, 2, 1);
  }

  /** One recorded with the other mode is deleted and created anew, so that its record has had
      one push, of this mode; if it is gone the pass fails and nothing changes. */
  lemma SwitchedModelIsRecreated(s: State, tid: nat, freshId: string, fields: Fields)
    requires Begins(s, tid) && Fits(s.store.latest.spec.mode, fields) && freshId != "" && freshId !in s.issued
    requires s.store.latest.modelId != ""
    requires s.store.latest.authMode.Some? && s.store.latest.authMode.value != s.store.latest.spec.mode
    ensures var f, spec := FaceOf(s), s.store.latest.spec;
      var cr := f.cr.(modelId := freshId, syncHash := Some((spec, fields)), authMode := Some(spec.mode));
      if f.cr.modelId in f.upstream
      then Leaves(s, tid, freshId, fields, true,
                  WithNew(f.(upstream := f.upstream - {f.cr.modelId}), freshId, Push(spec.mode, fields)).(cr := cr))
      else Leaves(s, tid, freshId, fields, false, f)
  {
    var f := FaceOf(s);
    Opens(s, tid, freshId, fields);
    Deletes(Steps(s, tid, freshId, fields, 2), tid, f, freshId, fields);
    StepsAdd(s, tid, freshId, fields, 2, 1);
    if f.cr.modelId in f.upstream {
      CreatesAndRecords(s, tid, 3, Recreate, f.(upstream := f.upstream - {f.cr.modelId}), freshId, fields);
    } else {
      GivesUp(s, tid, 3, f, freshId, fields);
    }
  }

  /** Any other is updated under its id, and recorded; if it is gone the pass fails and nothing
      changes. */
  lemma ChangedModelIsUpdated(s: State, tid: nat, freshId: string, fields: Fields)
    requires Begins(s, tid) && Fits(s.store.latest.spec.mode, fields) && s.store.latest.modelId != ""
    requires s.store.latest.authMode == None ||
      (s.store.latest.authMode == Some(s.store.latest.spec.mode) &&
       s.store.latest.syncHash != Some((s.store.latest.spec, fields)))
    ensures var f, id, spec := FaceOf(s), s.store.latest.modelId, s.store.latest.spec;
      var cr := f.cr.(syncHash := Some((spec, fields)), authMode := Some(spec.mode));
      if id in f.upstream
      then Leaves(s, tid, freshId, fields, true,
                  f.(cr := cr, upstream := f.upstream[id := f.upstream[id] + [Push(spec.mode, fields)]]))
      else Leaves(s, tid, freshId, fields, false, f)
  {
    var f, id := FaceOf(s), s.store.latest.modelId;
    Opens(s, tid, freshId, fields);
    Updates(Steps(s, tid, freshId, fields, 2), tid, f, freshId, fields);
    StepsAdd(s, tid, freshId, fields, 2, 1);
    if id in f.upstream {
      var g := f.(upstream := f.upstream[id := f.upstream[id] + [Push(f.cr.spec.mode, fields)]]);
      RecordsAndCloses(Steps(s, tid, freshId, fields, 3), tid, id, g, freshId, fields);
      StepsAdd(s, tid, freshId, fields, 3, 3);
    } else {
      GivesUp(s, tid, 3, f, freshId, fields);
    }
  }

  // ---- Calls that fail ----

  /** A create, delete or update that fails ends the pass, and nothing has changed. */
  lemma FailedCallChangesNothing(s: State, tid: nat, pc: Pc, f: Face, freshId: string, fields: Fields)
    requires At(s, tid, pc, f.cr.modelId, fields, f) && pc in {Create, DeleteOld, Update}
    ensures var failed := Apply(s, Step(tid, Fail, freshId, fields));
      Leaves(failed, tid, freshId, fields, false, f)
  {
    var failed := Apply(s, Step(tid, Fail, freshId, fields));
    assert At(failed, tid, CloseFailed, f.cr.modelId, fields, f);
    Closes(failed, tid, CloseFailed, f, freshId, fields);
  }

  /** A create that fails after the old model was deleted unbinds the CR, so that the next pass
      creates the model instead of updating one that is gone. */
  lemma FailedRecreateUnbinds(s: State, tid: nat, f: Face, freshId: string, fields: Fields)
    requires At(s, tid, Recreate, f.cr.modelId, fields, f)
    ensures var failed := Apply(s, Step(tid, Fail, freshId, fields));
      Leaves(failed, tid, freshId, fields, false, f.(cr := f.cr.(modelId := "")))
  {
    var failed := Apply(s, Step(tid, Fail, freshId, fields));
    assert At(failed, tid, ClearStale, f.cr.modelId, fields, f);
    var g := f.(cr := f.cr.(modelId := ""));
    assert At(Once(failed, tid, freshId, fields), tid, CloseFailed, "", fields, g);
    Twice(failed, tid, freshId, fields);
    GivesUp(failed, tid, 1, g, freshId, fields);
  }

  /** So does one that could not resolve its references: it makes no call at all. */
  lemma UnresolvedPassChangesNothing(s: State, tid: nat, freshId: string, fields: Fields)
    requires Begins(s, tid)
    ensures var failed := Apply(s, Step(tid, Fail, freshId, fields));
      FaceOf(Once(failed, tid, freshId, fields)) == FaceOf(s) && tid in failed.threads &&
      Once(failed, tid, freshId, fields).threads[tid].pc == GaveUp
  {
    var failed := Apply(s, Step(tid, Fail, freshId, fields));
    assert At(failed, tid, CloseFailed, s.store.latest.modelId, s.threads[tid].fields, FaceOf(s));
  }

  /** A reconcile begins by reading, perhaps the latest version. */
  lemma ReadBegins(s: State, tid: nat)
    requires tid !in s.threads && s.store.latest in s.store.history
    ensures var r := Apply(s, ReadForReconcile(tid, s.store.latest, s.store.rv));
      Begins(r, tid) && FaceOf(r) == FaceOf(s)
  {
  }

  // ---- Config sync ----

  lemma SyncReads(s: State, tid: nat, vanished: bool)
    requires tid !in s.threads && s.store.latest in s.store.history
    ensures var cr, rv := s.store.latest, s.store.rv;
      var r := Apply(s, if vanished then ReadForVanished(tid, cr, rv) else ReadForDrift(tid, cr, rv));
      && FaceOf(r) == FaceOf(s) && r.store.rv == rv && tid in r.threads
      && r.threads[tid].pc == (if vanished then SyncVanished else SyncDrift)
      && r.threads[tid].readAt == rv && r.threads[tid].local == cr
  {
  }

  lemma DropsHash(s: State, tid: nat, fields: Fields)
    requires tid in s.threads && s.threads[tid].pc == SyncDrift
    requires s.threads[tid].readAt == s.store.rv && s.threads[tid].local == s.store.latest
    ensures FaceOf(Once(s, tid, "", fields)) == FaceOf(s).(cr := s.store.latest.(syncHash := None))
  {
  }

  /** Config sync drops the hash of a model that drifted, and unbinds one that vanished as well;
      the auth mode stays either way. */
  lemma SyncClearsExactly(s: State, tid: nat, fields: Fields, vanished: bool)
    requires tid !in s.threads && s.store.latest in s.store.history
    ensures var cr, rv := s.store.latest, s.store.rv;
      var read := Apply(s, if vanished then ReadForVanished(tid, cr, rv) else ReadForDrift(tid, cr, rv));
      var once := Once(read, tid, "", fields);
      FaceOf(if vanished then Once(once, tid, "", fields) else once) ==
        FaceOf(s).(cr := cr.(syncHash := None, modelId := if vanished then "" else cr.modelId))
  {
    var cr, rv := s.store.latest, s.store.rv;
    var read := Apply(s, if vanished then ReadForVanished(tid, cr, rv) else ReadForDrift(tid, cr, rv));
    SyncReads(s, tid, vanished);
    if vanished {
      var once := Once(read, tid, "", fields);
      assert once.threads[tid].pc == SyncDrift && once.threads[tid].local == once.store.latest;
      DropsHash(once, tid, fields);
    } else {
      DropsHash(read, tid, fields);
    }
  }
}
