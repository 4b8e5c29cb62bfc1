/** Minting and rotating a virtual key: LiteLLM keeps a hash, the Secret keeps the only
    copy of the key, and the CR's status keeps the token.

    These are separate writes. One pass of the key controller is a thread over its
    calls, as in Adoption, next to any number of config-sync passes on the same CR. The
    controller's work queue runs one pass per CR at a time, so a pass begins only when
    the one before has ended or its process has died. */
module VirtualKeys {
  import opened Versioned

  /** `payload` stands for everything pushed to LiteLLM; the Secret's name is not. */
  datatype Spec = Spec(keySecretName: string, payload: string)

  /** One persisted version. `syncHash` stands for keySyncHash by the payload it covers.
      `secretRef` is status.keySecretRef.name, "" while unset. */
  datatype Key = Key(spec: Spec, syncHash: Option<string>, token: string, secretRef: string)

  datatype Pc =
    | Start         // the CR has been read; resolve the instance, team and user
    | CheckSecret   // does the key Secret exist? (read from the API server)
    | DropOrphan    // POST /key/delete for a key whose Secret is gone
    | Mint          // POST /key/generate
    | WriteSecret   // create or update the Secret with the minted key
    | RecordMint    // status: token and Secret name
    | RecordAgain   // the closing status write of a pass whose Secret write took effect
    | ComparePushed
    | PushUpdate    // POST /key/update
    | RecordHash
    | KeepSecret    // reconcile the Secret's metadata
    | FinalStatus
    | Done

  /** A key LiteLLM issued, and the Secret it is to be stored in. */
  datatype Mint = Mint(token: string, apiKey: string, secret: string)

  /** `mint` is the key minted by this pass, if any. */
  datatype Pass = Pass(pc: Pc, readAt: nat, local: Key, mint: Option<Mint>)

  /** A config-sync pass: about to clear the token, or just to drop the sync hash. */
  datatype SyncPass = SyncPass(clearToken: bool, readAt: nat, local: Key)

  /** `name` is the CR's name. `minted` maps every token LiteLLM issued to its key.
      `lost` records that a pass ended without its status write although its Secret
      write had overwritten the Secret the status points to, and that no status write of a
      mint has landed since. */
  datatype State = State(
    name: string,
    store: Store<Key>,
    secrets: map<string, string>,
    minted: map<string, string>,
    pass: Pass,
    syncs: map<nat, SyncPass>,
    lost: bool)

  datatype Action =
    | BeginPass(seen: Key, at: nat)
    | Step(outcome: Outcome, freshToken: string, freshKey: string)
    | BeginSync(sid: nat, seen: Key, at: nat, vanished: bool)
    | StepSync(sid: nat, outcome: Outcome)
    | EditSpec(spec: Spec)
    | DeleteSecret(secret: string)

  /** The Secret of a key: pinned by the status once minted. */
  function KeySecretName(name: string, k: Key): (secret: string)
    ensures secret != ""
  {
    if k.secretRef != "" then k.secretRef
    else if k.spec.keySecretName != "" then k.spec.keySecretName
    else name + "-key"
  }

  /** A CR with no status. Secrets of any content may already exist under any name. */
  ghost predicate Init(s: State) {
    && s.store.history == {s.store.latest}
    && s.store.latest.token == "" && s.store.latest.secretRef == ""
    && s.pass == Pass(Done, s.store.rv, s.store.latest, None)
    && s.syncs == map[] && s.minted == map[] && !s.lost
  }

  /** A Secret write has taken effect and the status write that goes with it is due. */
  predicate Pending(p: Pass) {
    p.pc == RecordMint || p.pc == RecordAgain
  }

  /** Dropping the status write that is due would matter: the status still names a token,
      and the Secret pinned to it is the one just written. */
  predicate WouldBreak(s: State) {
    && Pending(s.pass) && s.pass.mint.Some?
    && s.store.latest.token != "" && s.store.latest.secretRef == s.pass.mint.value.secret
    && s.store.latest.secretRef in s.secrets
  }

  /** Spec and metadata of `local` on the status of the latest version. */
  function WithObject(latest: Key, local: Key): Key {
    local.(token := latest.token, secretRef := latest.secretRef)
  }

  /** The status of `local` on the rest of the latest version. */
  function WithStatus(latest: Key, local: Key): Key {
    latest.(token := local.token, secretRef := local.secretRef)
  }

  /** A compare-and-swap write by the controller's pass. */
  function Commit(s: State, local: Key, next: Key, o: Outcome, onOk: Pc, onError: Pc): State
  {
    if o != Fail && s.pass.readAt == s.store.rv then
      var st := Persist(s.store, next);
      s.(store := st,
         pass := if o == Ok then s.pass.(pc := onOk, readAt := st.rv, local := next)
                 else s.pass.(pc := onError, local := local))
    else
      s.(pass := s.pass.(pc := onError, local := local))
  }

  /** The status write that records a mint: attempted after the Secret write, and once
      more when the pass closes. */
  function StepRecord(s: State, o: Outcome): State
  {
    var next := WithStatus(s.store.latest, s.pass.local);
    if o != Fail && s.pass.readAt == s.store.rv then
      // The write took effect, even if the response was lost.
      var onOk := if s.pass.pc == RecordMint then RecordHash else Done;
      Commit(s.(lost := false), s.pass.local, next, o, onOk, FinalStatus)
    else if s.pass.pc == RecordMint then
      s.(pass := s.pass.(pc := RecordAgain))
    else
      s.(pass := s.pass.(pc := Done), lost := s.lost || WouldBreak(s))
  }

  function StepPass(s: State, o: Outcome, freshToken: string, freshKey: string): State
  {
    var p := s.pass;
    var local := p.local;
    match p.pc
    case Start =>
      s.(pass := p.(pc := if o != Ok then FinalStatus else if local.token != "" then CheckSecret else Pc.Mint))
    case CheckSecret =>
      s.(pass := p.(pc := if o != Ok then FinalStatus
                          else if KeySecretName(s.name, local) in s.secrets then ComparePushed
                          else DropOrphan))
    case DropOrphan =>
      // Best effort: a failed delete does not stop the rotation.
      s.(pass := p.(pc := Pc.Mint, local := local.(token := "", secretRef := "")))
    case Mint =>
      if o == Fail || freshToken == "" || freshToken in s.minted || freshKey in s.minted.Values then
        s.(pass := p.(pc := FinalStatus))
      else
        s.(minted := s.minted[freshToken := freshKey],
           pass := if o == Lost then p.(pc := FinalStatus)
                   else p.(pc := WriteSecret,
                           mint := Some(Mint.Mint(freshToken, freshKey, KeySecretName(s.name, local)))))
    case WriteSecret =>
      if o == Fail || p.mint.None? then
        s.(pass := p.(pc := FinalStatus))
      else
        var m := p.mint.value;
        s.(secrets := s.secrets[m.secret := m.apiKey],
           pass := if o == Lost then p.(pc := RecordAgain)
                   else p.(pc := RecordMint, local := local.(token := m.token, secretRef := m.secret)))
    case RecordMint => StepRecord(s, o)
    case RecordAgain => StepRecord(s, o)
    case ComparePushed =>
      s.(pass := p.(pc := if local.syncHash == Some(local.spec.payload) then KeepSecret else PushUpdate))
    case PushUpdate => s.(pass := p.(pc := if o == Ok then RecordHash else FinalStatus))
    case RecordHash =>
      // A pass that minted is then over; any other goes on to the Secret's metadata.
      var l := local.(syncHash := Some(local.spec.payload));
      Commit(s, l, WithObject(s.store.latest, l), o, if p.mint.None? then KeepSecret else FinalStatus, FinalStatus)
    case KeepSecret => s.(pass := p.(pc := FinalStatus))
    case FinalStatus => Commit(s, local, WithStatus(s.store.latest, local), o, Done, Done)
    case Done => s
  }

  /** Config sync: a vanished key loses its token, then its sync hash; a drifted one
      just its sync hash. */
  function StepSyncPass(s: State, sid: nat, o: Outcome): State
    requires sid in s.syncs
  {
    var p := s.syncs[sid];
    var latest := s.store.latest;
    var ended := s.(syncs := s.syncs - {sid});
    if o == Fail || p.readAt != s.store.rv then
      ended
    else if p.clearToken then
      var next := WithStatus(latest, p.local.(token := ""));
      var st := Persist(s.store, next);
      if o == Lost then ended.(store := st)
      else s.(store := st, syncs := s.syncs[sid := SyncPass(false, st.rv, next)])
    else
      ended.(store := Persist(s.store, WithObject(latest, p.local.(syncHash := None))))
  }

  function Apply(s: State, a: Action): State
  {
    match a
    case BeginPass(seen, at) =>
      // Whatever the previous pass had not done, it will never do.
      if !CanRead(s.store, seen, at) then s
      else s.(pass := Pass(Start, at, seen, None), lost := s.lost || WouldBreak(s))
    case Step(o, freshToken, freshKey) => StepPass(s, o, freshToken, freshKey)
    case BeginSync(sid, seen, at, vanished) =>
      if sid in s.syncs || !CanRead(s.store, seen, at) then s
      else s.(syncs := s.syncs[sid := SyncPass(vanished, at, seen)])
    case StepSync(sid, o) => if sid in s.syncs then StepSyncPass(s, sid, o) else s
    case EditSpec(spec) => s.(store := Persist(s.store, s.store.latest.(spec := spec)))
    case DeleteSecret(secret) => s.(secrets := s.secrets - {secret})
  }

  function Run(s: State, actions: seq<Action>): State
    decreases |actions|
  {
    if actions == [] then s else Run(Apply(s, actions[0]), actions[1..])
  }

  /** The pinned Secret, if it exists, holds the key minted with the recorded token. */
  ghost predicate Agrees(minted: map<string, string>, secrets: map<string, string>, k: Key) {
    k.token != "" ==>
      && k.token in minted
      && k.secretRef != ""
      && (k.secretRef in secrets ==> secrets[k.secretRef] == minted[k.token])
  }

  ghost predicate Agreement(s: State) {
    Agrees(s.minted, s.secrets, s.store.latest)
  }

  /** A recorded token was issued by LiteLLM and is recorded with its Secret's name. */
  ghost predicate VersionOk(minted: map<string, string>, k: Key) {
    k.token != "" ==> k.token in minted && k.secretRef != ""
  }

  /** LiteLLM never issues the same key twice. */
  ghost predicate KeysDiffer(minted: map<string, string>) {
    forall t, u :: t in minted && u in minted && t != u ==> minted[t] != minted[u]
  }

  /** The status a pass may write without a mint in flight: the latest one's, or a
      cleared one. */
  ghost predicate StatusFrom(latest: Key, local: Key) {
    local.token == "" || (local.token == latest.token && local.secretRef == latest.secretRef)
  }

  /** A mint in flight: its key is LiteLLM's, and no version names its token yet. */
  ghost predicate MintOk(minted: map<string, string>, history: set<Key>, m: Mint) {
    && m.token != "" && m.secret != ""
    && m.token in minted && minted[m.token] == m.apiKey
    && forall v :: v in history ==> v.token != m.token
  }

  /** Once its Secret is written, the status to record is its own or a cleared one. */
  ghost predicate PendingOk(secrets: map<string, string>, local: Key, m: Mint) {
    && (m.secret in secrets ==> secrets[m.secret] == m.apiKey)
    && (local.token != "" ==> local.token == m.token && local.secretRef == m.secret)
  }

  ghost predicate PassOk(s: State) {
    && s.pass.readAt <= s.store.rv
    && (s.pass.pc == WriteSecret || Pending(s.pass) ==>
          s.pass.mint.Some? && MintOk(s.minted, s.store.history, s.pass.mint.value))
    && (Pending(s.pass) ==> PendingOk(s.secrets, s.pass.local, s.pass.mint.value))
    && (s.pass.pc == Pc.Mint || s.pass.pc == WriteSecret ==> s.pass.local.token == "")
    && (!Pending(s.pass) && s.pass.pc != Done && s.pass.readAt == s.store.rv ==>
          StatusFrom(s.store.latest, s.pass.local))
  }

  ghost predicate SyncOk(st: Store<Key>, p: SyncPass) {
    p.readAt <= st.rv && (p.readAt == st.rv ==> StatusFrom(st.latest, p.local))
  }

  /** Nothing but the Secret of a mint in flight can be out of step with the status. */
  ghost predicate InStep(s: State) {
    || s.lost
    || Agreement(s)
    || (Pending(s.pass) && s.pass.mint.Some? && s.store.latest.secretRef == s.pass.mint.value.secret)
  }

  ghost predicate Inv(s: State) {
    && s.store.latest in s.store.history
    && PassOk(s)
    && KeysDiffer(s.minted)
    && (forall v :: v in s.store.history ==> VersionOk(s.minted, v))
    && (forall i :: i in s.syncs ==> SyncOk(s.store, s.syncs[i]))
    && InStep(s)
  }

  /** Persisting a version whose status is the latest one's or cleared. */
  lemma PersistKeepsInv(s: State, next: Key)
    requires Inv(s) && StatusFrom(s.store.latest, next)
    ensures Inv(s.(store := Persist(s.store, next)))
  {
    assert VersionOk(s.minted, s.store.latest);
  }

  /** Moving the pass outside a mint. */
  lemma MovingKeepsInv(s: State, p: Pass)
    requires Inv(s) && !Pending(s.pass) && !Pending(p) && p.pc != WriteSecret
    requires p.readAt <= s.store.rv && (p.readAt == s.store.rv ==> StatusFrom(s.store.latest, p.local))
    requires p.pc == Pc.Mint ==> p.local.token == ""
    ensures Inv(s.(pass := p))
  {
  }

  lemma CommitKeepsInv(s: State, local: Key, next: Key, o: Outcome, onOk: Pc, onError: Pc)
    requires Inv(s) && !Pending(s.pass)
    requires onOk in {KeepSecret, FinalStatus, Done} && onError in {FinalStatus, Done}
    requires s.pass.readAt == s.store.rv ==>
               StatusFrom(s.store.latest, local) && StatusFrom(s.store.latest, next)
    ensures Inv(Commit(s, local, next, o, onOk, onError))
  {
    if o != Fail && s.pass.readAt == s.store.rv {
      PersistKeepsInv(s, next);
      var s' := s.(store := Persist(s.store, next));
      MovingKeepsInv(s', if o == Ok then s.pass.(pc := onOk, readAt := s'.store.rv, local := next)
                         else s.pass.(pc := onError, local := local));
    } else {
      MovingKeepsInv(s, s.pass.(pc := onError, local := local));
    }
  }

  /** Recording a mint: the landed status write brings status and Secret together; a
      second failure gives up and is noted as lost. */
  lemma RecordKeepsInv(s: State, o: Outcome)
    requires Inv(s) && Pending(s.pass)
    ensures Inv(StepRecord(s, o))
  {
    var r := StepRecord(s, o);
    if o != Fail && s.pass.readAt == s.store.rv {
      assert r.store.latest == WithStatus(s.store.latest, s.pass.local);
      assert VersionOk(s.minted, r.store.latest) && Agreement(r);
    }
  }

  /** LiteLLM issues a token and a key it never issued before. */
  lemma IssueKeepsInv(s: State, token: string, key: string)
    requires Inv(s) && s.pass.pc == Pc.Mint && token !in s.minted && key !in s.minted.Values
    ensures Inv(s.(minted := s.minted[token := key]))
  {
    var minted := s.minted[token := key];
    forall t, u | t in minted && u in minted && t != u
      ensures minted[t] != minted[u]
    {
      if t in s.minted && u in s.minted {
        assert s.minted[t] != s.minted[u];
      }
    }
  }

  lemma BeginWriteKeepsInv(s: State, m: Mint)
    requires Inv(s) && s.pass.pc == Pc.Mint && MintOk(s.minted, s.store.history, m)
    ensures Inv(s.(pass := s.pass.(pc := WriteSecret, mint := Some(m))))
  {
  }

  lemma MintKeepsInv(s: State, o: Outcome, freshToken: string, freshKey: string)
    requires Inv(s) && s.pass.pc == Pc.Mint
    ensures Inv(StepPass(s, o, freshToken, freshKey))
  {
    if o == Fail || freshToken == "" || freshToken in s.minted || freshKey in s.minted.Values {
      MovingKeepsInv(s, s.pass.(pc := FinalStatus));
    } else {
      IssueKeepsInv(s, freshToken, freshKey);
      var s' := s.(minted := s.minted[freshToken := freshKey]);
      if o == Lost {
        MovingKeepsInv(s', s'.pass.(pc := FinalStatus));
      } else {
        assert forall v :: v in s.store.history ==> VersionOk(s.minted, v);
        BeginWriteKeepsInv(s', Mint.Mint(freshToken, freshKey, KeySecretName(s.name, s.pass.local)));
      }
    }
  }

  lemma WriteSecretKeepsInv(s: State, o: Outcome)
    requires Inv(s) && s.pass.pc == WriteSecret
    ensures Inv(StepPass(s, o, "", ""))
  {
  }

  /** A step that only decides what to do next. */
  lemma DecideKeepsInv(s: State, o: Outcome)
    requires Inv(s)
    requires s.pass.pc in {Start, CheckSecret, DropOrphan, ComparePushed, PushUpdate, KeepSecret}
    ensures Inv(StepPass(s, o, "", ""))
  {
    var r := StepPass(s, o, "", "");
    assert r == s.(pass := r.pass);
    MovingKeepsInv(s, r.pass);
  }

  lemma StepKeepsInv(s: State, o: Outcome, freshToken: string, freshKey: string)
    requires Inv(s)
    ensures Inv(StepPass(s, o, freshToken, freshKey))
  {
    var local := s.pass.local;
    match s.pass.pc
    case Mint => MintKeepsInv(s, o, freshToken, freshKey);
    case WriteSecret => WriteSecretKeepsInv(s, o);
    case RecordMint => RecordKeepsInv(s, o);
    case RecordAgain => RecordKeepsInv(s, o);
    case RecordHash =>
      var l := local.(syncHash := Some(local.spec.payload));
      CommitKeepsInv(s, l, WithObject(s.store.latest, l), o,
                     if s.pass.mint.None? then KeepSecret else FinalStatus, FinalStatus);
    case FinalStatus => CommitKeepsInv(s, local, WithStatus(s.store.latest, local), o, Done, Done);
    case Done =>
    case Start => DecideKeepsInv(s, o);
    case CheckSecret => DecideKeepsInv(s, o);
    case DropOrphan => DecideKeepsInv(s, o);
    case ComparePushed => DecideKeepsInv(s, o);
    case PushUpdate => DecideKeepsInv(s, o);
    case KeepSecret => DecideKeepsInv(s, o);
  }

  lemma SyncsKeepInv(s: State, syncs: map<nat, SyncPass>)
    requires Inv(s) && forall i :: i in syncs ==> SyncOk(s.store, syncs[i])
    ensures Inv(s.(syncs := syncs))
  {
  }

  lemma SyncKeepsInv(s: State, sid: nat, o: Outcome)
    requires Inv(s) && sid in s.syncs
    ensures Inv(StepSyncPass(s, sid, o))
  {
    var p := s.syncs[sid];
    if o == Fail || p.readAt != s.store.rv {
      SyncsKeepInv(s, s.syncs - {sid});
    } else {
      var next := if p.clearToken then WithStatus(s.store.latest, p.local.(token := ""))
                  else WithObject(s.store.latest, p.local.(syncHash := None));
      PersistKeepsInv(s, next);
      var s' := s.(store := Persist(s.store, next));
      if p.clearToken && o == Ok {
        SyncsKeepInv(s', s.syncs[sid := SyncPass(false, s'.store.rv, next)]);
      } else {
        SyncsKeepInv(s', s.syncs - {sid});
      }
    }
  }

  lemma ApplyKeepsInv(s: State, a: Action)
    requires Inv(s)
    ensures Inv(Apply(s, a))
  {
    match a
    case BeginPass(_, _) =>
    case Step(o, freshToken, freshKey) => StepKeepsInv(s, o, freshToken, freshKey);
    case BeginSync(_, _, _, _) =>
    case StepSync(sid, o) => if sid in s.syncs { SyncKeepsInv(s, sid, o); }
    case EditSpec(spec) => PersistKeepsInv(s, s.store.latest.(spec := spec));
    case DeleteSecret(_) =>
  }

  lemma {:induction false} RunKeepsInv(s: State, actions: seq<Action>)
    requires Inv(s)
    ensures Inv(Run(s, actions))
    decreases |actions|
  {
    if actions != [] {
      ApplyKeepsInv(s, actions[0]);
      RunKeepsInv(Apply(s, actions[0]), actions[1..]);
    }
  }

  /** Key agreement. In every run of mints, rotations, Secret deletions, config-sync
      token clearing and spec edits, whenever no status write is due and none was lost,
      the status either holds no token, or the pinned Secret is gone, or that Secret
      holds the key minted with that token. */
  lemma SecretHoldsTheRecordedKey(s: State, actions: seq<Action>)
    requires Init(s)
    ensures var r := Run(s, actions);
      !r.lost && !Pending(r.pass) ==> Agreement(r)
  {
    RunKeepsInv(s, actions);
  }

  /** When exactly a lost status write matters. If the process dies while the status
      write of a mint is due, agreement survives unless the status still names a token
      and its pinned Secret is the very one just overwritten: a rotation that re-used
      the Secret's name, or a pass that minted from a stale read. */
  lemma LostWriteBreaksExactlyReusedSecrets(s: State, actions: seq<Action>, seen: Key, at: nat)
    requires Init(s)
    requires var r := Run(s, actions); !r.lost && Pending(r.pass) && CanRead(r.store, seen, at)
    ensures var r := Run(s, actions);
      var latest := r.store.latest;
      && r.pass.mint.Some?
      && (Agreement(Apply(r, BeginPass(seen, at))) <==>
            !(latest.token != "" && latest.secretRef == r.pass.mint.value.secret && latest.secretRef in r.secrets))
  {
    RunKeepsInv(s, actions);
    var r := Run(s, actions);
    assert VersionOk(r.minted, r.store.latest);
    assert r.store.latest.token != r.pass.mint.value.token;
  }

  lemma {:induction false} RunAppend(s: State, xs: seq<Action>, ys: seq<Action>)
    ensures Run(s, xs + ys) == Run(Run(s, xs), ys)
    decreases |xs|
  {
    if xs == [] {
      assert xs + ys == ys;
    } else {
      assert (xs + ys)[1..] == xs[1..] + ys;
      RunAppend(Apply(s, xs[0]), xs[1..], ys);
    }
  }

  /** Three steps through named states. */
  lemma RunThree(s0: State, a: Action, s1: State, b: Action, s2: State, c: Action, s3: State)
    requires Apply(s0, a) == s1 && Apply(s1, b) == s2 && Apply(s2, c) == s3
    ensures Run(s0, [a, b, c]) == s3
  {
    assert [a, b, c][1..] == [b, c] && [b, c][1..] == [c] && [c][1..] == [];
    assert Run(s2, [c]) == Run(s3, []);
    assert Run(s1, [b, c]) == Run(s2, [c]);
  }

  /** A run made of four parts. */
  lemma RunFour(s0: State, a: seq<Action>, s1: State, b: seq<Action>, s2: State,
                c: seq<Action>, s3: State, d: seq<Action>, s4: State)
    requires Run(s0, a) == s1 && Run(s1, b) == s2 && Run(s2, c) == s3 && Run(s3, d) == s4
    ensures Run(s0, a + b + c + d) == s4
  {
    RunAppend(s0, a, b);
    RunAppend(s0, a + b, c);
    RunAppend(s0, a + b + c, d);
  }

  // ---- What a pass comes to ----

  /** The steps of a pass that finds its key's Secret. */
  const KEEPING := {Start, CheckSecret, ComparePushed, PushUpdate, RecordHash, KeepSecret, FinalStatus, Done}

  function StatusOf(k: Key): (string, string) {
    (k.token, k.secretRef)
  }

  /** The pass has read version `k`, and still holds its status. */
  predicate Holding(s: State, k: Key) {
    && s.pass.pc in KEEPING && s.pass.mint == None && s.pass.readAt <= s.store.rv
    && (s.pass.pc != Done ==> StatusOf(s.pass.local) == StatusOf(k))
    && (s.pass.pc != Done && s.pass.readAt == s.store.rv ==> StatusOf(s.store.latest) == StatusOf(k))
  }

  /** Nobody starts another pass, deletes the Secret `ref` or clears a token. */
  predicate LeavesAlone(s: State, a: Action, ref: string) {
    && !a.BeginPass? && a != DeleteSecret(ref)
    && (a.StepSync? && a.sid in s.syncs ==> !s.syncs[a.sid].clearToken)
  }

  ghost predicate AllLeaveAlone(s: State, actions: seq<Action>, ref: string)
    decreases |actions|
  {
    actions == [] || (LeavesAlone(s, actions[0], ref) && AllLeaveAlone(Apply(s, actions[0]), actions[1..], ref))
  }

  /** What consumers of a key rely on: its token, its Secret and what that holds. */
  predicate SameKey(s: State, r: State, ref: string) {
    && r.minted == s.minted && StatusOf(r.store.latest) == StatusOf(s.store.latest)
    && (ref in s.secrets <==> ref in r.secrets) && (ref in s.secrets ==> r.secrets[ref] == s.secrets[ref])
  }

  lemma HoldingCommits(s: State, k: Key, local: Key, next: Key, o: Outcome, onOk: Pc, onError: Pc)
    requires Holding(s, k) && s.pass.pc != Done && StatusOf(local) == StatusOf(k)
    requires StatusOf(next) == StatusOf(s.store.latest) || StatusOf(next) == StatusOf(k)
    requires onOk in {KeepSecret, FinalStatus, Done} && onError in {FinalStatus, Done}
    ensures var r := Commit(s, local, next, o, onOk, onError);
      && Holding(r, k) && StatusOf(r.store.latest) == StatusOf(s.store.latest)
      && r.minted == s.minted && r.secrets == s.secrets
  {
  }

  lemma HealthyPassStep(s: State, k: Key, o: Outcome, freshToken: string, freshKey: string)
    requires Holding(s, k) && k.token != "" && k.secretRef != "" && k.secretRef in s.secrets
    ensures var r := StepPass(s, o, freshToken, freshKey);
      && Holding(r, k) && StatusOf(r.store.latest) == StatusOf(s.store.latest)
      && r.minted == s.minted && r.secrets == s.secrets
  {
    var p := s.pass;
    if p.pc == RecordHash {
      var l := p.local.(syncHash := Some(p.local.spec.payload));
      HoldingCommits(s, k, l, WithObject(s.store.latest, l), o, KeepSecret, FinalStatus);
    } else if p.pc == FinalStatus {
      HoldingCommits(s, k, p.local, WithStatus(s.store.latest, p.local), o, Done, Done);
    }
  }

  lemma HealthyStep(s: State, k: Key, a: Action)
    requires Holding(s, k) && k.token != "" && k.secretRef != "" && k.secretRef in s.secrets
    requires LeavesAlone(s, a, k.secretRef)
    ensures Holding(Apply(s, a), k) && SameKey(s, Apply(s, a), k.secretRef)
  {
    if a.Step? {
      HealthyPassStep(s, k, a.outcome, a.freshToken, a.freshKey);
    }
  }

  lemma {:induction false} HealthyRun(s: State, k: Key, actions: seq<Action>)
    requires Holding(s, k) && k.token != "" && k.secretRef != "" && k.secretRef in s.secrets
    requires AllLeaveAlone(s, actions, k.secretRef)
    ensures Holding(Run(s, actions), k) && SameKey(s, Run(s, actions), k.secretRef)
    decreases |actions|
  {
    if actions != [] {
      HealthyStep(s, k, actions[0]);
      HealthyRun(Apply(s, actions[0]), k, actions[1..]);
    }
  }

  /** A key whose Secret is there is left alone: once a pass has read a version with a token
      and a pinned Secret, then whatever the pass does, whatever fails, whoever edits the spec
      and whichever sync hash is dropped, no key is minted, and token, pin and Secret stay. */
  lemma HealthyKeyIsLeftAlone(s: State, actions: seq<Action>)
    requires CanRead(s.store, s.pass.local, s.pass.readAt) && s.pass.pc == Start && s.pass.mint == None
    requires var k := s.pass.local; k.token != "" && k.secretRef != "" && k.secretRef in s.secrets
    requires AllLeaveAlone(s, actions, s.pass.local.secretRef)
    ensures SameKey(s, Run(s, actions), s.pass.local.secretRef)
  {
    HealthyRun(s, s.pass.local, actions);
  }

  /** The pass takes `steps` undisturbed steps; a mint gets `token` and `key`. */
  function Undisturbed(s: State, steps: nat, token: string, key: string): State {
    Repeat(x => Apply(x, Step(Ok, token, key)), s, steps)
  }

  lemma UndisturbedAdds(s: State, m: nat, n: nat, token: string, key: string)
    ensures Undisturbed(Undisturbed(s, m, token, key), n, token, key) == Undisturbed(s, m + n, token, key)
  {
    RepeatAdds(x => Apply(x, Step(Ok, token, key)), s, m, n);
  }

  /** A pass over the latest version is about to take this step. */
  predicate AboutTo(s: State, pc: Pc) {
    s.pass == Pass(pc, s.store.rv, s.store.latest, None)
  }

  /** The Secret a mint goes to: the pinned one, or else the one the spec names, or else one
      named after the CR. */
  function MintSecret(s: State, pinned: string): string {
    if pinned != "" then pinned
    else if s.store.latest.spec.keySecretName != "" then s.store.latest.spec.keySecretName
    else s.name + "-key"
  }

  lemma MintIsStored(s: State, local: Key, token: string, key: string)
    requires s.pass == Pass(Pc.Mint, s.store.rv, local, None)
    requires local == s.store.latest.(token := "", secretRef := local.secretRef)
    requires token != "" && token !in s.minted && key !in s.minted.Values
    ensures var secret := MintSecret(s, local.secretRef);
      Undisturbed(s, 2, token, key) ==
        s.(minted := s.minted[token := key], secrets := s.secrets[secret := key],
           pass := Pass(RecordMint, s.store.rv, local.(token := token, secretRef := secret),
                        Some(Mint.Mint(token, key, secret))))
  {
    var go, secret := Step(Ok, token, key), MintSecret(s, local.secretRef);
    var s1 := Apply(s, go);
    assert s1.pass == Pass(WriteSecret, s.store.rv, local, Some(Mint.Mint(token, key, secret)));
    var s2 := Apply(s1, go);
    assert Undisturbed(s, 2, token, key) == Undisturbed(s1, 1, token, key) == Undisturbed(s2, 0, token, key);
  }

  lemma StatusIsRecorded(s: State, token: string, key: string)
    requires s.pass.pc == RecordMint && s.pass.readAt == s.store.rv && s.pass.mint.Some?
    requires s.pass.local == WithStatus(s.store.latest, s.pass.local)
    ensures var r := Undisturbed(s, 3, token, key);
      && r.store.latest == s.pass.local.(syncHash := Some(s.pass.local.spec.payload))
      && r.secrets == s.secrets && r.minted == s.minted && r.pass.pc == Done
  {
    var go := Step(Ok, token, key);
    var s1 := Apply(s, go);
    assert s1.store.latest == s.pass.local;
    assert s1.pass == s.pass.(pc := RecordHash, readAt := s1.store.rv);
    var s2 := Apply(s1, go);
    assert s2.pass.pc == FinalStatus && s2.pass.local == s2.store.latest && s2.pass.readAt == s2.store.rv;
    var s3 := Apply(s2, go);
    assert s3.store == s2.store;
    assert Undisturbed(s, 3, token, key) == Undisturbed(s1, 2, token, key) == Undisturbed(s2, 1, token, key) ==
           Undisturbed(s3, 0, token, key);
  }

  /** From the mint on: the key is in its Secret, and token, Secret and hash are recorded. */
  lemma MintIsRecorded(s: State, local: Key, token: string, key: string)
    requires s.pass == Pass(Pc.Mint, s.store.rv, local, None)
    requires local == s.store.latest.(token := "", secretRef := local.secretRef)
    requires token != "" && token !in s.minted && key !in s.minted.Values
    ensures var r, secret := Undisturbed(s, 5, token, key), MintSecret(s, local.secretRef);
      && r.store.latest ==
         s.store.latest.(token := token, secretRef := secret, syncHash := Some(s.store.latest.spec.payload))
      && r.secrets == s.secrets[secret := key] && r.minted == s.minted[token := key] && r.pass.pc == Done
  {
    MintIsStored(s, local, token, key);
    StatusIsRecorded(Undisturbed(s, 2, token, key), token, key);
    UndisturbedAdds(s, 2, 3, token, key);
  }

  /** A key without a token is minted by an undisturbed pass, into the Secret still pinned. */
  lemma UnmintedKeyIsMinted(s: State, token: string, key: string)
    requires AboutTo(s, Start) && s.store.latest.token == ""
    requires token != "" && token !in s.minted && key !in s.minted.Values
    ensures var k, r, secret := s.store.latest, Undisturbed(s, 6, token, key), MintSecret(s, s.store.latest.secretRef);
      && r.store.latest == k.(token := token, secretRef := secret, syncHash := Some(k.spec.payload))
      && r.secrets == s.secrets[secret := key] && r.minted == s.minted[token := key]
  {
    var s1 := Apply(s, Step(Ok, token, key));
    assert s1 == s.(pass := s.pass.(pc := Pc.Mint));
    MintIsRecorded(s1, s.store.latest, token, key);
  }

  /** A key whose pinned Secret is gone is rotated by an undisturbed pass, into the Secret the
      spec names, whatever was pinned. */
  lemma KeyWithoutSecretIsRotated(s: State, token: string, key: string)
    requires AboutTo(s, Start) && s.store.latest.token != ""
    requires s.store.latest.secretRef != "" && s.store.latest.secretRef !in s.secrets
    requires token != "" && token !in s.minted && key !in s.minted.Values
    ensures var k, r, secret := s.store.latest, Undisturbed(s, 8, token, key), MintSecret(s, "");
      && r.store.latest == k.(token := token, secretRef := secret, syncHash := Some(k.spec.payload))
      && r.secrets == s.secrets[secret := key] && r.minted == s.minted[token := key]
  {
    var go := Step(Ok, token, key);
    var s1 := Apply(s, go);
    assert s1 == s.(pass := s.pass.(pc := CheckSecret));
    var s2 := Apply(s1, go);
    assert s2 == s.(pass := s.pass.(pc := DropOrphan));
    var local := s.store.latest.(token := "", secretRef := "");
    var s3 := Apply(s2, go);
    assert s3 == s.(pass := Pass(Pc.Mint, s.store.rv, local, None));
    MintIsRecorded(s3, local, token, key);
    assert Undisturbed(s, 3, token, key) == Undisturbed(s1, 2, token, key) == Undisturbed(s2, 1, token, key) ==
           Undisturbed(s3, 0, token, key);
    UndisturbedAdds(s, 3, 5, token, key);
  }

  lemma SecretIsKept(s: State, token: string, key: string)
    requires AboutTo(s, KeepSecret)
    ensures Undisturbed(s, 2, token, key) == s.(pass := s.pass.(pc := Done))
  {
    var go := Step(Ok, token, key);
    var s1 := Apply(s, go);
    assert s1 == s.(pass := s.pass.(pc := FinalStatus));
    assert Undisturbed(s, 2, token, key) == Undisturbed(s1, 1, token, key) == Undisturbed(Apply(s1, go), 0, token, key);
  }

  lemma UpdateIsRecorded(s: State, token: string, key: string)
    requires AboutTo(s, ComparePushed) && s.store.latest.syncHash != Some(s.store.latest.spec.payload)
    ensures var r := Undisturbed(s, 5, token, key);
      && r.store.latest == s.store.latest.(syncHash := Some(s.store.latest.spec.payload))
      && r.secrets == s.secrets && r.minted == s.minted
  {
    var go := Step(Ok, token, key);
    var s1 := Apply(s, go);
    assert s1 == s.(pass := s.pass.(pc := PushUpdate));
    var s2 := Apply(s1, go);
    assert s2 == s.(pass := s.pass.(pc := RecordHash));
    var s3 := Apply(s2, go);
    assert AboutTo(s3, KeepSecret);
    SecretIsKept(s3, token, key);
    assert Undisturbed(s, 5, token, key) == Undisturbed(s1, 4, token, key) == Undisturbed(s2, 3, token, key) ==
           Undisturbed(s3, 2, token, key);
  }

  lemma FindsSecret(s: State, token: string, key: string)
    requires AboutTo(s, Start) && s.store.latest.token != ""
    requires s.store.latest.secretRef != "" && s.store.latest.secretRef in s.secrets
    ensures Undisturbed(s, 2, token, key) == s.(pass := s.pass.(pc := ComparePushed))
  {
    var go := Step(Ok, token, key);
    var s1 := Apply(s, go);
    assert s1 == s.(pass := s.pass.(pc := CheckSecret));
    var s2 := Apply(s1, go);
    assert Undisturbed(s, 2, token, key) == Undisturbed(s1, 1, token, key) == Undisturbed(s2, 0, token, key);
  }

  lemma CurrentIsKept(s: State, token: string, key: string)
    requires AboutTo(s, ComparePushed) && s.store.latest.syncHash == Some(s.store.latest.spec.payload)
    ensures Undisturbed(s, 3, token, key) == s.(pass := s.pass.(pc := Done))
  {
    var s1 := Apply(s, Step(Ok, token, key));
    assert s1 == s.(pass := s.pass.(pc := KeepSecret));
    SecretIsKept(s1, token, key);
    assert Undisturbed(s, 3, token, key) == Undisturbed(s1, 2, token, key);
  }

  /** A key with its Secret is brought up to date by an undisturbed pass: the hash of the spec
      is recorded, and nothing else changes. */
  lemma HealthyKeyIsUpdated(s: State, token: string, key: string)
    requires AboutTo(s, Start) && s.store.latest.token != ""
    requires s.store.latest.secretRef != "" && s.store.latest.secretRef in s.secrets
    ensures var k := s.store.latest;
      var current := k.syncHash == Some(k.spec.payload);
      var r := Undisturbed(s, if current then 5 else 7, token, key);
      r.store.latest == k.(syncHash := Some(k.spec.payload)) && r.secrets == s.secrets && r.minted == s.minted
  {
    FindsSecret(s, token, key);
    var s2 := s.(pass := s.pass.(pc := ComparePushed));
    if s.store.latest.syncHash == Some(s.store.latest.spec.payload) {
      CurrentIsKept(s2, token, key);
      UndisturbedAdds(s, 2, 3, token, key);
    } else {
      UpdateIsRecorded(s2, token, key);
      UndisturbedAdds(s, 2, 5, token, key);
    }
  }

  /** A call that fails changes nothing and leaves only the closing status write; but an orphan
      that cannot be deleted does not stop the rotation. */
  lemma FailedCalls(s: State, token: string, key: string)
    ensures s.pass.pc in {Start, CheckSecret, Pc.Mint, WriteSecret, PushUpdate} ==>
      Apply(s, Step(Fail, token, key)) == s.(pass := s.pass.(pc := FinalStatus))
    ensures s.pass.pc == DropOrphan ==> Apply(s, Step(Fail, token, key)) == Apply(s, Step(Ok, token, key))
  {
  }

  /** A status write of a mint that fails is made up for by the one that ends the pass. */
  lemma FailedRecordIsRetried(s: State, token: string, key: string)
    requires s.pass.pc == RecordMint && s.pass.readAt == s.store.rv
    ensures var r := Apply(Apply(s, Step(Fail, token, key)), Step(Ok, token, key));
      && r.store.latest == s.store.latest.(token := s.pass.local.token, secretRef := s.pass.local.secretRef)
      && r.pass.pc == Done && r.secrets == s.secrets && r.minted == s.minted
  {
  }

  /** Config sync on a vanished key: the token goes and the hash, and the Secret stays pinned;
      on a drifted one just the hash. */
  lemma SyncClearsExactly(s: State, sid: nat, vanished: bool)
    requires sid !in s.syncs && s.store.latest in s.store.history
    ensures var begun := Apply(s, BeginSync(sid, s.store.latest, s.store.rv, vanished));
      var once := Apply(begun, StepSync(sid, Ok));
      var r := if vanished then Apply(once, StepSync(sid, Ok)) else once;
      && r.store.latest == s.store.latest.(token := if vanished then "" else s.store.latest.token, syncHash := None)
      && r.secrets == s.secrets && r.minted == s.minted && r.pass == s.pass && r.syncs == s.syncs
  {
    var begun := Apply(s, BeginSync(sid, s.store.latest, s.store.rv, vanished));
    assert begun.syncs - {sid} == s.syncs;
    var once := Apply(begun, StepSync(sid, Ok));
    if vanished {
      assert once.store.latest == s.store.latest.(token := "");
      assert once.syncs - {sid} == s.syncs;
    }
  }

  // An example: a key is minted into Secret "s" and recorded, the Secret is deleted, and
  // the next pass mints another key into a new Secret of the same name.

  const UNMINTED := Key(Spec("s", "p"), None, "", "")
  const RECORDED := Key(Spec("s", "p"), None, "t1", "s")
  const GO := Step(Ok, "", "")

  function ExampleState(st: Store<Key>, secrets: map<string, string>, minted: map<string, string>, p: Pass): State {
    State("vk", st, secrets, minted, p, map[], false)
  }

  function Unbound(): State {
    ExampleState(Store(0, UNMINTED, {UNMINTED}), map[], map[], Pass(Done, 0, UNMINTED, None))
  }

  function InFlight(): State {
    ExampleState(Store(0, UNMINTED, {UNMINTED}), map[], map["t1" := "k1"],
                 Pass(WriteSecret, 0, UNMINTED, Some(Mint.Mint("t1", "k1", "s"))))
  }

  function SecretGone(p: Pass): State {
    ExampleState(Store(1, RECORDED, {UNMINTED, RECORDED}), map[], map["t1" := "k1"], p)
  }

  function Rotated(): State {
    ExampleState(Store(1, RECORDED, {UNMINTED, RECORDED}), map["s" := "k2"], map["t1" := "k1", "t2" := "k2"],
                 Pass(RecordMint, 1, UNMINTED.(token := "t2", secretRef := "s"), Some(Mint.Mint("t2", "k2", "s"))))
  }

  lemma ExampleMints()
    ensures Run(Unbound(), [BeginPass(UNMINTED, 0), GO, Step(Ok, "t1", "k1")]) == InFlight()
  {
    var s1 := Unbound().(pass := Pass(Start, 0, UNMINTED, None));
    var s2 := s1.(pass := Pass(Pc.Mint, 0, UNMINTED, None));
    RunThree(Unbound(), BeginPass(UNMINTED, 0), s1, GO, s2, Step(Ok, "t1", "k1"), InFlight());
  }

  lemma ExampleRecords()
    ensures Run(InFlight(), [GO, GO, DeleteSecret("s")]) ==
            SecretGone(Pass(RecordHash, 1, RECORDED, Some(Mint.Mint("t1", "k1", "s"))))
  {
    var p := Pass(RecordHash, 1, RECORDED, Some(Mint.Mint("t1", "k1", "s")));
    var s1 := InFlight().(secrets := map["s" := "k1"], pass := p.(pc := RecordMint, readAt := 0));
    assert Apply(InFlight(), GO) == s1;
    var s2 := SecretGone(p).(secrets := map["s" := "k1"]);
    assert Apply(s1, GO) == s2 by {
      assert Persist(s1.store, RECORDED) == s2.store;
    }
    assert s2.secrets - {"s"} == map[];
    RunThree(InFlight(), GO, s1, GO, s2, DeleteSecret("s"), SecretGone(p));
  }

  lemma ExampleFindsSecretGone(p: Pass)
    requires !Pending(p)
    ensures Run(SecretGone(p), [BeginPass(RECORDED, 1), GO, GO]) == SecretGone(Pass(DropOrphan, 1, RECORDED, None))
  {
    var q := Pass(Start, 1, RECORDED, None);
    RunThree(SecretGone(p), BeginPass(RECORDED, 1), SecretGone(q), GO, SecretGone(q.(pc := CheckSecret)),
             GO, SecretGone(q.(pc := DropOrphan)));
  }

  lemma ExampleRotates()
    ensures Run(SecretGone(Pass(DropOrphan, 1, RECORDED, None)), [GO, Step(Ok, "t2", "k2"), GO]) == Rotated()
  {
    var s0 := SecretGone(Pass(DropOrphan, 1, RECORDED, None));
    var s1 := s0.(pass := Pass(Pc.Mint, 1, UNMINTED, None));
    var s2 := s1.(minted := map["t1" := "k1", "t2" := "k2"],
                  pass := Pass(WriteSecret, 1, UNMINTED, Some(Mint.Mint("t2", "k2", "s"))));
    assert Apply(s1, Step(Ok, "t2", "k2")) == s2;
    RunThree(s0, GO, s1, Step(Ok, "t2", "k2"), s2, GO, Rotated());
  }

  lemma RotatedIsReached()
    ensures exists actions :: Run(Unbound(), actions) == Rotated()
  {
    var p := Pass(RecordHash, 1, RECORDED, Some(Mint.Mint("t1", "k1", "s")));
    ExampleMints();
    ExampleRecords();
    ExampleFindsSecretGone(p);
    ExampleRotates();
    RunFour(Unbound(), [BeginPass(UNMINTED, 0), GO, Step(Ok, "t1", "k1")],
            InFlight(), [GO, GO, DeleteSecret("s")],
            SecretGone(p), [BeginPass(RECORDED, 1), GO, GO],
            SecretGone(Pass(DropOrphan, 1, RECORDED, None)), [GO, Step(Ok, "t2", "k2"), GO],
            Rotated());
  }

  lemma RotatedLoses()
    ensures var r := Apply(Rotated(), BeginPass(RECORDED, 1)); r.lost && !Agreement(r)
  {
    var r := Apply(Rotated(), BeginPass(RECORDED, 1));
    assert r.minted["t1"] == "k1" && r.secrets["s"] == "k2";
  }

  /** The lost write that matters does happen: a deleted Secret is rotated into a new
      Secret of the same name, and the process dies before recording the new token. */
  lemma RotationCanOutrunTheStatus()
    ensures Init(Unbound()) && exists actions :: Run(Unbound(), actions) == Rotated()
    ensures var r := Apply(Rotated(), BeginPass(RECORDED, 1)); r.lost && !Agreement(r)
  {
    RotatedIsReached();
    RotatedLoses();
  }
}
