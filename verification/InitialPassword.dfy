/** reconcileInitialPassword (internal/controller/litellmuser_controller.go) as a protocol: a
    password is sent when the digest in status does not match it, and the digest is then
    recorded by a patch, or else by the status write that ends the pass.

    Passes over one CR do not overlap, so there is one thread. Its steps interleave with
    edits of the spec and of the Secret, with other writers of the CR and with what becomes
    of the user in LiteLLM; any call may fail, any read of the CR may be stale, and a pass
    may end after any step. */
module InitialPassword {
  import opened Versioned
  import opened ByteStrings
  import opened PasswordDigest

  /** passwordDigest and passwordMatchesDigest. */
  datatype Hashing = Hashing(digest: (Bytes, Bytes) -> string, matches: (string, Bytes) -> bool)

  function Argon(kdf: Kdf): Hashing {
    Hashing((password, salt) => Digest(kdf, password, salt), (digest, password) => Matches(kdf, digest, password))
  }

  /** Where the pass is: it has read the CR, or the Secret; the password was accepted; its
      digest is made but could not be patched in; only the status write is left. */
  datatype Pc = Idle | HasCr | HasSecret | Accepted | Unsaved | Ending

  /** `field` and `digest` are those of the in-memory object, read at version `readAt`. */
  datatype Thread = Thread(pc: Pc, field: bool, digest: string, readAt: nat, password: Bytes)

  /** What the operator did about the user's password: one was accepted by LiteLLM, or the
      record of it was dropped because the field was unset. */
  datatype Entry = Applied(password: Bytes) | Cleared

  /** `field` is whether the CR has spec.initialPasswordSecretRef, `secret` the value it
      points to; `digest` is the persisted status.initialPasswordDigest and `rv` the
      version of the CR; `user` is the password LiteLLM holds for the user. */
  datatype State = State(
    field: bool,
    secret: Option<Bytes>,
    digest: string,
    rv: nat,
    user: Option<Bytes>,
    th: Thread,
    log: seq<Entry>)

  datatype Action =
    | Start(seen: string, seenField: bool, at: nat)
    | FetchSecret(ok: bool)
    | SendPassword(outcome: Outcome)
    | RecordDigest(salt: Option<Bytes>, outcome: Outcome)
    | EndPass(outcome: Outcome)
    | Crash
    | EditField(present: bool)
    | EditSecret(value: Option<Bytes>)
    | OtherWrite
    | ChangePassword(chosen: Bytes) // the user does, in the Admin UI
    | UserRecreated                // config sync clears the id of a vanished user, and a new one is made

  const REST := Thread(Idle, false, "", 0, [])

  ghost predicate Init(s: State) {
    s.digest == "" && s.th == REST && s.log == []
  }

  /** A read of the CR can give this: the latest version, or an older one. */
  predicate CanSee(s: State, seen: string, seenField: bool, at: nat) {
    at <= s.rv && (at == s.rv ==> seen == s.digest && seenField == s.field)
  }

  function DoStart(s: State, seen: string, seenField: bool, at: nat): State {
    if s.th.pc != Idle || !CanSee(s, seen, seenField, at) then s
    else s.(th := if seenField then Thread(HasCr, true, seen, at, []) else Thread(Ending, false, "", at, []))
  }

  function DoFetchSecret(s: State, ok: bool): State {
    if s.th.pc != HasCr then s
    else if !ok || s.secret.None? || s.secret.value == [] then s.(th := s.th.(pc := Ending))
    else s.(th := s.th.(pc := HasSecret, password := s.secret.value))
  }

  /** Only an answer of success counts as accepted. */
  function DoSendPassword(h: Hashing, s: State, o: Outcome): State {
    var p := s.th.password;
    if s.th.pc != HasSecret then s
    else if h.matches(s.th.digest, p) then s.(th := s.th.(pc := Ending))
    else
      s.(th := s.th.(pc := if o == Ok then Accepted else Ending),
         log := if o == Ok then s.log + [Applied(p)] else s.log,
         user := if o == Fail then s.user else Some(p))
  }

  /** The merge patch, which no other write can make fail. Without a salt there is no
      digest to record. */
  function DoRecordDigest(h: Hashing, s: State, salt: Option<Bytes>, o: Outcome): State {
    if s.th.pc != Accepted then s
    else if salt.None? then s.(th := s.th.(pc := Ending))
    else
      var d := h.digest(s.th.password, salt.value);
      var th := s.th.(pc := if o == Fail then Unsaved else Ending, digest := d);
      if o == Fail then s.(th := th)
      else s.(digest := d, rv := s.rv + 1, th := if o == Ok then th.(readAt := s.rv + 1) else th)
  }

  /** The status write that ends every pass, or its conflict. */
  function DoEndPass(s: State, o: Outcome): State {
    if s.th.pc != Ending && s.th.pc != Unsaved then s
    else if o != Fail && s.th.readAt == s.rv then
      s.(digest := s.th.digest, rv := s.rv + 1, th := REST,
         log := if s.th.field then s.log else s.log + [Cleared])
    else s.(th := REST)
  }

  function Apply(h: Hashing, s: State, a: Action): State {
    match a
    case Start(seen, seenField, at) => DoStart(s, seen, seenField, at)
    case FetchSecret(ok) => DoFetchSecret(s, ok)
    case SendPassword(o) => DoSendPassword(h, s, o)
    case RecordDigest(salt, o) => DoRecordDigest(h, s, salt, o)
    case EndPass(o) => DoEndPass(s, o)
    case Crash => s.(th := REST)
    case EditField(present) => s.(field := present, rv := s.rv + 1)
    case EditSecret(value) => s.(secret := value)
    case OtherWrite => s.(rv := s.rv + 1)
    case ChangePassword(chosen) => s.(user := Some(chosen))
    case UserRecreated => s.(user := None, rv := s.rv + 1)
  }

  function Run(h: Hashing, s: State, actions: seq<Action>): State {
    if actions == [] then s else Apply(h, Run(h, s, actions[..|actions| - 1]), actions[|actions| - 1])
  }

  // ---- What the protocol needs of the digest ----

  /** A digest matches the password it was made from, and no digest matches none. */
  ghost predicate Faithful(h: Hashing) {
    && (forall p, salt :: h.matches(h.digest(p, salt), p))
    && forall p :: !h.matches("", p)
  }

  ghost predicate KeysHaveLength(kdf: Kdf) {
    forall p, salt :: |kdf(p, salt)| == KEY_LENGTH
  }

  lemma ArgonIsFaithful(kdf: Kdf)
    requires KeysHaveLength(kdf)
    ensures Faithful(Argon(kdf))
  {
    var h := Argon(kdf);
    forall p, salt
      ensures h.matches(h.digest(p, salt), p)
    {
      DigestMatchesExactly(kdf, p, salt, p);
    }
  }

  // ---- A password is applied once ----

  function Last(log: seq<Entry>): Option<Bytes> {
    if log == [] || log[|log| - 1].Cleared? then None else Some(log[|log| - 1].password)
  }

  /** No password is applied twice in a row. */
  ghost predicate NoRepeat(log: seq<Entry>) {
    forall i :: 0 < i < |log| && log[i].Applied? ==> log[i - 1] != log[i]
  }

  /** The digest `d` is that of the last password applied, if any. */
  ghost predicate Covers(h: Hashing, d: string, log: seq<Entry>) {
    Last(log).Some? ==> h.matches(d, Last(log).value)
  }

  /** `seen` matches whatever the persisted digest matches, as the persisted one itself does:
      acting on it is as good. */
  ghost predicate ReadsBack(h: Hashing, digest: string, seen: string) {
    forall p :: h.matches(digest, p) ==> h.matches(seen, p)
  }

  /** The pass ends, or gives up recording, with an accepted password that the persisted
      digest does not match. */
  predicate Loses(h: Hashing, s: State, a: Action) {
    && s.th.pc in {Accepted, Unsaved} && !h.matches(s.digest, s.th.password)
    && (|| a.Crash?
        || (a.RecordDigest? && s.th.pc == Accepted && a.salt.None?)
        || (a.EndPass? && s.th.pc == Unsaved && (a.outcome == Fail || s.th.readAt != s.rv)))
  }

  /** A step whose read of the CR, if it is one, is of the latest version or of one whose
      digest is as good, and that loses no accepted password. */
  ghost predicate Orderly(h: Hashing, s: State, a: Action) {
    && (a.Start? ==> a.at == s.rv || ReadsBack(h, s.digest, a.seen))
    && !Loses(h, s, a)
  }

  ghost predicate OrderlyRun(h: Hashing, s: State, actions: seq<Action>) {
    actions == [] ||
    (&& OrderlyRun(h, s, actions[..|actions| - 1])
     && Orderly(h, Run(h, s, actions[..|actions| - 1]), actions[|actions| - 1]))
  }

  /** The thread's copy of the CR: current if its version is, and read back while it counts. */
  ghost predicate ThreadOk(h: Hashing, s: State) {
    var th := s.th;
    && th.readAt <= s.rv
    && (th.pc in {HasCr, HasSecret, Accepted, Unsaved} ==> th.field)
    && (th.pc in {HasCr, HasSecret} ==> ReadsBack(h, s.digest, th.digest))
    && (th.pc == Unsaved ==> h.matches(th.digest, th.password))
    && (th.pc != Idle && th.readAt == s.rv && s.field ==> th.field)
    && (th.pc != Idle && th.pc != Unsaved && th.field && th.readAt == s.rv ==> th.digest == s.digest)
  }

  ghost predicate Inv(h: Hashing, s: State) {
    && NoRepeat(s.log) && ThreadOk(h, s)
    && if s.th.pc in {Accepted, Unsaved} then Last(s.log) == Some(s.th.password) else Covers(h, s.digest, s.log)
  }

  lemma SendKeepsInv(h: Hashing, s: State, o: Outcome)
    requires Inv(h, s)
    ensures Inv(h, DoSendPassword(h, s, o))
  {
  }

  lemma RecordKeepsInv(h: Hashing, s: State, salt: Option<Bytes>, o: Outcome)
    requires Faithful(h) && Inv(h, s) && !Loses(h, s, RecordDigest(salt, o))
    ensures Inv(h, DoRecordDigest(h, s, salt, o))
  {
  }

  lemma EndKeepsInv(h: Hashing, s: State, a: Action)
    requires Inv(h, s) && (a.EndPass? || a.Crash?) && !Loses(h, s, a)
    ensures Inv(h, Apply(h, s, a))
  {
  }

  /** The reads, and what others do. */
  lemma OtherKeepsInv(h: Hashing, s: State, a: Action)
    requires Inv(h, s) && Orderly(h, s, a) && !(a.SendPassword? || a.RecordDigest? || a.EndPass? || a.Crash?)
    ensures Inv(h, Apply(h, s, a))
  {
  }

  lemma ApplyKeepsInv(h: Hashing, s: State, a: Action)
    requires Faithful(h) && Inv(h, s) && Orderly(h, s, a)
    ensures Inv(h, Apply(h, s, a))
  {
    match a
    case SendPassword(o) => SendKeepsInv(h, s, o);
    case RecordDigest(salt, o) => RecordKeepsInv(h, s, salt, o);
    case EndPass(o) => EndKeepsInv(h, s, a);
    case Crash => EndKeepsInv(h, s, a);
    case _ => OtherKeepsInv(h, s, a);
  }

  lemma {:induction false} RunKeepsInv(h: Hashing, s: State, actions: seq<Action>)
    requires Faithful(h) && Inv(h, s) && OrderlyRun(h, s, actions)
    ensures Inv(h, Run(h, s, actions))
    decreases |actions|
  {
    if actions != [] {
      RunKeepsInv(h, s, actions[..|actions| - 1]);
      ApplyKeepsInv(h, Run(h, s, actions[..|actions| - 1]), actions[|actions| - 1]);
    }
  }

  /** In every orderly run a password is applied again only after another one was applied or
      the field was unset. */
  lemma AppliedOnce(h: Hashing, s: State, actions: seq<Action>)
    requires Faithful(h) && Init(s) && OrderlyRun(h, s, actions)
    ensures NoRepeat(Run(h, s, actions).log)
  {
    RunKeepsInv(h, s, actions);
  }

  // ---- Stretches ----

  /** A stretch of a run: neither the field nor the Secret is edited. */
  ghost predicate Stretch(actions: seq<Action>) {
    forall i :: 0 <= i < |actions| ==> !actions[i].EditField? && !actions[i].EditSecret?
  }

  /** What the pass in flight is about to send. */
  function InHand(s: State): Option<Bytes> {
    if s.th.pc == HasSecret then Some(s.th.password) else None
  }

  /** What a stretch with Secret value `p` may have applied since the log was `log`: another
      value `q` that the pass in flight had in hand, and then its own, once. */
  predicate Grown(now: seq<Entry>, log: seq<Entry>, q: Option<Bytes>, p: Bytes) {
    || now == log || now == log + [Applied(p)]
    || (q.Some? && q.value != p && (now == log + [Applied(q.value)] || now == log + [Applied(q.value)] + [Applied(p)]))
  }

  /** The pass in flight at the start of the stretch is still about to send `q`, or what is
      in hand is `p`. */
  ghost predicate Within(s: State, log: seq<Entry>, q: Option<Bytes>, p: Bytes) {
    && s.secret == Some(p) && s.field
    && Grown(s.log, log, q, p)
    && (InHand(s).Some? ==> InHand(s).value == p || (InHand(s) == q && s.log == log))
  }

  lemma TwiceIsARepeat(log: seq<Entry>, p: Bytes)
    ensures !NoRepeat(log + [Applied(p)] + [Applied(p)])
  {
    var twice := log + [Applied(p)] + [Applied(p)];
    assert twice[|log|] == twice[|log| + 1] == Applied(p);
  }

  lemma GrowsOnce(now: seq<Entry>, log: seq<Entry>, q: Option<Bytes>, p: Bytes)
    requires Grown(now, log, q, p) && NoRepeat(now + [Applied(p)])
    ensures Grown(now + [Applied(p)], log, q, p)
  {
    TwiceIsARepeat(log, p);
    if q.Some? {
      TwiceIsARepeat(log + [Applied(q.value)], p);
    }
  }

  lemma StretchStep(h: Hashing, s: State, a: Action, log: seq<Entry>, q: Option<Bytes>, p: Bytes)
    requires Within(s, log, q, p) && ThreadOk(h, s) && NoRepeat(Apply(h, s, a).log)
    requires !a.EditField? && !a.EditSecret?
    ensures Within(Apply(h, s, a), log, q, p)
  {
    if a.SendPassword? && s.th.pc == HasSecret && s.th.password == p && Apply(h, s, a).log != s.log {
      GrowsOnce(s.log, log, q, p);
    }
  }

  /** A whole orderly stretch applies its Secret's value at most once, however many passes and
      failures, and nothing else but what a pass in flight had in hand. */
  lemma {:induction false} OncePerStretch(h: Hashing, s: State, actions: seq<Action>, p: Bytes)
    requires Faithful(h) && Inv(h, s) && s.field && s.secret == Some(p)
    requires Stretch(actions) && OrderlyRun(h, s, actions)
    ensures var t := Run(h, s, actions); Inv(h, t) && Within(t, s.log, InHand(s), p)
    decreases |actions|
  {
    if actions != [] {
      var n := |actions| - 1;
      var r := Run(h, s, actions[..n]);
      OncePerStretch(h, s, actions[..n], p);
      ApplyKeepsInv(h, r, actions[n]);
      StretchStep(h, r, actions[n], s.log, InHand(s), p);
    }
  }

  // ---- The user's own password ----

  /** What the user's password would be if the operator did nothing. */
  function LeftAlone(user: Option<Bytes>, actions: seq<Action>): Option<Bytes> {
    if actions == [] then user
    else
      var a := actions[|actions| - 1];
      if a.ChangePassword? then Some(a.chosen)
      else if a.UserRecreated? then None
      else LeftAlone(user, actions[..|actions| - 1])
  }

  /** The operator has nothing to send. */
  ghost predicate Resting(h: Hashing, s: State, p: Bytes) {
    && s.secret == Some(p) && s.field && h.matches(s.digest, p)
    && s.th.pc !in {Accepted, Unsaved} && ThreadOk(h, s)
    && (s.th.pc == HasSecret ==> s.th.password == p)
  }

  lemma RestingStep(h: Hashing, s: State, a: Action, p: Bytes)
    requires Resting(h, s, p) && Orderly(h, s, a) && !a.EditField? && !a.EditSecret?
    ensures var t := Apply(h, s, a);
      && Resting(h, t, p) && t.log == s.log
      && t.user == if a.ChangePassword? then Some(a.chosen) else if a.UserRecreated? then None else s.user
  {
  }

  /** Once the digest of the Secret's value is recorded, orderly passes leave the user's
      password alone for as long as the field and the Secret stay as they are: one changed in
      the Admin UI is kept, and a user that vanished and was made again is not given any. */
  lemma {:induction false} MatchedDigestSendsNothing(h: Hashing, s: State, actions: seq<Action>, p: Bytes)
    requires Resting(h, s, p) && Stretch(actions) && OrderlyRun(h, s, actions)
    ensures var t := Run(h, s, actions);
      Resting(h, t, p) && t.log == s.log && t.user == LeftAlone(s.user, actions)
    decreases |actions|
  {
    if actions != [] {
      var n := |actions| - 1;
      MatchedDigestSendsNothing(h, s, actions[..n], p);
      RestingStep(h, Run(h, s, actions[..n]), actions[n], p);
    }
  }

  // ---- When a password is sent again ----

  lemma RunThree(h: Hashing, s: State, a: Action, b: Action, c: Action)
    ensures Run(h, s, [a, b, c]) == Apply(h, Apply(h, Apply(h, s, a), b), c)
  {
    assert [a, b, c][..2] == [a, b] && [a, b][..1] == [a] && [a][..0] == [];
    assert Run(h, s, [a]) == Apply(h, s, a);
    assert Run(h, s, [a, b]) == Apply(h, Apply(h, s, a), b);
  }

  function Sending(seen: string, at: nat): seq<Action> {
    [Start(seen, true, at), FetchSecret(true), SendPassword(Ok)]
  }

  /** A pass without failures sends the password exactly when the digest it read, whichever
      version that was of, does not match it. */
  lemma SentExactlyWhenUnmatched(h: Hashing, s: State, seen: string, at: nat, p: Bytes)
    requires s.th.pc == Idle && CanSee(s, seen, true, at) && s.secret == Some(p) && p != []
    ensures var t := Run(h, s, Sending(seen, at));
      && t.log == s.log + (if h.matches(seen, p) then [] else [Applied(p)])
      && t.user == (if h.matches(seen, p) then s.user else Some(p))
      && t.th == Thread(if h.matches(seen, p) then Ending else Accepted, true, seen, at, p)
      && t == s.(log := t.log, user := t.user, th := t.th)
  {
    RunThree(h, s, Start(seen, true, at), FetchSecret(true), SendPassword(Ok));
  }

  lemma {:induction false} RunAppend(h: Hashing, s: State, first: seq<Action>, second: seq<Action>)
    ensures Run(h, s, first + second) == Run(h, Run(h, s, first), second)
    decreases |second|
  {
    if second == [] {
      assert first + second == first;
    } else {
      var n := |second| - 1;
      assert (first + second)[..|first| + n] == first + second[..n];
      RunAppend(h, s, first, second[..n]);
    }
  }

  lemma RepeatsOnlyLast(log: seq<Entry>, p: Bytes)
    requires NoRepeat(log)
    ensures NoRepeat(log + [Applied(p)]) <==> Last(log) != Some(p)
  {
    var log' := log + [Applied(p)];
    if Last(log) == Some(p) {
      assert log'[|log| - 1] == log'[|log|] == Applied(p);
    }
  }

  /** What being orderly shuts out, for every state an orderly run reaches. A read: when `p`
      was applied last, a pass without failures repeats it exactly when the digest it read
      does not match it, which is only so if the read is not orderly. */
  lemma ReadRepeatsExactly(h: Hashing, s: State, seen: string, at: nat, p: Bytes)
    requires Inv(h, s) && s.th.pc == Idle && CanSee(s, seen, true, at) && s.secret == Some(p) && p != []
    requires Last(s.log) == Some(p)
    ensures !NoRepeat(Run(h, s, Sending(seen, at)).log) <==> !h.matches(seen, p)
    ensures Orderly(h, s, Start(seen, true, at)) ==> h.matches(seen, p)
  {
    SentExactlyWhenUnmatched(h, s, seen, at, p);
    RepeatsOnlyLast(s.log, p);
    assert s.log + [] == s.log;
  }

  /** A loss: when the pass that had `p` accepted records it, ends or gives up, an undisturbed
      pass over the latest version repeats it exactly when that step loses it. */
  lemma LossRepeatsExactly(h: Hashing, s: State, a: Action, p: Bytes)
    requires Faithful(h) && Inv(h, s) && s.field && s.secret == Some(p) && p != []
    requires s.th.password == p && (s.th.pc == Accepted || s.th.pc == Unsaved)
    requires || a.Crash? || (a.EndPass? && s.th.pc == Unsaved)
             || (a.RecordDigest? && s.th.pc == Accepted && (a.salt.None? || a.outcome != Fail))
    ensures var e := Apply(h, Apply(h, s, a), Crash);
      !NoRepeat(Run(h, e, Sending(e.digest, e.rv)).log) <==> Loses(h, s, a)
  {
    var e := Apply(h, Apply(h, s, a), Crash);
    SentExactlyWhenUnmatched(h, e, e.digest, e.rv, p);
    RepeatsOnlyLast(e.log, p);
    assert e.log + [] == e.log;
  }

  /** Both happen. A password that is accepted and not recorded is sent again: for every new
      user, a run with a pass that dies in between. */
  lemma UnrecordedIsSentAgain(h: Hashing, s: State, p: Bytes)
    requires Faithful(h) && Init(s) && s.field && s.secret == Some(p) && p != []
    ensures Run(h, s, Sending("", s.rv) + [Crash] + Sending("", s.rv)).log == [Applied(p), Applied(p)]
  {
    var send := Sending("", s.rv);
    SentExactlyWhenUnmatched(h, s, "", s.rv, p);
    var s1 := Run(h, s, send);
    RunAppend(h, s, send, [Crash]);
    assert [Crash][..0] == [];
    var s2 := Run(h, s, send + [Crash]);
    assert s2 == s1.(th := REST);
    SentExactlyWhenUnmatched(h, s2, "", s.rv, p);
    RunAppend(h, s, send + [Crash], send);
  }

  /** So is one that was recorded, when the next pass reads a version from before that. */
  lemma StaleReadSendsAgain(h: Hashing, s: State, p: Bytes, salt: Bytes)
    requires Faithful(h) && Init(s) && s.field && s.secret == Some(p) && p != []
    ensures var t := Run(h, s, Sending("", s.rv) + [RecordDigest(Some(salt), Ok), Crash] + Sending("", s.rv));
      t.log == [Applied(p), Applied(p)] && h.matches(t.digest, p)
  {
    var send, rest := Sending("", s.rv), [RecordDigest(Some(salt), Ok), Crash];
    SentExactlyWhenUnmatched(h, s, "", s.rv, p);
    var s1 := Run(h, s, send);
    RunAppend(h, s, send, rest);
    assert rest[..1] == [RecordDigest(Some(salt), Ok)] && rest[..1][..0] == [];
    assert Run(h, s1, rest[..1]) == Apply(h, s1, RecordDigest(Some(salt), Ok));
    var s3 := Run(h, s, send + rest);
    assert s3 == Apply(h, s1, RecordDigest(Some(salt), Ok)).(th := REST);
    SentExactlyWhenUnmatched(h, s3, "", s.rv, p);
    RunAppend(h, s, send + rest, send);
  }

  /** A user that was made again gets the password exactly when the digest the pass reads
      does not match it, so not while the field and the Secret are as they were. */
  lemma RecreatedUserGetsPasswordExactly(h: Hashing, s: State, p: Bytes)
    requires s.th.pc == Idle && s.field && s.secret == Some(p) && p != []
    ensures var again := Apply(h, s, UserRecreated);
      var t := Run(h, again, Sending(s.digest, again.rv));
      t.user == Some(p) <==> !h.matches(s.digest, p)
  {
    var again := Apply(h, s, UserRecreated);
    SentExactlyWhenUnmatched(h, again, s.digest, again.rv, p);
  }
}
