/** What the steps of reconcileInitialPassword come to on their own: a password recorded, a
    digest forgotten, nothing to send, and calls that fail. */
module InitialPasses {
  import opened Versioned
  import opened ByteStrings
  import opened InitialPassword

  lemma RunTwo(h: Hashing, s: State, a: Action, b: Action)
    ensures Run(h, s, [a, b]) == Apply(h, Apply(h, s, a), b)
  {
    assert [a, b][..1] == [a] && [a][..0] == [];
    assert Run(h, s, [a]) == Apply(h, s, a);
  }

  /** A pass that had the password accepted leaves a digest that matches it, whether the patch
      or the write that ends the pass records it. */
  lemma AcceptedIsRecorded(h: Hashing, s: State, salt: Bytes, patched: bool)
    requires Faithful(h) && s.th.pc == Accepted && s.th.readAt == s.rv && s.th.field
    ensures var r := Run(h, s, [RecordDigest(Some(salt), if patched then Ok else Fail), EndPass(Ok)]);
      && r.digest == h.digest(s.th.password, salt) && h.matches(r.digest, s.th.password)
      && r.log == s.log && r.user == s.user && r.th == REST && r.rv == s.rv + (if patched then 2 else 1)
  {
    RunTwo(h, s, RecordDigest(Some(salt), if patched then Ok else Fail), EndPass(Ok));
  }

  /** A Secret that cannot be read or a password that is refused leaves everything as it was; a
      refusal reported after the fact has changed the user's password and nothing else. */
  lemma FailedCalls(h: Hashing, s: State)
    ensures s.th.pc == HasCr ==> Apply(h, s, FetchSecret(false)) == s.(th := s.th.(pc := Ending))
    ensures s.th.pc == HasSecret ==> Apply(h, s, SendPassword(Fail)) == s.(th := s.th.(pc := Ending))
    ensures s.th.pc == HasSecret && !h.matches(s.th.digest, s.th.password) ==>
      Apply(h, s, SendPassword(Lost)) == s.(th := s.th.(pc := Ending), user := Some(s.th.password))
  {
  }

  /** Without the Secret, or with an empty value, nothing is sent and the digest stays. */
  lemma NothingToSend(h: Hashing, s: State, seen: string, at: nat)
    requires s.th.pc == Idle && CanSee(s, seen, true, at) && (s.secret == None || s.secret == Some([]))
    ensures var r := Run(h, s, Sending(seen, at));
      && r == s.(th := Thread(Ending, true, seen, at, []))
      && (at == s.rv ==> Apply(h, r, EndPass(Ok)).digest == s.digest)
  {
    RunThree(h, s, Start(seen, true, at), FetchSecret(true), SendPassword(Ok));
  }

  /** Without the field, a pass over the latest version forgets the digest, so that the password
      is sent again once the field is back. */
  lemma UnsetFieldForgets(h: Hashing, s: State)
    requires s.th.pc == Idle && !s.field
    ensures var r := Run(h, s, [Start(s.digest, false, s.rv), EndPass(Ok)]);
      r == s.(digest := "", rv := s.rv + 1, th := REST, log := s.log + [Cleared])
  {
    RunTwo(h, s, Start(s.digest, false, s.rv), EndPass(Ok));
  }
}
