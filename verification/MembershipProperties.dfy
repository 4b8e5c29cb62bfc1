/** What repeated membership passes promise: a pass without failures reaches its goal and a
    second one has nothing to do, and members the CR never listed are safe from every run
    that stays out of crd mode. */
module MembershipProperties {
  import opened Sequences
  import opened Versioned
  import opened TeamMembers

  // ---- One pass without failures ----

  ghost predicate Distinct(ms: seq<Member>) {
    forall i, j :: 0 <= i < j < |ms| ==> ms[i].email != ms[j].email
  }

  ghost predicate NoFailures(fails: nat -> bool) {
    forall n: nat :: !fails(n)
  }

  lemma EmailsSnoc(ms: seq<Member>, m: Member)
    ensures Emails(ms + [m]) == Emails(ms) + {m.email}
  {
  }

  lemma {:induction false} EmailsOfExcept(ms: seq<Member>, emails: set<string>)
    ensures Emails(Except(ms, emails)) == Emails(ms) - emails
    decreases |ms|
  {
    if ms != [] {
      var n := |ms| - 1;
      EmailsOfExcept(ms[..n], emails);
      assert ms == ms[..n] + [ms[n]];
      EmailsSnoc(ms[..n], ms[n]);
      if ms[n].email in emails {
        assert Except(ms, emails) == Except(ms[..n], emails);
      } else {
        assert Except(ms, emails) == Except(ms[..n], emails) + [ms[n]];
        EmailsSnoc(Except(ms[..n], emails), ms[n]);
      }
    }
  }

  lemma {:induction false} ExceptAppend(a: seq<Member>, b: seq<Member>, emails: set<string>)
    ensures Except(a + b, emails) == Except(a, emails) + Except(b, emails)
    decreases |b|
  {
    if b == [] {
      assert a + b == a;
    } else {
      var n := |b| - 1;
      ExceptAppend(a, b[..n], emails);
      assert (a + b)[..|a + b| - 1] == a + b[..n];
    }
  }

  lemma {:induction false} ExceptTwice(ms: seq<Member>, a: set<string>, b: set<string>)
    ensures Except(Except(ms, a), b) == Except(ms, a + b)
    decreases |ms|
  {
    if ms != [] {
      var n := |ms| - 1;
      ExceptTwice(ms[..n], a, b);
      ExceptAppend(Except(ms[..n], a), if ms[n].email in a then [] else [ms[n]], b);
      assert Except([ms[n]], b) == if ms[n].email in b then [] else [ms[n]];
    }
  }

  lemma {:induction false} ExceptOthers(ms: seq<Member>, emails: set<string>)
    requires Emails(ms) !! emails
    ensures Except(ms, emails) == ms
    decreases |ms|
  {
    if ms != [] {
      var n := |ms| - 1;
      assert ms == ms[..n] + [ms[n]];
      EmailsSnoc(ms[..n], ms[n]);
      ExceptOthers(ms[..n], emails);
    }
  }

  /** Adding without failures appends what is missing. */
  lemma {:induction false} AddEachQuiet(u: Upstream, spec: seq<Member>, fails: nat -> bool)
    requires NoFailures(fails) && Distinct(spec)
    ensures AddEach(u, spec, Emails(u.members), fails).members == u.members + Except(spec, Emails(u.members))
    decreases |spec|
  {
    if spec != [] {
      var n := |spec| - 1;
      var actual, m := Emails(u.members), spec[n];
      AddEachQuiet(u, spec[..n], fails);
      var v := AddEach(u, spec[..n], actual, fails);
      if m.email !in actual {
        assert m.email !in Emails(v.members) by {
          EmailsOfExcept(spec[..n], actual);
          assert Emails(v.members) == actual + Emails(Except(spec[..n], actual));
        }
        assert v.members + [m] == u.members + (Except(spec[..n], actual) + [m]);
      }
    }
  }

  /** Removing without failures takes out the listed emails that are not to be kept. */
  lemma {:induction false} RemoveEachQuiet(u: Upstream, emails: seq<string>, keep: set<string>, fails: nat -> bool)
    requires NoFailures(fails)
    ensures RemoveEach(u, emails, keep, fails).members == Except(u.members, Elements(emails) - keep)
    decreases |emails|
  {
    if emails == [] {
      assert Elements(emails) - keep == {};
      ExceptOthers(u.members, {});
    } else {
      var n := |emails| - 1;
      RemoveEachQuiet(u, emails[..n], keep, fails);
      assert emails == emails[..n] + [emails[n]];
      assert Elements(emails) == Elements(emails[..n]) + {emails[n]};
      if emails[n] in keep {
        assert Elements(emails) - keep == Elements(emails[..n]) - keep;
      } else {
        ExceptTwice(u.members, Elements(emails[..n]) - keep, {emails[n]});
        assert Elements(emails) - keep == (Elements(emails[..n]) - keep) + {emails[n]};
      }
    }
  }

  /** Who a pass is to remove. */
  function ToRemove(spec: Spec, api: seq<Member>, former: set<string>): set<string> {
    if EffectiveMode(spec.mode) == "crd" then Emails(api) - Emails(spec.members)
    else if EffectiveMode(spec.mode) == "mixed" then former - Emails(spec.members)
    else {}
  }

  lemma RemovalElements(spec: Spec, api: seq<Member>, order: seq<string>, former: set<string>)
    requires Enumerates(order, former) && EffectiveMode(spec.mode) in {"crd", "mixed"}
    ensures Elements(RemovalList(spec, api, order)) - Emails(spec.members) == ToRemove(spec, api, former)
  {
    if EffectiveMode(spec.mode) == "crd" {
      assert Elements(EmailList(api)) == Emails(api) by {
        forall m | m in api
          ensures m.email in EmailList(api)
        {
          var i :| 0 <= i < |api| && api[i] == m;
          assert EmailList(api)[i] == m.email;
        }
      }
    }
  }

  /** A pass without failures leaves everyone it is not to remove, as they were, and then the
      spec members that were missing, in order. */
  lemma PassReachesGoal(u: Upstream, spec: Spec, order: seq<string>, former: set<string>, fails: nat -> bool)
    requires NoFailures(fails) && Distinct(spec.members) && Enumerates(order, former)
    requires EffectiveMode(spec.mode) in {"crd", "mixed"}
    ensures Changed(u, spec, order, fails).members ==
            Except(u.members, ToRemove(spec, u.members, former)) + Except(spec.members, Emails(u.members))
  {
    var v := AddEach(u, spec.members, Emails(u.members), fails);
    var gone, missing := ToRemove(spec, u.members, former), Except(spec.members, Emails(u.members));
    AddEachQuiet(u, spec.members, fails);
    RemovalElements(spec, u.members, order, former);
    RemoveEachQuiet(v, RemovalList(spec, u.members, order), Emails(spec.members), fails);
    ExceptAppend(u.members, missing, gone);
    EmailsOfExcept(spec.members, Emails(u.members));
    ExceptOthers(missing, gone);
  }

  lemma EmailsAppend(a: seq<Member>, b: seq<Member>)
    ensures Emails(a + b) == Emails(a) + Emails(b)
  {
  }

  /** Membership fixpoint: in crd mode the emails are those of the spec, in mixed mode those
      there were, without the former CRD members, and those of the spec. */
  lemma GoalEmails(u: Upstream, spec: Spec, order: seq<string>, former: set<string>, fails: nat -> bool)
    requires NoFailures(fails) && Distinct(spec.members) && Enumerates(order, former)
    requires EffectiveMode(spec.mode) in {"crd", "mixed"}
    ensures Emails(Changed(u, spec, order, fails).members) ==
      if EffectiveMode(spec.mode) == "crd" then Emails(spec.members)
      else Emails(u.members) - former + Emails(spec.members)
  {
    PassReachesGoal(u, spec, order, former, fails);
    var gone := ToRemove(spec, u.members, former);
    EmailsOfExcept(u.members, gone);
    EmailsOfExcept(spec.members, Emails(u.members));
    EmailsAppend(Except(u.members, gone), Except(spec.members, Emails(u.members)));
  }

  // ---- The second pass ----

  lemma {:induction false} AddEachNothing(u: Upstream, spec: seq<Member>, actual: set<string>, fails: nat -> bool)
    requires Emails(spec) <= actual
    ensures AddEach(u, spec, actual, fails) == u
    decreases |spec|
  {
    if spec != [] {
      var n := |spec| - 1;
      assert spec == spec[..n] + [spec[n]];
      EmailsSnoc(spec[..n], spec[n]);
      AddEachNothing(u, spec[..n], actual, fails);
    }
  }

  lemma {:induction false} RemoveEachNothing(u: Upstream, emails: seq<string>, keep: set<string>, fails: nat -> bool)
    requires Elements(emails) <= keep
    ensures RemoveEach(u, emails, keep, fails) == u
    decreases |emails|
  {
    if emails != [] {
      var n := |emails| - 1;
      assert emails == emails[..n] + [emails[n]];
      assert Elements(emails) == Elements(emails[..n]) + {emails[n]};
      RemoveEachNothing(u, emails[..n], keep, fails);
    }
  }

  lemma CrdStatusEmails(spec: seq<Member>)
    ensures StatusEmails(CrdStatus(spec)) == Emails(spec)
  {
    forall m | m in spec
      ensures m.email in StatusEmails(CrdStatus(spec))
    {
      var i :| 0 <= i < |spec| && spec[i] == m;
      assert CrdStatus(spec)[i] in CrdStatus(spec);
    }
  }

  lemma {:induction false} DistinctCount(ms: seq<Member>)
    requires Distinct(ms)
    ensures |Emails(ms)| == |ms|
    decreases |ms|
  {
    if ms != [] {
      var n := |ms| - 1;
      DistinctCount(ms[..n]);
      assert ms == ms[..n] + [ms[n]];
      EmailsSnoc(ms[..n], ms[n]);
    }
  }

  lemma {:induction false} DistinctExcept(ms: seq<Member>, emails: set<string>)
    requires Distinct(ms)
    ensures Distinct(Except(ms, emails))
    decreases |ms|
  {
    if ms != [] {
      var n := |ms| - 1;
      DistinctExcept(ms[..n], emails);
      EmailsOfExcept(ms[..n], emails);
      var e := Except(ms[..n], emails);
      assert forall i :: 0 <= i < |e| ==> e[i].email in Emails(e);
      assert forall x :: x in Emails(ms[..n]) ==> x != ms[n].email;
    }
  }

  lemma DistinctAppend(a: seq<Member>, b: seq<Member>)
    requires Distinct(a) && Distinct(b) && Emails(a) !! Emails(b)
    ensures Distinct(a + b)
  {
    assert forall i :: 0 <= i < |a| ==> a[i].email in Emails(a);
    assert forall i :: 0 <= i < |b| ==> b[i].email in Emails(b);
  }

  lemma GoalIsDistinct(u: Upstream, spec: Spec, order: seq<string>, former: set<string>, fails: nat -> bool)
    requires NoFailures(fails) && Distinct(spec.members) && Distinct(u.members) && Enumerates(order, former)
    requires EffectiveMode(spec.mode) in {"crd", "mixed"}
    ensures Distinct(Changed(u, spec, order, fails).members)
  {
    PassReachesGoal(u, spec, order, former, fails);
    var gone := ToRemove(spec, u.members, former);
    DistinctExcept(u.members, gone);
    DistinctExcept(spec.members, Emails(u.members));
    EmailsOfExcept(u.members, gone);
    EmailsOfExcept(spec.members, Emails(u.members));
    DistinctAppend(Except(u.members, gone), Except(spec.members, Emails(u.members)));
  }

  /** How many members are in or outside a set that they all cover. */
  lemma CountOthers(ms: seq<Member>, emails: set<string>)
    requires Distinct(ms) && emails <= Emails(ms)
    ensures |ms| == |emails| + |Except(ms, emails)|
  {
    DistinctCount(ms);
    DistinctExcept(ms, emails);
    DistinctCount(Except(ms, emails));
    EmailsOfExcept(ms, emails);
    assert Emails(ms) == emails + (Emails(ms) - emails);
  }

  /** A second pass over an unchanged spec makes no call, whatever would fail, and reports
      the number of members LiteLLM has. */
  lemma SecondPassIsIdle(u: Upstream, spec: Spec, order: seq<string>, former: set<string>, fails: nat -> bool,
                         order': seq<string>, fails': nat -> bool)
    requires NoFailures(fails) && Distinct(spec.members) && Distinct(u.members) && Enumerates(order, former)
    requires EffectiveMode(spec.mode) in {"crd", "mixed"}
    requires Enumerates(order', StatusEmails(Reported(u.members, spec).crd))
    ensures var v := Changed(u, spec, order, fails);
      && Changed(v, spec, order', fails') == v
      && Reported(v.members, spec).total == |v.members|
      && Reported(v.members, spec).crd == Reported(u.members, spec).crd
  {
    var v := Changed(u, spec, order, fails);
    var desired := Emails(spec.members);
    GoalEmails(u, spec, order, former, fails);
    GoalIsDistinct(u, spec, order, former, fails);
    AddEachNothing(v, spec.members, Emails(v.members), fails');
    CrdStatusEmails(spec.members);
    RemovalElements(spec, v.members, order', desired);
    RemoveEachNothing(v, RemovalList(spec, v.members, order'), desired, fails');
    CountOthers(v.members, desired);
    DistinctCount(spec.members);
    DistinctCount(v.members);
  }

  // ---- What becomes of a former member ----

  /** Every call to remove `e` fails; `fails` is asked by the number of calls made before. */
  ghost predicate RemovalFails(u: Upstream, emails: seq<string>, keep: set<string>, fails: nat -> bool, e: string) {
    forall i :: 0 <= i < |emails| && emails[i] == e ==> fails(RemoveEach(u, emails[..i], keep, fails).calls)
  }

  lemma {:induction false} RemovalSurvived(u: Upstream, emails: seq<string>, keep: set<string>,
                                           fails: nat -> bool, e: string)
    ensures e in Emails(RemoveEach(u, emails, keep, fails).members) <==>
            e in Emails(u.members) && (e in keep || RemovalFails(u, emails, keep, fails, e))
    decreases |emails|
  {
    if emails != [] {
      var n := |emails| - 1;
      var v := RemoveEach(u, emails[..n], keep, fails);
      RemovalSurvived(u, emails[..n], keep, fails, e);
      EmailsOfExcept(v.members, {emails[n]});
      RemovalFailsSnoc(u, emails, keep, fails, e);
    }
  }

  lemma RemovalFailsSnoc(u: Upstream, emails: seq<string>, keep: set<string>, fails: nat -> bool, e: string)
    requires emails != []
    ensures var n := |emails| - 1;
      RemovalFails(u, emails, keep, fails, e) <==>
        && RemovalFails(u, emails[..n], keep, fails, e)
        && (emails[n] == e ==> fails(RemoveEach(u, emails[..n], keep, fails).calls))
  {
    var n := |emails| - 1;
    assert forall i :: 0 <= i < n ==> emails[..n][i] == emails[i] && emails[..n][..i] == emails[..i];
  }

  lemma {:induction false} AddEachKeeps(u: Upstream, spec: seq<Member>, actual: set<string>,
                                        fails: nat -> bool, e: string)
    requires e !in Emails(spec)
    ensures e in Emails(AddEach(u, spec, actual, fails).members) <==> e in Emails(u.members)
    decreases |spec|
  {
    if spec != [] {
      var n := |spec| - 1;
      assert spec == spec[..n] + [spec[n]];
      EmailsSnoc(spec[..n], spec[n]);
      AddEachKeeps(u, spec[..n], actual, fails, e);
      EmailsSnoc(AddEach(u, spec[..n], actual, fails).members, spec[n]);
    }
  }

  /** A member outside the spec survives a mixed pass exactly when every call to remove it
      fails; one the status does not name is not asked for at all. */
  lemma SurvivesExactly(u: Upstream, spec: Spec, order: seq<string>, fails: nat -> bool, e: string)
    requires EffectiveMode(spec.mode) == "mixed" && e !in Emails(spec.members)
    ensures var v := AddEach(u, spec.members, Emails(u.members), fails);
      e in Emails(Changed(u, spec, order, fails).members) <==>
        e in Emails(u.members) && RemovalFails(v, order, Emails(spec.members), fails, e)
    ensures e !in order && e in Emails(u.members) ==> e in Emails(Changed(u, spec, order, fails).members)
  {
    var v := AddEach(u, spec.members, Emails(u.members), fails);
    AddEachKeeps(u, spec.members, Emails(u.members), fails, e);
    RemovalSurvived(v, order, Emails(spec.members), fails, e);
  }

  lemma {:induction false} RemoveEachAsks(u: Upstream, emails: seq<string>, keep: set<string>, fails: nat -> bool)
    ensures RemoveEach(u, emails, keep, fails).removed == u.removed + (Elements(emails) - keep)
    decreases |emails|
  {
    if emails != [] {
      var n := |emails| - 1;
      RemoveEachAsks(u, emails[..n], keep, fails);
      assert emails == emails[..n] + [emails[n]];
      assert Elements(emails) == Elements(emails[..n]) + {emails[n]};
    }
  }

  lemma {:induction false} AddEachRemovesNone(u: Upstream, spec: seq<Member>, actual: set<string>, fails: nat -> bool)
    ensures AddEach(u, spec, actual, fails).removed == u.removed
    decreases |spec|
  {
    if spec != [] {
      AddEachRemovesNone(u, spec[..|spec| - 1], actual, fails);
    }
  }

  /** Whom a pass asks LiteLLM to remove, whatever fails. */
  lemma AsksExactly(u: Upstream, spec: Spec, order: seq<string>, former: set<string>, fails: nat -> bool)
    requires Enumerates(order, former) && KnownMode(spec.mode)
    ensures Changed(u, spec, order, fails).removed == u.removed + ToRemove(spec, u.members, former)
  {
    if EffectiveMode(spec.mode) != "sso" {
      var v := AddEach(u, spec.members, Emails(u.members), fails);
      AddEachRemovesNone(u, spec.members, Emails(u.members), fails);
      RemoveEachAsks(v, RemovalList(spec, u.members, order), Emails(spec.members), fails);
      RemovalElements(spec, u.members, order, former);
    }
  }

  lemma {:induction false} AddEachAsks(u: Upstream, spec: seq<Member>, actual: set<string>, fails: nat -> bool)
    ensures AddEach(u, spec, actual, fails).added == u.added + (Emails(spec) - actual)
    decreases |spec|
  {
    if spec != [] {
      var n := |spec| - 1;
      AddEachAsks(u, spec[..n], actual, fails);
      assert spec == spec[..n] + [spec[n]];
      EmailsSnoc(spec[..n], spec[n]);
    }
  }

  lemma {:induction false} RemoveEachAddsNone(u: Upstream, emails: seq<string>, keep: set<string>, fails: nat -> bool)
    ensures RemoveEach(u, emails, keep, fails).added == u.added
    decreases |emails|
  {
    if emails != [] {
      RemoveEachAddsNone(u, emails[..|emails| - 1], keep, fails);
    }
  }

  /** What each value of spec.memberManagement means for the calls made, whatever fails: unset
      and mixed remove who the status names and the spec does not, crd removes everyone the
      spec does not name, and sso makes no call. */
  lemma CallsByMode(u: Upstream, spec: Spec, crd: seq<MemberStatus>, order: seq<string>, fails: nat -> bool)
    requires Enumerates(order, StatusEmails(crd))
    ensures var r, desired := Changed(u, spec, order, fails), Emails(spec.members);
      && (spec.mode == "" || spec.mode == "mixed" ==> r.removed == u.removed + (StatusEmails(crd) - desired))
      && (spec.mode == "crd" ==> r.removed == u.removed + (Emails(u.members) - desired))
      && (spec.mode in {"", "mixed", "crd"} ==> r.added == u.added + (desired - Emails(u.members)))
      && (spec.mode == "sso" ==> r == u)
  {
    if KnownMode(spec.mode) {
      AsksExactly(u, spec, order, StatusEmails(crd), fails);
      var v := AddEach(u, spec.members, Emails(u.members), fails);
      AddEachAsks(u, spec.members, Emails(u.members), fails);
      RemoveEachAddsNone(v, RemovalList(spec, u.members, order), Emails(spec.members), fails);
    }
  }

  lemma {:induction false} ExceptExactly(ms: seq<Member>, emails: set<string>, m: Member)
    ensures m in Except(ms, emails) <==> m in ms && m.email !in emails
    decreases |ms|
  {
    if ms != [] {
      var n := |ms| - 1;
      ExceptExactly(ms[..n], emails, m);
      assert ms == ms[..n] + [ms[n]];
    }
  }

  lemma CrdStatusExactly(spec: seq<Member>, m: MemberStatus)
    ensures m in CrdStatus(spec) <==>
      && m.source == "crd" && m.role != ""
      && (Member(m.email, m.role) in spec || (m.role == "user" && Member(m.email, "") in spec))
  {
    if m in CrdStatus(spec) {
      var i :| 0 <= i < |spec| && CrdStatus(spec)[i] == m;
      assert spec[i] == Member(m.email, m.role) || spec[i] == Member(m.email, "");
    }
    if Member(m.email, m.role) in spec && m.source == "crd" && m.role != "" {
      var i :| 0 <= i < |spec| && spec[i] == Member(m.email, m.role);
      assert CrdStatus(spec)[i] == m;
    }
    if Member(m.email, "") in spec && m.source == "crd" && m.role == "user" {
      var i :| 0 <= i < |spec| && spec[i] == Member(m.email, "");
      assert CrdStatus(spec)[i] == m;
    }
  }

  lemma SsoStatusExactly(ms: seq<Member>, m: MemberStatus)
    ensures m in SsoStatus(ms) <==> m.source == "sso" && Member(m.email, m.role) in ms
  {
    if m in SsoStatus(ms) {
      var i :| 0 <= i < |ms| && SsoStatus(ms)[i] == m;
      assert ms[i] == Member(m.email, m.role);
    }
    if m.source == "sso" && Member(m.email, m.role) in ms {
      var i :| 0 <= i < |ms| && ms[i] == Member(m.email, m.role);
      assert SsoStatus(ms)[i] == m;
    }
  }

  /** And for the status: who is reported as a CRD member, with the role of the spec or user,
      and who as an SSO member, with the role LiteLLM has. */
  lemma StatusByMode(api: seq<Member>, spec: Spec, m: MemberStatus)
    ensures var r := Reported(api, spec);
      && (m in r.crd <==>
           && spec.mode != "sso" && m.source == "crd" && m.role != ""
           && (Member(m.email, m.role) in spec.members || (m.role == "user" && Member(m.email, "") in spec.members)))
      && (m in r.sso <==>
           && spec.mode != "crd" && m.source == "sso" && Member(m.email, m.role) in api
           && (spec.mode == "sso" || m.email !in Emails(spec.members)))
      && r.total == |r.crd| + |r.sso|
  {
    CrdStatusExactly(spec.members, m);
    SsoStatusExactly(api, m);
    SsoStatusExactly(Except(api, Emails(spec.members)), m);
    ExceptExactly(api, Emails(spec.members), Member(m.email, m.role));
  }

  // ---- Every run ----

  /** A persisted version of the team CR. */
  datatype Cr = Cr(spec: Spec, crd: seq<MemberStatus>)

  /** `listed` is every email spec.members has held. */
  datatype State = State(store: Store<Cr>, upstream: Upstream, listed: set<string>)

  datatype Action =
    | EditSpec(spec: Spec)
    | Pass(seen: Cr, at: nat, order: seq<string>, lists: bool, fails: nat -> bool, write: Outcome)
    | OthersChange(members: seq<Member>)
    | CachesCatchUp(dropped: set<Cr>)

  /** A pass works on the version it read; its status write is a compare-and-swap. */
  function DoPass(s: State, seen: Cr, at: nat, order: seq<string>, lists: bool, fails: nat -> bool,
                  write: Outcome): State
  {
    if !(lists && KnownMode(seen.spec.mode)) then s
    else
      var u := Changed(s.upstream, seen.spec, order, fails);
      var crd := Reported(s.upstream.members, seen.spec).crd;
      if write == Fail || at != s.store.rv then s.(upstream := u)
      else s.(upstream := u, store := Persist(s.store, s.store.latest.(crd := crd)))
  }

  /** The pass reads a version there is, and the status it finds in some order. */
  ghost predicate Reads(s: State, a: Action)
    requires a.Pass?
  {
    CanRead(s.store, a.seen, a.at) && Enumerates(a.order, StatusEmails(a.seen.crd))
  }

  ghost function Apply(s: State, a: Action): State {
    match a
    case EditSpec(spec) =>
      s.(store := Persist(s.store, s.store.latest.(spec := spec)), listed := s.listed + Emails(spec.members))
    case Pass(seen, at, order, lists, fails, write) =>
      if Reads(s, a) then DoPass(s, seen, at, order, lists, fails, write) else s
    case OthersChange(members) => s.(upstream := s.upstream.(members := members))
    case CachesCatchUp(dropped) => s.(store := Forget(s.store, dropped))
  }

  /** Older versions that no cache serves any more. */
  function Forget(st: Store<Cr>, dropped: set<Cr>): Store<Cr> {
    st.(history := st.history - dropped + {st.latest})
  }

  ghost function Run(s: State, actions: seq<Action>): State {
    if actions == [] then s else Apply(Run(s, actions[..|actions| - 1]), actions[|actions| - 1])
  }

  /** Every value of spec.memberManagement but one leaves members to others; unset is mixed. */
  predicate SharesMembers(mode: string) {
    mode != "crd"
  }

  ghost predicate Listed(c: Cr, listed: set<string>) {
    SharesMembers(c.spec.mode) && Emails(c.spec.members) <= listed && StatusEmails(c.crd) <= listed
  }

  ghost predicate Inv(s: State) {
    && s.store.latest in s.store.history
    && (forall c :: c in s.store.history ==> Listed(c, s.listed))
    && s.upstream.removed <= s.listed
  }

  lemma PassRemovesFormer(u: Upstream, seen: Cr, order: seq<string>, fails: nat -> bool, listed: set<string>)
    requires Listed(seen, listed) && Enumerates(order, StatusEmails(seen.crd)) && KnownMode(seen.spec.mode)
    ensures Changed(u, seen.spec, order, fails).removed <= u.removed + listed
    ensures StatusEmails(Reported(u.members, seen.spec).crd) <= listed
  {
    AsksExactly(u, seen.spec, order, StatusEmails(seen.crd), fails);
    CrdStatusEmails(seen.spec.members);
  }

  lemma ApplyKeepsInv(s: State, a: Action)
    requires Inv(s) && (a.EditSpec? ==> SharesMembers(a.spec.mode))
    ensures Inv(Apply(s, a))
  {
    if a.Pass? && Reads(s, a) && KnownMode(a.seen.spec.mode) {
      PassRemovesFormer(s.upstream, a.seen, a.order, a.fails, s.listed);
    }
  }

  /** Mixed mode protects SSO members: in every run that stays in mixed or sso mode, with any
      edits, stale reads, failed calls and lost status writes, LiteLLM is asked to remove
      only members that the spec has listed. */
  lemma {:induction false} OnlyListedAreRemoved(s: State, actions: seq<Action>)
    requires Inv(s)
    requires forall i :: 0 <= i < |actions| && actions[i].EditSpec? ==> SharesMembers(actions[i].spec.mode)
    ensures Inv(Run(s, actions)) && Run(s, actions).upstream.removed <= Run(s, actions).listed
    decreases |actions|
  {
    if actions != [] {
      OnlyListedAreRemoved(s, actions[..|actions| - 1]);
      ApplyKeepsInv(Run(s, actions[..|actions| - 1]), actions[|actions| - 1]);
    }
  }

  /** A new CR, out of crd mode, is a state such a run may start from. */
  lemma NewCrIsSafe(spec: Spec, members: seq<Member>)
    requires SharesMembers(spec.mode)
    ensures var cr := Cr(spec, []);
      Inv(State(Store(0, cr, {cr}), Upstream(members, 0, {}, {}), Emails(spec.members)))
  {
  }

  // ---- A removal that failed ----

  /** Nothing that can be read makes a pass ask for `e`, and nothing the next status write
      records will. */
  ghost predicate Forgotten(s: State, e: string) {
    && s.store.latest in s.store.history
    && e !in Emails(s.store.latest.spec.members)
    && forall c :: c in s.store.history ==> SharesMembers(c.spec.mode) && e !in StatusEmails(c.crd)
  }

  /** An edit that keeps out of crd mode and does not list `e`. */
  predicate Avoids(a: Action, e: string) {
    a.EditSpec? ==> SharesMembers(a.spec.mode) && e !in Emails(a.spec.members)
  }

  lemma ForgottenStep(s: State, a: Action, e: string)
    requires Forgotten(s, e) && Avoids(a, e)
    ensures Forgotten(Apply(s, a), e)
    ensures e in Apply(s, a).upstream.removed ==> e in s.upstream.removed
  {
    if a.Pass? && Reads(s, a) && KnownMode(a.seen.spec.mode) {
      AsksExactly(s.upstream, a.seen.spec, a.order, StatusEmails(a.seen.crd), a.fails);
      CrdStatusEmails(a.seen.spec.members);
    }
  }

  /** Once no version a pass can read names `e`, no run in mixed or sso mode whose specs do
      not list `e` asks to remove it. */
  lemma {:induction false} ForgottenForGood(s: State, actions: seq<Action>, e: string)
    requires Forgotten(s, e) && forall i :: 0 <= i < |actions| ==> Avoids(actions[i], e)
    ensures Forgotten(Run(s, actions), e)
    ensures e in Run(s, actions).upstream.removed ==> e in s.upstream.removed
    decreases |actions|
  {
    if actions != [] {
      ForgottenForGood(s, actions[..|actions| - 1], e);
      ForgottenStep(Run(s, actions[..|actions| - 1]), actions[|actions| - 1], e);
    }
  }

  /** A former member whose removals all failed in a mixed pass over the latest version: it
      is still there, and it is forgotten, as soon as the caches have caught up, if and only
      if the status write landed. */
  lemma FailedRemovalIsForgotten(s: State, order: seq<string>, fails: nat -> bool, write: Outcome, e: string)
    requires s.store.latest in s.store.history && EffectiveMode(s.store.latest.spec.mode) == "mixed"
    requires e in StatusEmails(s.store.latest.crd) && e !in Emails(s.store.latest.spec.members)
    requires e in Emails(s.upstream.members) && Enumerates(order, StatusEmails(s.store.latest.crd))
    requires RemovalFails(AddEach(s.upstream, s.store.latest.spec.members, Emails(s.upstream.members), fails),
                          order, Emails(s.store.latest.spec.members), fails, e)
    ensures var t := Apply(s, Pass(s.store.latest, s.store.rv, order, true, fails, write));
      && e in Emails(t.upstream.members)
      && (Forgotten(Apply(t, CachesCatchUp(t.store.history)), e) <==> write != Fail)
  {
    SurvivesExactly(s.upstream, s.store.latest.spec, order, fails, e);
    CrdStatusEmails(s.store.latest.spec.members);
  }

  /** While a version that names it can still be read, a later pass does ask again. */
  lemma StaleReadAsksAgain(s: State, seen: Cr, at: nat, order: seq<string>, fails: nat -> bool, write: Outcome,
                           e: string)
    requires CanRead(s.store, seen, at) && Enumerates(order, StatusEmails(seen.crd))
    requires EffectiveMode(seen.spec.mode) == "mixed"
    requires e in StatusEmails(seen.crd) && e !in Emails(seen.spec.members)
    ensures e in Apply(s, Pass(seen, at, order, true, fails, write)).upstream.removed
  {
    AsksExactly(s.upstream, seen.spec, order, StatusEmails(seen.crd), fails);
  }
}
