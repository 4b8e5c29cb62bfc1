/** reconcileMembers (internal/controller/litellmteam_controller.go): who owns the members
    of a team, over three modes and repeated passes. */
module TeamMembers {

  datatype Member = Member(email: string, role: string)

  /** An entry of status.crdMembers or status.ssoMembers. */
  datatype MemberStatus = MemberStatus(email: string, role: string, source: string)

  /** `mode` is spec.memberManagement and `members` spec.members. */
  datatype Spec = Spec(mode: string, members: seq<Member>)

  datatype Status = Status(crd: seq<MemberStatus>, sso: seq<MemberStatus>, total: nat)

  /** LiteLLM's member list, how many calls were made to change it, and which emails were
      asked to be added or removed. */
  datatype Upstream = Upstream(members: seq<Member>, calls: nat, added: set<string>, removed: set<string>)

  function Emails(ms: seq<Member>): set<string> {
    set m | m in ms :: m.email
  }

  function StatusEmails(ms: seq<MemberStatus>): set<string> {
    set m | m in ms :: m.email
  }

  /** The members whose email is not among `emails`. */
  function Except(ms: seq<Member>, emails: set<string>): seq<Member> {
    if ms == [] then []
    else Except(ms[..|ms| - 1], emails) + if ms[|ms| - 1].email in emails then [] else [ms[|ms| - 1]]
  }

  // ---- LiteLLM's side ----

  /** AddMember; a member that is there stays as it is. */
  function Add(u: Upstream, m: Member, fails: bool): Upstream {
    u.(members := if fails || m.email in Emails(u.members) then u.members else u.members + [m],
       calls := u.calls + 1, added := u.added + {m.email})
  }

  /** RemoveMember. */
  function Remove(u: Upstream, email: string, fails: bool): Upstream {
    u.(members := if fails then u.members else Except(u.members, {email}),
       calls := u.calls + 1, removed := u.removed + {email})
  }

  /** The loop that adds, over the spec. `fails(n)` is whether the n-th call fails. */
  function AddEach(u: Upstream, spec: seq<Member>, actual: set<string>, fails: nat -> bool): Upstream {
    if spec == [] then u
    else
      var v := AddEach(u, spec[..|spec| - 1], actual, fails);
      var m := spec[|spec| - 1];
      if m.email in actual then v else Add(v, m, fails(v.calls))
  }

  /** The loop that removes, over emails in some order. */
  function RemoveEach(u: Upstream, emails: seq<string>, keep: set<string>, fails: nat -> bool): Upstream {
    if emails == [] then u
    else
      var v := RemoveEach(u, emails[..|emails| - 1], keep, fails);
      var e := emails[|emails| - 1];
      if e in keep then v else Remove(v, e, fails(v.calls))
  }

  function EmailList(ms: seq<Member>): seq<string> {
    seq(|ms|, i requires 0 <= i < |ms| => ms[i].email)
  }

  // ---- The status written ----

  /** toMemberStatusListFromSpec. */
  function CrdStatus(spec: seq<Member>): seq<MemberStatus> {
    seq(|spec|, i requires 0 <= i < |spec| =>
      MemberStatus(spec[i].email, if spec[i].role == "" then "user" else spec[i].role, "crd"))
  }

  /** toMemberStatusList. */
  function SsoStatus(ms: seq<Member>): seq<MemberStatus> {
    seq(|ms|, i requires 0 <= i < |ms| => MemberStatus(ms[i].email, ms[i].role, "sso"))
  }

  function EffectiveMode(mode: string): string {
    if mode == "" then "mixed" else mode
  }

  /** The emails a pass goes through for removal, `order` being the order in which it meets
      the former CRD members. */
  function RemovalList(spec: Spec, api: seq<Member>, order: seq<string>): seq<string> {
    if EffectiveMode(spec.mode) == "crd" then EmailList(api)
    else if EffectiveMode(spec.mode) == "mixed" then order
    else []
  }

  /** What a pass does upstream. In sso mode it only looks. */
  function Changed(u: Upstream, spec: Spec, order: seq<string>, fails: nat -> bool): Upstream {
    if EffectiveMode(spec.mode) == "sso" then u
    else
      RemoveEach(AddEach(u, spec.members, Emails(u.members), fails),
                 RemovalList(spec, u.members, order), Emails(spec.members), fails)
  }

  /** And to the status. */
  function Reported(api: seq<Member>, spec: Spec): Status {
    match EffectiveMode(spec.mode)
    case "sso" => Status([], SsoStatus(api), |api|)
    case "crd" => Status(CrdStatus(spec.members), [], |spec.members|)
    case _ =>
      var sso := Except(api, Emails(spec.members));
      Status(CrdStatus(spec.members), SsoStatus(sso), |spec.members| + |sso|)
  }

  predicate KnownMode(mode: string) {
    mode in {"", "mixed", "crd", "sso"}
  }

  // ---- The pass itself ----

  /** memberSet, memberEmailSet. */
  method EmailSet(ms: seq<Member>) returns (s: set<string>)
    ensures s == Emails(ms)
  {
    s := {};
    for i := 0 to |ms|
      invariant s == Emails(ms[..i])
    {
      assert ms[..i + 1] == ms[..i] + [ms[i]];
      s := s + {ms[i].email};
    }
    assert ms[..|ms|] == ms;
  }

  ghost predicate Enumerates(order: seq<string>, s: set<string>) {
    (forall i :: 0 <= i < |order| ==> order[i] in s) && forall e :: e in s ==> e in order
  }

  /** crdMemberSet, in the order in which a loop over it goes. */
  method FormerMembers(ms: seq<MemberStatus>) returns (order: seq<string>)
    ensures Enumerates(order, StatusEmails(ms))
  {
    var s: set<string> := {};
    for i := 0 to |ms|
      invariant s == StatusEmails(ms[..i])
    {
      assert ms[..i + 1] == ms[..i] + [ms[i]];
      s := s + {ms[i].email};
    }
    assert ms[..|ms|] == ms;
    order := [];
    var rest := s;
    while rest != {}
      invariant rest <= s
      invariant (forall i :: 0 <= i < |order| ==> order[i] in s) && forall e :: e in s - rest ==> e in order
    {
      var e :| e in rest;
      order, rest := order + [e], rest - {e};
    }
  }

  class TeamService {
    const fails: nat -> bool
    var members: seq<Member>
    var calls: nat
    ghost var added: set<string>
    ghost var removed: set<string>

    constructor (fails: nat -> bool, members: seq<Member>)
      ensures this.fails == fails && Now() == Upstream(members, 0, {}, {})
    {
      this.fails, this.members, calls := fails, members, 0;
      added, removed := {}, {};
    }

    ghost function Now(): Upstream
      reads this
    {
      Upstream(members, calls, added, removed)
    }

    method AddMember(m: Member) returns (ok: bool)
      modifies this
      ensures ok == !fails(old(calls)) && Now() == Add(old(Now()), m, !ok)
    {
      ok := !fails(calls);
      if ok && m.email !in Emails(members) {
        members := members + [m];
      }
      calls, added := calls + 1, added + {m.email};
    }

    method RemoveMember(email: string) returns (ok: bool)
      modifies this
      ensures ok == !fails(old(calls)) && Now() == Remove(old(Now()), email, !ok)
    {
      ok := !fails(calls);
      if ok {
        members := Except(members, {email});
      }
      calls, removed := calls + 1, removed + {email};
    }

    method AddMissing(spec: seq<Member>, actual: set<string>)
      modifies this
      ensures Now() == AddEach(old(Now()), spec, actual, fails)
    {
      for i := 0 to |spec|
        invariant Now() == AddEach(old(Now()), spec[..i], actual, fails)
      {
        assert spec[..i + 1][..i] == spec[..i];
        if spec[i].email !in actual {
          var ok := AddMember(spec[i]);
          if !ok {
            continue;
          }
        }
      }
      assert spec[..|spec|] == spec;
    }

    method RemoveOthers(emails: seq<string>, keep: set<string>)
      modifies this
      ensures Now() == RemoveEach(old(Now()), emails, keep, fails)
    {
      for i := 0 to |emails|
        invariant Now() == RemoveEach(old(Now()), emails[..i], keep, fails)
      {
        assert emails[..i + 1][..i] == emails[..i];
        if emails[i] !in keep {
          var ok := RemoveMember(emails[i]);
          if !ok {
            continue;
          }
        }
      }
      assert emails[..|emails|] == emails;
    }
  }

  class TeamStatus {
    var crdMembers: seq<MemberStatus>
    var ssoMembers: seq<MemberStatus>
    var totalMemberCount: nat

    ghost function Now(): Status
      reads this
    {
      Status(crdMembers, ssoMembers, totalMemberCount)
    }
  }

  /** The loop that collects the members of a mixed team it does not own. */
  method OtherMembers(api: seq<Member>, desired: set<string>) returns (others: seq<MemberStatus>)
    ensures others == SsoStatus(Except(api, desired))
  {
    others := [];
    for i := 0 to |api|
      invariant others == SsoStatus(Except(api[..i], desired))
    {
      assert api[..i + 1][..i] == api[..i];
      if api[i].email !in desired {
        others := others + [MemberStatus(api[i].email, api[i].role, "sso")];
      }
    }
    assert api[..|api|] == api;
  }

  /** reconcileMembers. `listed` says whether listing the members succeeds. */
  method ReconcileMembers(spec: Spec, status: TeamStatus, svc: TeamService, listed: bool)
    returns (ok: bool, ghost order: seq<string>)
    modifies status, svc
    ensures ok == (listed && KnownMode(spec.mode))
    ensures Enumerates(order, StatusEmails(old(status.crdMembers)))
    ensures svc.Now() == if ok then Changed(old(svc.Now()), spec, order, svc.fails) else old(svc.Now())
    ensures status.Now() == if ok then Reported(old(svc.members), spec) else old(status.Now())
  {
    var former := FormerMembers(status.crdMembers);
    order := former;
    var mode := if spec.mode == "" then "mixed" else spec.mode;
    if mode != "sso" && mode != "crd" && mode != "mixed" {
      return false, order;
    }
    if !listed {
      return false, order;
    }
    var api := svc.members;
    if mode == "sso" {
      status.crdMembers, status.ssoMembers, status.totalMemberCount := [], SsoStatus(api), |api|;
      return true, order;
    }
    var desired := EmailSet(spec.members);
    var actual := EmailSet(api);
    svc.AddMissing(spec.members, actual);
    if mode == "crd" {
      svc.RemoveOthers(EmailList(api), desired);
      status.crdMembers, status.ssoMembers, status.totalMemberCount := CrdStatus(spec.members), [], |spec.members|;
      return true, order;
    }
    svc.RemoveOthers(former, desired);
    var others := OtherMembers(api, desired);
    status.crdMembers, status.ssoMembers := CrdStatus(spec.members), others;
    status.totalMemberCount := |spec.members| + |others|;
    return true, order;
  }
}
