/** Every reference the config makes is met by the container's environment. */
module EnvClosure {
  import opened Versioned
  import opened EnvReferences
  import opened Sequences

  /** What BuildDeployment puts together: the entries before and after the pass-through ones,
      then those of the guardrails, and the user's own merged into them. */
  datatype Plan = Plan(
    instance: string,
    before: seq<EnvVar>,
    endpoints: seq<Endpoint>,
    after: seq<EnvVar>,
    guardrails: seq<Guardrail>,
    user: seq<EnvVar>)
  {
    function GuardrailPart(): seq<EnvVar> {
      Firsts(AllAsks(Bound(instance, guardrails)))
    }

    function Operator(): seq<EnvVar> {
      before + EndpointEnv(endpoints) + after + GuardrailPart()
    }

    function Final(): seq<EnvVar> {
      Merged(Operator(), user)
    }
  }

  /** The env of BuildDeployment. */
  method BuildEnv(p: Plan) returns (env: seq<EnvVar>)
    ensures env == p.Final()
  {
    var through := PassThroughEnvVars(p.endpoints);
    var vars := p.before + through + p.after;
    var guards := GuardrailEnvVars(p.instance, p.guardrails);
    vars := vars + guards;
    env := MergeEnvVars(vars, p.user);
  }

  // ---- Names survive ----

  lemma NamesAppend(a: seq<EnvVar>, b: seq<EnvVar>)
    ensures Names(a + b) == Names(a) + Names(b)
  {
  }

  lemma {:induction false} FirstsNames(env: seq<EnvVar>)
    ensures Names(Firsts(env)) == Names(env)
    decreases |env|
  {
    if env != [] {
      var n := |env| - 1;
      FirstsNames(env[..n]);
      assert env == env[..n] + [env[n]];
      NamesAppend(env[..n], [env[n]]);
      NamesAppend(Firsts(env[..n]), [env[n]]);
    }
  }

  /** Overriding replaces an entry by one of the same name. */
  lemma {:induction false} ByNameHasName(user: seq<EnvVar>, name: string)
    requires name in ByName(user)
    ensures ByName(user)[name].name == name
    decreases |user|
  {
    if user[|user| - 1].name != name {
      ByNameHasName(user[..|user| - 1], name);
    }
  }

  lemma OverriddenNames(operator: seq<EnvVar>, user: seq<EnvVar>)
    ensures Names(Overridden(operator, ByName(user))) == Names(operator)
  {
    var o := Overridden(operator, ByName(user));
    forall i | 0 <= i < |operator|
      ensures o[i].name == operator[i].name
    {
      if operator[i].name in ByName(user) {
        ByNameHasName(user, operator[i].name);
      }
    }
    forall e | e in operator
      ensures e.name in Names(o)
    {
      var i :| 0 <= i < |operator| && operator[i] == e;
      assert o[i] in o;
    }
  }

  lemma {:induction false} ExtraNames(user: seq<EnvVar>, seen: set<string>)
    ensures Names(Extra(user, seen)) == Names(user) - seen
    decreases |user|
  {
    if user != [] {
      var n := |user| - 1;
      ExtraNames(user[..n], seen);
      assert user == user[..n] + [user[n]];
      NamesAppend(user[..n], [user[n]]);
      NamesAppend(Extra(user[..n], seen), [user[n]]);
    }
  }

  /** The merged environment has the operator's names and the user's, and no others. */
  lemma MergedNames(operator: seq<EnvVar>, user: seq<EnvVar>)
    ensures Names(Merged(operator, user)) == Names(operator) + Names(user)
  {
    OverriddenNames(operator, user);
    ExtraNames(user, Names(operator));
    NamesAppend(Overridden(operator, ByName(user)), Extra(user, Names(operator)));
  }

  // ---- Which guardrails count ----

  /** Those that name the instance, and no others. */
  lemma {:induction false} BoundExactly(instance: string, guardrails: seq<Guardrail>, g: Guardrail)
    ensures g in Bound(instance, guardrails) <==> g in guardrails && g.instance == instance
    decreases |guardrails|
  {
    if guardrails != [] {
      var n := |guardrails| - 1;
      BoundExactly(instance, guardrails[..n], g);
      assert guardrails == guardrails[..n] + [guardrails[n]];
    }
  }

  // ---- References are met ----

  lemma {:induction false} AsksAreNamed(guardrails: seq<Guardrail>, i: nat)
    requires i < |guardrails|
    ensures Names(Asks(guardrails[i])) <= Names(AllAsks(guardrails))
    decreases |guardrails|
  {
    var n := |guardrails| - 1;
    NamesAppend(AllAsks(guardrails[..n]), Asks(guardrails[n]));
    if i < n {
      AsksAreNamed(guardrails[..n], i);
    }
  }

  lemma {:induction false} SecretsAreNamed(endpoints: seq<Endpoint>, i: nat, j: nat)
    requires i < |endpoints| && j < |endpoints[i].secrets|
    ensures PassThroughEnvVarName(endpoints[i].path, endpoints[i].secrets[j].header) in Names(EndpointEnv(endpoints))
    decreases |endpoints|
  {
    var n := |endpoints| - 1;
    var ep := endpoints[n];
    NamesAppend(EndpointEnv(endpoints[..n]), HeaderEnv(ep.path, ep.secrets));
    if i < n {
      SecretsAreNamed(endpoints[..n], i, j);
    } else {
      assert HeaderEnv(ep.path, ep.secrets)[j] in HeaderEnv(ep.path, ep.secrets);
    }
  }

  lemma OperatorNames(p: Plan)
    ensures Names(EndpointEnv(p.endpoints)) <= Names(p.Operator())
    ensures Names(AllAsks(Bound(p.instance, p.guardrails))) <= Names(p.Operator())
  {
    FirstsNames(AllAsks(Bound(p.instance, p.guardrails)));
    NamesAppend(p.before + EndpointEnv(p.endpoints) + p.after, p.GuardrailPart());
    NamesAppend(p.before + EndpointEnv(p.endpoints), p.after);
    NamesAppend(p.before, EndpointEnv(p.endpoints));
  }

  lemma OwnKeyReference(g: Guardrail)
    requires g.apiKey.Some?
    ensures "api_key" in OwnParams(g) && OwnParams(g)["api_key"] == Text(Reference(GuardrailEnvVarName(g.name)))
  {
    assert "api_key" !in {"api_base", "default_on", "unreachable_fallback"} by {
      assert |"api_key"| == 7;
    }
  }

  lemma KeyIsNotGeneric(params: map<string, Json>)
    ensures "api_key" !in GenericParams(params)
  {
    assert |"api_key"| == 7;
  }

  /** The api_key param of a guardrail with a key is the operator's reference, whatever the
      user's params say. */
  lemma KeyReferenceStands(g: Guardrail)
    requires g.apiKey.Some?
    ensures "api_key" in Params(g) && Params(g)["api_key"] == Text(Reference(GuardrailEnvVarName(g.name)))
  {
    OwnKeyReference(g);
    KeyIsNotGeneric(g.params);
  }

  function Lookup(params: map<string, Json>, k: string): Option<Json> {
    if k in params then Some(params[k]) else None
  }

  /** What the operator sets under each name, if it does. */
  function Reserved(g: Guardrail, k: string): Option<Json> {
    if k == "guardrail" then Some(Text(if g.provider == "custom_guardrail" then g.guardrailClass else g.provider))
    else if k == "mode" then Some(Text(g.mode))
    else if k == "api_key" && g.apiKey.Some?
    then Some(Text("os.environ/" + ("GUARDRAIL_" + Segment(g.name) + "_API_KEY")))
    else if k == "api_base" && g.apiBase != "" then Some(Text(g.apiBase))
    else if k == "default_on" && g.defaultOn.Some? then Some(Flag(g.defaultOn.value))
    else if k == "unreachable_fallback" && g.unreachableFallback != "" then Some(Text(g.unreachableFallback))
    else None
  }

  /** What the user's params come to under each name. */
  function Given(g: Guardrail, k: string): Option<Json> {
    if g.provider != "generic_guardrail_api" then Lookup(g.params, k)
    else if k == "additional_provider_specific_params" then if g.params == map[] then None else Some(Object(g.params))
    else if k in {"streaming_transform_mode", "streaming_sampling_rate", "streaming_end_of_stream_only"}
    then Lookup(g.params, k)
    else None
  }

  lemma ReservedExactly(g: Guardrail, k: string)
    ensures Lookup(OwnParams(g), k) == Reserved(g, k)
  {
    assert |"guardrail"| == 9 && |"mode"| == 4 && |"api_key"| == 7 && |"api_base"| == 8;
    assert |"default_on"| == 10 && |"unreachable_fallback"| == 20;
  }

  lemma GenericExactly(g: Guardrail, k: string)
    requires g.provider == "generic_guardrail_api"
    ensures Lookup(GenericParams(g.params), k) == Given(g, k)
  {
    assert |"additional_provider_specific_params"| == 35 && |"streaming_transform_mode"| == 24;
    assert |"streaming_sampling_rate"| == 23 && |"streaming_end_of_stream_only"| == 28;
  }

  lemma ReservedIsNotGeneric(g: Guardrail, k: string)
    requires g.provider == "generic_guardrail_api" && Reserved(g, k).Some?
    ensures Given(g, k).None?
  {
    assert |k| in {9, 4, 7, 8, 10, 20};
    assert |"additional_provider_specific_params"| == 35 && |"streaming_transform_mode"| == 24;
    assert |"streaming_sampling_rate"| == 23 && |"streaming_end_of_stream_only"| == 28;
  }

  /** The params of a rendered guardrail, name by name: the operator's, or else the user's. */
  lemma ParamsExactly(g: Guardrail, k: string)
    ensures Lookup(Params(g), k) == if Reserved(g, k).Some? then Reserved(g, k) else Given(g, k)
  {
    ReservedExactly(g, k);
    if g.provider == "generic_guardrail_api" {
      GenericExactly(g, k);
      if Reserved(g, k).Some? {
        ReservedIsNotGeneric(g, k);
      }
    }
  }

  /** Reference closure for guardrails: each rendered key reference names an entry of the
      final environment, however names collide and whatever the user overrides. */
  lemma GuardrailReferencesAreMet(p: Plan, i: nat)
    requires i < |Bound(p.instance, p.guardrails)|
    ensures var g := Bound(p.instance, p.guardrails)[i];
      var entry := Entries(Bound(p.instance, p.guardrails))[i];
      g.apiKey.Some? ==>
        && "api_key" in entry.params
        && exists e :: e in p.Final() && entry.params["api_key"] == Text(Reference(e.name))
  {
    var g := Bound(p.instance, p.guardrails)[i];
    if g.apiKey.Some? {
      var name := GuardrailEnvVarName(g.name);
      KeyReferenceStands(g);
      AsksAreNamed(Bound(p.instance, p.guardrails), i);
      assert Asks(g)[0] in Asks(g);
      OperatorNames(p);
      MergedNames(p.Operator(), p.user);
      assert name in Names(p.Final());
      var e :| e in p.Final() && e.name == name;
    }
  }

  /** The header a secret sets ends in the reference of that secret's header, whichever of
      several secrets for it came last. */
  lemma {:induction false} HeaderReferenceStands(ep: Endpoint, n: nat, j: nat)
    requires j < n <= |ep.secrets|
    ensures var h := ep.secrets[j].header;
      && h in Headers(ep, n)
      && exists k :: 0 <= k < n && ep.secrets[k].header == h &&
           Headers(ep, n)[h] == ep.secrets[k].prefix + Reference(PassThroughEnvVarName(ep.path, h))
    decreases n
  {
    var h := ep.secrets[j].header;
    if ep.secrets[n - 1].header == h {
      assert Headers(ep, n)[h] == ep.secrets[n - 1].prefix + Reference(PassThroughEnvVarName(ep.path, h));
    } else {
      HeaderReferenceStands(ep, n - 1, j);
    }
  }

  /** The last secret for a header makes it the reference of that header, with its prefix. */
  lemma {:induction false} LastSecretWins(ep: Endpoint, n: nat, k: nat)
    requires k < n <= |ep.secrets|
    requires forall j :: k < j < n ==> ep.secrets[j].header != ep.secrets[k].header
    ensures var h := ep.secrets[k].header;
      var name := "PASSTHROUGH_" + Segment(TrimSlashes(ep.path)) + "_" + Segment(h);
      h in Headers(ep, n) && Headers(ep, n)[h] == ep.secrets[k].prefix + ("os.environ/" + name)
    decreases n
  {
    if k < n - 1 {
      LastSecretWins(ep, n - 1, k);
    }
  }

  /** A header no secret is for is the static one. */
  lemma {:induction false} StaticHeaderStays(ep: Endpoint, n: nat, h: string)
    requires n <= |ep.secrets| && forall k :: 0 <= k < n ==> ep.secrets[k].header != h
    ensures h in Headers(ep, n) <==> h in ep.headers
    ensures h in ep.headers ==> Headers(ep, n)[h] == ep.headers[h]
    decreases n
  {
    if n > 0 {
      StaticHeaderStays(ep, n - 1, h);
    }
  }

  /** Reference closure for pass-through headers. */
  lemma HeaderReferencesAreMet(p: Plan, i: nat, j: nat)
    requires i < |p.endpoints| && j < |p.endpoints[i].secrets|
    ensures var ep := p.endpoints[i];
      var h := ep.secrets[j].header;
      && h in Headers(ep, |ep.secrets|)
      && exists e, k :: e in p.Final() && 0 <= k < |ep.secrets| &&
           Headers(ep, |ep.secrets|)[h] == ep.secrets[k].prefix + Reference(e.name)
  {
    var ep := p.endpoints[i];
    var h := ep.secrets[j].header;
    HeaderReferenceStands(ep, |ep.secrets|, j);
    SecretsAreNamed(p.endpoints, i, j);
    OperatorNames(p);
    MergedNames(p.Operator(), p.user);
    var name := PassThroughEnvVarName(ep.path, h);
    var e :| e in p.Final() && e.name == name;
    var k :| 0 <= k < |ep.secrets| && Headers(ep, |ep.secrets|)[h] == ep.secrets[k].prefix + Reference(name);
    assert Headers(ep, |ep.secrets|)[h] == ep.secrets[k].prefix + Reference(e.name);
  }

  // ---- What a reference resolves to ----

  lemma {:induction false} ResolveAppend(a: seq<EnvVar>, b: seq<EnvVar>, name: string)
    ensures Resolve(a + b, name) == if name in Names(b) then Resolve(b, name) else Resolve(a, name)
    decreases |b|
  {
    if b == [] {
      assert a + b == a;
    } else {
      var n := |b| - 1;
      assert (a + b)[..|a + b| - 1] == a + b[..n];
      assert b == b[..n] + [b[n]];
      NamesAppend(b[..n], [b[n]]);
      ResolveAppend(a, b[..n], name);
    }
  }

  /** The value of the first entry of a name. */
  function FirstValue(env: seq<EnvVar>, name: string): Option<Value> {
    if env == [] then None
    else if env[0].name == name then Some(env[0].value)
    else FirstValue(env[1..], name)
  }

  lemma {:induction false} FirstValueSnoc(env: seq<EnvVar>, e: EnvVar, name: string)
    ensures FirstValue(env + [e], name) ==
      if name in Names(env) then FirstValue(env, name) else if e.name == name then Some(e.value) else None
    ensures name !in Names(env) ==> FirstValue(env, name) == None
    decreases |env|
  {
    if env == [] {
      assert env + [e] == [e];
    } else {
      FirstValueSnoc(env[1..], e, name);
      assert (env + [e])[1..] == env[1..] + [e];
      assert env == [env[0]] + env[1..];
      NamesAppend([env[0]], env[1..]);
    }
  }

  lemma {:induction false} FirstsResolve(env: seq<EnvVar>, name: string)
    ensures Resolve(Firsts(env), name) == FirstValue(env, name)
    decreases |env|
  {
    if env != [] {
      var n := |env| - 1;
      assert env == env[..n] + [env[n]];
      FirstsResolve(env[..n], name);
      FirstValueSnoc(env[..n], env[n], name);
      ResolveAppend(Firsts(env[..n]), [env[n]], name);
    }
  }

  lemma {:induction false} OverriddenResolve(operator: seq<EnvVar>, user: seq<EnvVar>, name: string)
    requires name in Names(operator)
    ensures Resolve(Overridden(operator, ByName(user)), name) ==
      if name in ByName(user) then Some(ByName(user)[name].value) else Resolve(operator, name)
    decreases |operator|
  {
    var n := |operator| - 1;
    var o := Overridden(operator, ByName(user));
    assert operator == operator[..n] + [operator[n]];
    NamesAppend(operator[..n], [operator[n]]);
    assert o[..n] == Overridden(operator[..n], ByName(user));
    if operator[n].name in ByName(user) {
      ByNameHasName(user, operator[n].name);
    }
    if operator[n].name != name {
      OverriddenResolve(operator[..n], user, name);
    }
  }

  /** Merging: the user's last entry for a name counts, or else the operator's. */
  lemma MergedResolve(operator: seq<EnvVar>, user: seq<EnvVar>, name: string)
    requires name in Names(operator)
    ensures Resolve(Merged(operator, user), name) ==
      if name in ByName(user) then Some(ByName(user)[name].value) else Resolve(operator, name)
  {
    OverriddenResolve(operator, user, name);
    ExtraNames(user, Names(operator));
    ResolveAppend(Overridden(operator, ByName(user)), Extra(user, Names(operator)), name);
  }

  lemma {:induction false} ByNameIsLast(user: seq<EnvVar>, name: string)
    ensures name in ByName(user) <==> name in Names(user)
    ensures name in Names(user) ==> Resolve(user, name) == Some(ByName(user)[name].value)
    ensures name !in Names(user) ==> Resolve(user, name) == None
    decreases |user|
  {
    if user != [] {
      var n := |user| - 1;
      assert user == user[..n] + [user[n]];
      NamesAppend(user[..n], [user[n]]);
      ByNameIsLast(user[..n], name);
    }
  }

  lemma {:induction false} ExtraResolve(user: seq<EnvVar>, seen: set<string>, name: string)
    requires name !in seen
    ensures Resolve(Extra(user, seen), name) == FirstValue(user, name)
    decreases |user|
  {
    if user != [] {
      var n := |user| - 1;
      assert user == user[..n] + [user[n]];
      ExtraResolve(user[..n], seen, name);
      FirstValueSnoc(user[..n], user[n], name);
      ResolveAppend(Extra(user[..n], seen), [user[n]], name);
      ExtraNames(user[..n], seen);
    }
  }

  /** What the container sees of two lists merged: under a name of the operator's, what the user
      last set for it, or else what the operator did; under any other, what the user first set. */
  lemma MergedExactly(operator: seq<EnvVar>, user: seq<EnvVar>, name: string)
    ensures Resolve(Merged(operator, user), name) ==
      if name !in Names(operator) then FirstValue(user, name)
      else if name in Names(user) then Resolve(user, name)
      else Resolve(operator, name)
  {
    ByNameIsLast(user, name);
    if name in Names(operator) {
      MergedResolve(operator, user, name);
    } else {
      OverriddenNames(operator, user);
      ExtraNames(user, Names(operator));
      ExtraResolve(user, Names(operator), name);
      ResolveAppend(Overridden(operator, ByName(user)), Extra(user, Names(operator)), name);
      AbsentNames(Overridden(operator, ByName(user)), name);
      AbsentFirst(user, name);
    }
  }

  lemma AbsentNames(env: seq<EnvVar>, name: string)
    requires name !in Names(env)
    ensures Resolve(env, name) == None
  {
    ByNameIsLast(env, name);
  }

  lemma AbsentFirst(env: seq<EnvVar>, name: string)
    ensures name !in Names(env) ==> FirstValue(env, name) == None
  {
    FirstValueSnoc(env, EnvVar(name, Literal("")), name);
  }

  /** What the container sees under a name the guardrails ask for: the user's last entry for
      it, or else what the first guardrail entry to ask for that name set. */
  lemma GuardrailNameResolves(p: Plan, name: string)
    requires name in Names(AllAsks(Bound(p.instance, p.guardrails)))
    ensures Resolve(p.Final(), name) ==
      if name in ByName(p.user) then Some(ByName(p.user)[name].value)
      else FirstValue(AllAsks(Bound(p.instance, p.guardrails)), name)
  {
    var asks := AllAsks(Bound(p.instance, p.guardrails));
    OperatorNames(p);
    FirstsNames(asks);
    FirstsResolve(asks, name);
    ResolveAppend(p.before + EndpointEnv(p.endpoints) + p.after, p.GuardrailPart(), name);
    MergedResolve(p.Operator(), p.user, name);
  }

  /** And under a name a pass-through header asks for: the user's last entry, or else what a
      guardrail asks for under that name, or else the operator's own entry after the
      pass-through ones, or else that of the header secrets. */
  lemma HeaderNameResolves(p: Plan, name: string)
    requires name in Names(EndpointEnv(p.endpoints))
    ensures Resolve(p.Final(), name) ==
      var asks := AllAsks(Bound(p.instance, p.guardrails));
      if name in ByName(p.user) then Some(ByName(p.user)[name].value)
      else if name in Names(asks) then FirstValue(asks, name)
      else if name in Names(p.after) then Resolve(p.after, name)
      else Resolve(EndpointEnv(p.endpoints), name)
  {
    var asks := AllAsks(Bound(p.instance, p.guardrails));
    OperatorNames(p);
    FirstsNames(asks);
    FirstsResolve(asks, name);
    ResolveAppend(p.before + EndpointEnv(p.endpoints) + p.after, p.GuardrailPart(), name);
    ResolveAppend(p.before + EndpointEnv(p.endpoints), p.after, name);
    ResolveAppend(p.before, EndpointEnv(p.endpoints), name);
    MergedResolve(p.Operator(), p.user, name);
  }

  lemma EndpointEnvSnoc(endpoints: seq<Endpoint>, ep: Endpoint)
    ensures EndpointEnv(endpoints + [ep]) == EndpointEnv(endpoints) + HeaderEnv(ep.path, ep.secrets)
  {
    assert (endpoints + [ep])[..|endpoints|] == endpoints;
  }

  lemma {:induction false} EndpointEnvAppend(a: seq<Endpoint>, b: seq<Endpoint>)
    ensures EndpointEnv(a + b) == EndpointEnv(a) + EndpointEnv(b)
    decreases |b|
  {
    if b == [] {
      assert a + b == a;
    } else {
      var n := |b| - 1;
      assert a + b == a + b[..n] + [b[n]] && b == b[..n] + [b[n]];
      EndpointEnvAppend(a, b[..n]);
      EndpointEnvSnoc(a + b[..n], b[n]);
      EndpointEnvSnoc(b[..n], b[n]);
      Assoc(EndpointEnv(a), EndpointEnv(b[..n]), HeaderEnv(b[n].path, b[n].secrets));
    }
  }

  /** The entries that come after that of secret `j` of endpoint `i`. */
  function LaterEnv(endpoints: seq<Endpoint>, i: nat, j: nat): seq<EnvVar>
    requires i < |endpoints| && j < |endpoints[i].secrets|
  {
    HeaderEnv(endpoints[i].path, endpoints[i].secrets[j + 1..]) + EndpointEnv(endpoints[i + 1..])
  }

  lemma HeaderEnvSplit(ep: Endpoint, j: nat)
    requires j < |ep.secrets|
    ensures HeaderEnv(ep.path, ep.secrets) == HeaderEnv(ep.path, ep.secrets[..j]) +
      [EnvVar(PassThroughEnvVarName(ep.path, ep.secrets[j].header), FromSecret(ep.secrets[j].ref))] +
      HeaderEnv(ep.path, ep.secrets[j + 1..])
  {
  }

  lemma EndpointEnvAround(before: seq<Endpoint>, ep: Endpoint, after: seq<Endpoint>)
    ensures EndpointEnv(before + [ep] + after) ==
      EndpointEnv(before) + HeaderEnv(ep.path, ep.secrets) + EndpointEnv(after)
  {
    EndpointEnvAppend(before + [ep], after);
    EndpointEnvSnoc(before, ep);
  }

  lemma CutAt<T>(s: seq<T>, i: nat)
    requires i < |s|
    ensures s == s[..i] + [s[i]] + s[i + 1..]
  {
  }

  lemma Around<T>(a: seq<T>, b: seq<T>, own: seq<T>, c: seq<T>, d: seq<T>)
    ensures a + (b + own + c) + d == a + b + own + (c + d)
  {
  }

  lemma EndpointEnvSplit(endpoints: seq<Endpoint>, i: nat, j: nat)
    requires i < |endpoints| && j < |endpoints[i].secrets|
    ensures var ep := endpoints[i];
      var own := EnvVar(PassThroughEnvVarName(ep.path, ep.secrets[j].header), FromSecret(ep.secrets[j].ref));
      EndpointEnv(endpoints) ==
        EndpointEnv(endpoints[..i]) + HeaderEnv(ep.path, ep.secrets[..j]) + [own] + LaterEnv(endpoints, i, j)
  {
    var ep := endpoints[i];
    var own := EnvVar(PassThroughEnvVarName(ep.path, ep.secrets[j].header), FromSecret(ep.secrets[j].ref));
    CutAt(endpoints, i);
    EndpointEnvAround(endpoints[..i], ep, endpoints[i + 1..]);
    HeaderEnvSplit(ep, j);
    Around(EndpointEnv(endpoints[..i]), HeaderEnv(ep.path, ep.secrets[..j]), [own],
           HeaderEnv(ep.path, ep.secrets[j + 1..]), EndpointEnv(endpoints[i + 1..]));
  }

  /** Without anything else of that name, a header's reference resolves to its own secret if
      no secret after it asks for the same name, and to the last one that does otherwise. */
  lemma HeaderIsOwnUnlessAskedLater(p: Plan, i: nat, j: nat)
    requires i < |p.endpoints| && j < |p.endpoints[i].secrets|
    requires var name := PassThroughEnvVarName(p.endpoints[i].path, p.endpoints[i].secrets[j].header);
      && name !in ByName(p.user) && name !in Names(p.after)
      && name !in Names(AllAsks(Bound(p.instance, p.guardrails)))
    ensures var hs := p.endpoints[i].secrets[j];
      var name := PassThroughEnvVarName(p.endpoints[i].path, hs.header);
      var later := LaterEnv(p.endpoints, i, j);
      Resolve(p.Final(), name) == if name in Names(later) then Resolve(later, name) else Some(FromSecret(hs.ref))
  {
    var ep := p.endpoints[i];
    var name := PassThroughEnvVarName(ep.path, ep.secrets[j].header);
    var own := [EnvVar(name, FromSecret(ep.secrets[j].ref))];
    var first := EndpointEnv(p.endpoints[..i]) + HeaderEnv(ep.path, ep.secrets[..j]);
    SecretsAreNamed(p.endpoints, i, j);
    HeaderNameResolves(p, name);
    EndpointEnvSplit(p.endpoints, i, j);
    ResolveAppend(first + own, LaterEnv(p.endpoints, i, j), name);
    ResolveAppend(first, own, name);
  }

  lemma {:induction false} FirstValueAppend(a: seq<EnvVar>, b: seq<EnvVar>, name: string)
    ensures FirstValue(a + b, name) == if name in Names(a) then FirstValue(a, name) else FirstValue(b, name)
    decreases |a|
  {
    if a == [] {
      assert a + b == b;
    } else {
      FirstValueAppend(a[1..], b, name);
      assert (a + b)[1..] == a[1..] + b;
      assert a == [a[0]] + a[1..];
      NamesAppend([a[0]], a[1..]);
    }
  }

  lemma AsksSnoc(guardrails: seq<Guardrail>, i: nat)
    requires i < |guardrails|
    ensures AllAsks(guardrails[..i + 1]) == AllAsks(guardrails[..i]) + Asks(guardrails[i])
  {
    assert guardrails[..i + 1][..i] == guardrails[..i];
  }

  lemma FirstValueOfAsks(guardrails: seq<Guardrail>, i: nat, name: string)
    requires i < |guardrails| && name in Names(Asks(guardrails[i])) && name !in Names(AllAsks(guardrails[..i]))
    ensures FirstValue(AllAsks(guardrails), name) == FirstValue(Asks(guardrails[i]), name)
  {
    AsksSnoc(guardrails, i);
    FirstValueAppend(AllAsks(guardrails[..i]), Asks(guardrails[i]), name);
    NamesAppend(AllAsks(guardrails[..i]), Asks(guardrails[i]));
    FirstValuePrefix(guardrails, i + 1, name);
  }

  /** Without an override, a guardrail's reference resolves to its own key if no guardrail
      before it asked for the same name, and to the key or entry of the first one that did
      otherwise. */
  lemma KeyIsOwnUnlessAskedBefore(p: Plan, i: nat)
    requires i < |Bound(p.instance, p.guardrails)| && Bound(p.instance, p.guardrails)[i].apiKey.Some?
    requires GuardrailEnvVarName(Bound(p.instance, p.guardrails)[i].name) !in ByName(p.user)
    ensures var bound := Bound(p.instance, p.guardrails);
      var name := GuardrailEnvVarName(bound[i].name);
      Resolve(p.Final(), name) ==
        if name in Names(AllAsks(bound[..i])) then FirstValue(AllAsks(bound[..i]), name)
        else Some(FromSecret(bound[i].apiKey.value))
  {
    var bound := Bound(p.instance, p.guardrails);
    var name := GuardrailEnvVarName(bound[i].name);
    AsksAreNamed(bound, i);
    assert Asks(bound[i])[0] in Asks(bound[i]);
    GuardrailNameResolves(p, name);
    if name in Names(AllAsks(bound[..i])) {
      FirstValuePrefix(bound, i, name);
    } else {
      FirstValueOfAsks(bound, i, name);
    }
  }

  lemma {:induction false} FirstValuePrefix(guardrails: seq<Guardrail>, i: nat, name: string)
    requires i <= |guardrails| && name in Names(AllAsks(guardrails[..i]))
    ensures FirstValue(AllAsks(guardrails), name) == FirstValue(AllAsks(guardrails[..i]), name)
    ensures name in Names(AllAsks(guardrails))
    decreases |guardrails|
  {
    if i == |guardrails| {
      assert guardrails[..i] == guardrails;
    } else {
      var n := |guardrails| - 1;
      assert guardrails[..n][..i] == guardrails[..i];
      FirstValuePrefix(guardrails[..n], i, name);
      AsksSnoc(guardrails, n);
      assert guardrails[..n + 1] == guardrails;
      FirstValueAppend(AllAsks(guardrails[..n]), Asks(guardrails[n]), name);
      NamesAppend(AllAsks(guardrails[..n]), Asks(guardrails[n]));
    }
  }

  lemma {:induction false} SegmentAt(s: string, i: nat)
    requires i < |s|
    ensures |Segment(s)| == |s| && Segment(s)[i] == Sanitised(s[i])
    decreases |s|
  {
    if |s| > 1 {
      SegmentAt(s[1..], if i > 0 then i - 1 else 0);
    }
  }

  lemma SegmentLength(s: string)
    ensures |Segment(s)| == |s|
  {
    if s != "" {
      SegmentAt(s, 0);
    }
  }

  /** Names of one length that differ only in case, and in which character other than a letter
      or digit they have where. */
  predicate Similar(a: string, b: string) {
    |a| == |b| && forall i :: 0 <= i < |a| ==> SimilarChar(a[i], b[i])
  }

  predicate Digit(c: char) {
    '0' <= c <= '9'
  }

  /** The place of a letter in the alphabet. */
  function Letter(c: char): int {
    if 'a' <= c <= 'z' then c as int - 'a' as int
    else if 'A' <= c <= 'Z' then c as int - 'A' as int
    else -1
  }

  predicate SimilarChar(c: char, d: char) {
    if Digit(c) || Digit(d) then c == d else Letter(c) == Letter(d)
  }

  lemma SimilarExactly(c: char, d: char)
    ensures Sanitised(c) == Sanitised(d) <==> SimilarChar(c, d)
  {
  }

  lemma SegmentsAgree(a: string, b: string)
    ensures Segment(a) == Segment(b) <==> Similar(a, b)
  {
    SegmentLength(a);
    SegmentLength(b);
    forall i | 0 <= i < |a| && i < |b|
      ensures Segment(a)[i] == Segment(b)[i] <==> SimilarChar(a[i], b[i])
    {
      SegmentAt(a, i);
      SegmentAt(b, i);
      SimilarExactly(a[i], b[i]);
    }
  }

  lemma Unwrap(prefix: string, a: string, b: string, suffix: string)
    ensures prefix + a + suffix == prefix + b + suffix <==> a == b
  {
    var x, y := prefix + a + suffix, prefix + b + suffix;
    if x == y {
      assert |a| == |b|;
      assert a == x[|prefix|..|prefix| + |a|] && b == y[|prefix|..|prefix| + |b|];
    }
  }

  /** Two guardrails share one variable, and with it the key of the first to ask, exactly when
      their names are similar. */
  lemma VariablesCollideExactly(a: string, b: string)
    ensures GuardrailEnvVarName(a) == GuardrailEnvVarName(b) <==> Similar(a, b)
  {
    SegmentsAgree(a, b);
    Unwrap("GUARDRAIL_", Segment(a), Segment(b), "_API_KEY");
  }

  lemma {:induction false} SegmentAppend(a: string, b: string)
    ensures Segment(a + b) == Segment(a) + Segment(b)
    decreases |a|
  {
    if a == "" {
      assert a + b == b;
    } else {
      assert (a + b)[1..] == a[1..] + b;
      SegmentAppend(a[1..], b);
    }
  }

  /** Trimming takes off leading slashes, all of them, and nothing else. */
  lemma {:induction false} TrimExactly(path: string) returns (slashes: string)
    ensures path == slashes + TrimSlashes(path) && forall i :: 0 <= i < |slashes| ==> slashes[i] == '/'
    ensures TrimSlashes(path) != "" ==> TrimSlashes(path)[0] != '/'
    decreases |path|
  {
    if path != "" && path[0] == '/' {
      slashes := TrimExactly(path[1..]);
      slashes := "/" + slashes;
      assert path == "/" + path[1..];
    } else {
      slashes := "";
    }
  }

  lemma PassThroughName(path: string, header: string)
    ensures PassThroughEnvVarName(path, header) == "PASSTHROUGH_" + Segment(TrimSlashes(path) + "_" + header)
  {
    var p := TrimSlashes(path);
    SegmentAppend(p + "_", header);
    SegmentAppend(p, "_");
    assert Segment("_") == "_";
    assert "PASSTHROUGH_" + (Segment(p) + "_" + Segment(header)) == "PASSTHROUGH_" + Segment(p) + "_" + Segment(header);
  }

  /** Two headers share one variable exactly when path and header, joined by an underscore,
      are similar; so where the path ends does not count. */
  lemma HeaderVariablesCollideExactly(path: string, header: string, path': string, header': string)
    ensures PassThroughEnvVarName(path, header) == PassThroughEnvVarName(path', header') <==>
      Similar(TrimSlashes(path) + "_" + header, TrimSlashes(path') + "_" + header')
  {
    var a, b := TrimSlashes(path) + "_" + header, TrimSlashes(path') + "_" + header';
    PassThroughName(path, header);
    PassThroughName(path', header');
    SegmentsAgree(a, b);
    Unwrap("PASSTHROUGH_", Segment(a), Segment(b), "");
    assert "PASSTHROUGH_" + Segment(a) + "" == "PASSTHROUGH_" + Segment(a);
    assert "PASSTHROUGH_" + Segment(b) + "" == "PASSTHROUGH_" + Segment(b);
  }
}
