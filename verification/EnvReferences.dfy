/** The os.environ references the proxy config makes for guardrail keys and pass-through
    headers (internal/resources/configmap.go), and the environment the Deployment gives the
    container (internal/resources/deployment.go). */
module EnvReferences {
  import opened Versioned

  datatype SecretKey = SecretKey(name: string, key: string)

  datatype Value = Literal(plain: string) | FromSecret(ref: SecretKey)

  datatype EnvVar = EnvVar(name: string, value: Value)

  /** What a value in the config or in spec.params can be. */
  datatype Json =
    | Null
    | Flag(on: bool)
    | Number(digits: string)
    | Text(text: string)
    | List(items: seq<Json>)
    | Object(members: map<string, Json>)

  /** `instance` is the name spec.instanceRef gives, and `params` the decoded spec.params. */
  datatype Guardrail = Guardrail(
    instance: string,
    name: string,
    provider: string,
    guardrailClass: string,
    mode: string,
    apiKey: Option<SecretKey>,
    apiBase: string,
    defaultOn: Option<bool>,
    unreachableFallback: string,
    params: map<string, Json>,
    env: seq<EnvVar>)

  datatype HeaderSecret = HeaderSecret(header: string, ref: SecretKey, prefix: string)

  datatype Endpoint = Endpoint(path: string, headers: map<string, string>, secrets: seq<HeaderSecret>)

  // ---- Names ----

  predicate Alphanumeric(c: char) {
    'A' <= c <= 'Z' || 'a' <= c <= 'z' || '0' <= c <= '9'
  }

  function UpperChar(c: char): char {
    if 'a' <= c <= 'z' then c - 'a' + 'A' else c
  }

  /** Everything but letters and digits becomes an underscore, and letters upper case. */
  function Sanitised(c: char): char {
    if Alphanumeric(c) then UpperChar(c) else '_'
  }

  function Segment(s: string): string {
    if s == "" then "" else [Sanitised(s[0])] + Segment(s[1..])
  }

  function TrimSlashes(s: string): string {
    if s != "" && s[0] == '/' then TrimSlashes(s[1..]) else s
  }

  function GuardrailEnvVarName(name: string): string {
    "GUARDRAIL_" + Segment(name) + "_API_KEY"
  }

  function PassThroughEnvVarName(path: string, header: string): string {
    "PASSTHROUGH_" + Segment(TrimSlashes(path)) + "_" + Segment(header)
  }

  function Reference(name: string): string {
    "os.environ/" + name
  }

  // ---- The config's side ----

  function SetIf(params: map<string, Json>, given: bool, k: string, v: Json): map<string, Json> {
    if given then params[k := v] else params
  }

  /** What the operator itself sets for a guardrail. */
  function OwnParams(g: Guardrail): map<string, Json> {
    var m := map["guardrail" := Text(if g.provider == "custom_guardrail" then g.guardrailClass else g.provider),
                 "mode" := Text(g.mode)];
    var m := SetIf(m, g.apiKey.Some?, "api_key", Text(Reference(GuardrailEnvVarName(g.name))));
    var m := SetIf(m, g.apiBase != "", "api_base", Text(g.apiBase));
    var m := if g.defaultOn.Some? then m["default_on" := Flag(g.defaultOn.value)] else m;
    SetIf(m, g.unreachableFallback != "", "unreachable_fallback", Text(g.unreachableFallback))
  }

  const STREAMING_KEYS: seq<string> :=
    ["streaming_transform_mode", "streaming_sampling_rate", "streaming_end_of_stream_only"]

  function Restricted(params: map<string, Json>, keys: set<string>): map<string, Json> {
    map k | k in params && k in keys :: params[k]
  }

  /** The user's params for the generic guardrail API: all of them nested, and its streaming
      settings at the top as well. */
  function GenericParams(params: map<string, Json>): map<string, Json> {
    SetIf(map[], params != map[], "additional_provider_specific_params", Object(params)) +
    Restricted(params, set k | k in STREAMING_KEYS)
  }

  /** The litellm_params. User params never replace what the operator sets. */
  function Params(g: Guardrail): map<string, Json> {
    if g.provider == "generic_guardrail_api" then OwnParams(g) + GenericParams(g.params)
    else g.params + OwnParams(g)
  }

  function Bound(instance: string, guardrails: seq<Guardrail>): seq<Guardrail> {
    if guardrails == [] then []
    else
      var g := guardrails[|guardrails| - 1];
      Bound(instance, guardrails[..|guardrails| - 1]) + if g.instance == instance then [g] else []
  }

  // ---- The Deployment's side ----

  function Names(env: seq<EnvVar>): set<string> {
    set e | e in env :: e.name
  }

  function KeyAsk(g: Guardrail): seq<EnvVar> {
    if g.apiKey.Some? then [EnvVar(GuardrailEnvVarName(g.name), FromSecret(g.apiKey.value))] else []
  }

  /** The env entries a guardrail asks for. */
  function Asks(g: Guardrail): seq<EnvVar> {
    KeyAsk(g) + g.env
  }

  function AllAsks(guardrails: seq<Guardrail>): seq<EnvVar> {
    if guardrails == [] then []
    else AllAsks(guardrails[..|guardrails| - 1]) + Asks(guardrails[|guardrails| - 1])
  }

  /** The first entry of every name. */
  function Firsts(env: seq<EnvVar>): seq<EnvVar> {
    if env == [] then []
    else
      var r := Firsts(env[..|env| - 1]);
      var e := env[|env| - 1];
      if e.name in Names(env[..|env| - 1]) then r else r + [e]
  }

  function HeaderEnv(path: string, secrets: seq<HeaderSecret>): seq<EnvVar> {
    seq(|secrets|, i requires 0 <= i < |secrets| =>
      EnvVar(PassThroughEnvVarName(path, secrets[i].header), FromSecret(secrets[i].ref)))
  }

  function EndpointEnv(endpoints: seq<Endpoint>): seq<EnvVar> {
    if endpoints == [] then []
    else
      var ep := endpoints[|endpoints| - 1];
      EndpointEnv(endpoints[..|endpoints| - 1]) + HeaderEnv(ep.path, ep.secrets)
  }

  /** The last user entry of each name. */
  function ByName(user: seq<EnvVar>): map<string, EnvVar> {
    if user == [] then map[]
    else ByName(user[..|user| - 1])[user[|user| - 1].name := user[|user| - 1]]
  }

  function Overridden(operator: seq<EnvVar>, byName: map<string, EnvVar>): seq<EnvVar> {
    seq(|operator|, i requires 0 <= i < |operator| =>
      if operator[i].name in byName then byName[operator[i].name] else operator[i])
  }

  /** User entries whose name is not in `seen`, the first of each name. */
  function Extra(user: seq<EnvVar>, seen: set<string>): seq<EnvVar> {
    if user == [] then []
    else
      var r := Extra(user[..|user| - 1], seen);
      var e := user[|user| - 1];
      if e.name in seen || e.name in Names(user[..|user| - 1]) then r else r + [e]
  }

  function Merged(operator: seq<EnvVar>, user: seq<EnvVar>): seq<EnvVar> {
    Overridden(operator, ByName(user)) + Extra(user, Names(operator))
  }

  /** What a container sees under a name: the last entry counts. */
  function Resolve(env: seq<EnvVar>, name: string): Option<Value> {
    if env == [] then None
    else if env[|env| - 1].name == name then Some(env[|env| - 1].value)
    else Resolve(env[..|env| - 1], name)
  }

  // ---- Rendering the config ----

  datatype Entry = Entry(name: string, params: map<string, Json>)

  function Entries(bound: seq<Guardrail>): seq<Entry> {
    seq(|bound|, i requires 0 <= i < |bound| => Entry(bound[i].name, Params(bound[i])))
  }

  method BuildOwnParams(g: Guardrail) returns (params: map<string, Json>)
    ensures params == OwnParams(g)
  {
    var guardrail := g.provider;
    if g.provider == "custom_guardrail" {
      guardrail := g.guardrailClass;
    }
    params := map["guardrail" := Text(guardrail), "mode" := Text(g.mode)];
    if g.apiKey.Some? {
      params := params["api_key" := Text(Reference(GuardrailEnvVarName(g.name)))];
    }
    if g.apiBase != "" {
      params := params["api_base" := Text(g.apiBase)];
    }
    if g.defaultOn.Some? {
      params := params["default_on" := Flag(g.defaultOn.value)];
    }
    if g.unreachableFallback != "" {
      params := params["unreachable_fallback" := Text(g.unreachableFallback)];
    }
  }

  /** The user's params that are not taken yet, in any order. */
  method AddParams(own: map<string, Json>, user: map<string, Json>) returns (params: map<string, Json>)
    ensures params == user + own
  {
    params := own;
    var rest := user.Keys;
    while rest != {}
      invariant rest <= user.Keys && params == Restricted(user, user.Keys - rest) + own
    {
      var k :| k in rest;
      rest := rest - {k};
      if k in params {
        continue;
      }
      params := params[k := user[k]];
    }
    assert Restricted(user, user.Keys) == user;
  }

  /** The user's params among `keys`, in that order. */
  method CopyParams(own: map<string, Json>, user: map<string, Json>, keys: seq<string>)
    returns (params: map<string, Json>)
    ensures params == own + Restricted(user, set k | k in keys)
  {
    params := own;
    for j := 0 to |keys|
      invariant params == own + Restricted(user, set k | k in keys[..j])
    {
      var k := keys[j];
      assert keys[..j + 1] == keys[..j] + [k];
      if k in user {
        params := params[k := user[k]];
      }
    }
    assert keys[..|keys|] == keys;
  }

  /** The params of a guardrail behind the generic API. */
  method AddGenericParams(own: map<string, Json>, user: map<string, Json>) returns (params: map<string, Json>)
    ensures params == own + GenericParams(user)
  {
    params := own;
    if user != map[] {
      params := params["additional_provider_specific_params" := Object(user)];
    }
    params := CopyParams(params, user, STREAMING_KEYS);
    NestedFirst(own, user);
  }

  lemma NestedFirst(own: map<string, Json>, user: map<string, Json>)
    ensures SetIf(own, user != map[], "additional_provider_specific_params", Object(user)) +
            Restricted(user, set k | k in STREAMING_KEYS) == own + GenericParams(user)
  {
  }

  /** buildGuardrailsList. */
  method BuildGuardrailsList(instance: string, guardrails: seq<Guardrail>) returns (entries: seq<Entry>)
    ensures entries == Entries(Bound(instance, guardrails))
  {
    entries := [];
    for i := 0 to |guardrails|
      invariant entries == Entries(Bound(instance, guardrails[..i]))
    {
      assert guardrails[..i + 1][..i] == guardrails[..i];
      var g := guardrails[i];
      if g.instance != instance {
        continue;
      }
      var params := BuildOwnParams(g);
      if g.provider == "generic_guardrail_api" {
        params := AddGenericParams(params, g.params);
      } else {
        params := AddParams(params, g.params);
      }
      entries := entries + [Entry(g.name, params)];
    }
    assert guardrails[..|guardrails|] == guardrails;
  }

  // ---- Building the environment ----

  lemma FirstsSnoc(env: seq<EnvVar>, e: EnvVar)
    ensures Firsts(env + [e]) == if e.name in Names(env) then Firsts(env) else Firsts(env) + [e]
    ensures Names(env + [e]) == Names(env) + {e.name}
  {
    assert (env + [e])[..|env|] == env;
  }

  /** One entry, unless its name is taken. `before` is what was asked for so far. */
  method Take(e: EnvVar, ghost before: seq<EnvVar>, vars: seq<EnvVar>, seen: set<string>)
    returns (vars': seq<EnvVar>, seen': set<string>)
    requires vars == Firsts(before) && seen == Names(before)
    ensures vars' == Firsts(before + [e]) && seen' == Names(before + [e])
  {
    FirstsSnoc(before, e);
    if e.name in seen {
      return vars, seen;
    }
    return vars + [e], seen + {e.name};
  }

  method TakeAll(env: seq<EnvVar>, ghost before: seq<EnvVar>, vars: seq<EnvVar>, seen: set<string>)
    returns (vars': seq<EnvVar>, seen': set<string>)
    requires vars == Firsts(before) && seen == Names(before)
    ensures vars' == Firsts(before + env) && seen' == Names(before + env)
  {
    vars', seen' := vars, seen;
    assert before + env[..0] == before;
    for j := 0 to |env|
      invariant vars' == Firsts(before + env[..j]) && seen' == Names(before + env[..j])
    {
      vars', seen' := Take(env[j], before + env[..j], vars', seen');
      assert before + env[..j + 1] == before + env[..j] + [env[j]];
    }
    assert env[..|env|] == env;
  }

  lemma AllAsksSnoc(instance: string, guardrails: seq<Guardrail>, i: nat)
    requires i < |guardrails|
    ensures AllAsks(Bound(instance, guardrails[..i + 1])) == AllAsks(Bound(instance, guardrails[..i])) +
      if guardrails[i].instance == instance then Asks(guardrails[i]) else []
  {
    assert guardrails[..i + 1][..i] == guardrails[..i];
    var b := Bound(instance, guardrails[..i]);
    assert (b + [guardrails[i]])[..|b|] == b;
    assert b + [] == b && AllAsks(b) + [] == AllAsks(b);
  }

  /** guardrailEnvVars. */
  method GuardrailEnvVars(instance: string, guardrails: seq<Guardrail>) returns (vars: seq<EnvVar>)
    ensures vars == Firsts(AllAsks(Bound(instance, guardrails)))
  {
    vars := [];
    var seen: set<string> := {};
    for i := 0 to |guardrails|
      invariant vars == Firsts(AllAsks(Bound(instance, guardrails[..i])))
      invariant seen == Names(AllAsks(Bound(instance, guardrails[..i])))
    {
      AllAsksSnoc(instance, guardrails, i);
      ghost var before := AllAsks(Bound(instance, guardrails[..i]));
      var g := guardrails[i];
      if g.instance != instance {
        assert before + [] == before;
        continue;
      }
      vars, seen := TakeAsks(g, before, vars, seen);
    }
    assert guardrails[..|guardrails|] == guardrails;
  }

  /** The key of a guardrail, then its extra entries. */
  method TakeAsks(g: Guardrail, ghost before: seq<EnvVar>, vars: seq<EnvVar>, seen: set<string>)
    returns (vars': seq<EnvVar>, seen': set<string>)
    requires vars == Firsts(before) && seen == Names(before)
    ensures vars' == Firsts(before + Asks(g)) && seen' == Names(before + Asks(g))
  {
    ghost var key := KeyAsk(g);
    if g.apiKey.Some? {
      vars', seen' := Take(EnvVar(GuardrailEnvVarName(g.name), FromSecret(g.apiKey.value)), before, vars, seen);
    } else {
      vars', seen' := vars, seen;
      assert before + key == before;
    }
    vars', seen' := TakeAll(g.env, before + key, vars', seen');
    assert before + key + g.env == before + (key + g.env);
  }

  /** passThroughEnvVars. */
  method PassThroughEnvVars(endpoints: seq<Endpoint>) returns (vars: seq<EnvVar>)
    ensures vars == EndpointEnv(endpoints)
  {
    vars := [];
    for i := 0 to |endpoints|
      invariant vars == EndpointEnv(endpoints[..i])
    {
      assert endpoints[..i + 1][..i] == endpoints[..i];
      var ep := endpoints[i];
      ghost var before := vars;
      for j := 0 to |ep.secrets|
        invariant vars == before + HeaderEnv(ep.path, ep.secrets[..j])
      {
        vars := vars + [EnvVar(PassThroughEnvVarName(ep.path, ep.secrets[j].header), FromSecret(ep.secrets[j].ref))];
      }
      assert ep.secrets[..|ep.secrets|] == ep.secrets;
    }
    assert endpoints[..|endpoints|] == endpoints;
  }

  /** mergeEnvVars. */
  method MergeEnvVars(operator: seq<EnvVar>, user: seq<EnvVar>) returns (merged: seq<EnvVar>)
    ensures merged == Merged(operator, user)
  {
    if user == [] {
      assert Overridden(operator, map[]) == operator;
      return operator;
    }
    var byName := map[];
    for i := 0 to |user|
      invariant byName == ByName(user[..i])
    {
      assert user[..i + 1][..i] == user[..i];
      byName := byName[user[i].name := user[i]];
    }
    assert user[..|user|] == user;
    merged := [];
    var seen: set<string> := {};
    for i := 0 to |operator|
      invariant merged == Overridden(operator[..i], byName)
      invariant seen == Names(operator[..i]) * byName.Keys
    {
      assert operator[..i + 1] == operator[..i] + [operator[i]];
      if operator[i].name in byName {
        merged := merged + [byName[operator[i].name]];
        seen := seen + {operator[i].name};
        continue;
      }
      merged := merged + [operator[i]];
    }
    assert operator[..|operator|] == operator;
    var rest := AppendExtra(user, seen);
    ByNameKeys(user);
    ExtraIgnores(user, seen, Names(operator));
    merged := merged + rest;
  }

  lemma {:induction false} ByNameKeys(user: seq<EnvVar>)
    ensures ByName(user).Keys == Names(user)
    decreases |user|
  {
    if user != [] {
      ByNameKeys(user[..|user| - 1]);
      assert user == user[..|user| - 1] + [user[|user| - 1]];
    }
  }

  /** Only the names of user entries matter among those already there. */
  lemma {:induction false} ExtraIgnores(user: seq<EnvVar>, a: set<string>, b: set<string>)
    requires forall e :: e in user ==> (e.name in a <==> e.name in b)
    ensures Extra(user, a) == Extra(user, b)
    decreases |user|
  {
    if user != [] {
      assert user[|user| - 1] in user;
      ExtraIgnores(user[..|user| - 1], a, b);
    }
  }

  /** The last loop of mergeEnvVars. */
  method AppendExtra(user: seq<EnvVar>, seen: set<string>) returns (rest: seq<EnvVar>)
    ensures rest == Extra(user, seen)
  {
    rest := [];
    var now := seen;
    for i := 0 to |user|
      invariant rest == Extra(user[..i], seen) && now == seen + Names(user[..i])
    {
      assert user[..i + 1] == user[..i] + [user[i]] && user[..i + 1][..i] == user[..i];
      if user[i].name in now {
        continue;
      }
      rest := rest + [user[i]];
      now := now + {user[i].name};
    }
    assert user[..|user|] == user;
  }

  /** The headers of one endpoint, as buildPassThroughEndpointsConfig merges them. */
  function Headers(ep: Endpoint, n: nat): map<string, string>
    requires n <= |ep.secrets|
  {
    if n == 0 then ep.headers
    else
      var hs := ep.secrets[n - 1];
      Headers(ep, n - 1)[hs.header := hs.prefix + Reference(PassThroughEnvVarName(ep.path, hs.header))]
  }

  method BuildHeaders(ep: Endpoint) returns (headers: map<string, string>)
    ensures headers == Headers(ep, |ep.secrets|)
  {
    headers := ep.headers;
    for j := 0 to |ep.secrets|
      invariant headers == Headers(ep, j)
    {
      var hs := ep.secrets[j];
      var ref := Reference(PassThroughEnvVarName(ep.path, hs.header));
      if hs.prefix != "" {
        ref := hs.prefix + ref;
      } else {
        assert hs.prefix + ref == ref;
      }
      headers := headers[hs.header := ref];
    }
  }
}
