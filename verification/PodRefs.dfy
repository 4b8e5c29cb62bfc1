/** Which Secrets or ConfigMaps a pod spec consumes, and which of their keys
    (internal/controller/secret_rollout.go and configmap_rollout.go). */
module PodRefs {
  import opened Versioned
  import opened ByteStrings

  datatype RefKind = SecretKind | ConfigMapKind

  datatype KeyRef = KeyRef(name: Bytes, key: Bytes)

  /** A Secret or ConfigMap as a volume source; no items means all of it. */
  datatype Source = Source(name: Bytes, items: seq<Bytes>)

  datatype EnvVar = EnvVar(secret: Option<KeyRef>, configMap: Option<KeyRef>) {
    function Ref(kind: RefKind): Option<KeyRef> {
      if kind == SecretKind then secret else configMap
    }
  }

  datatype EnvFrom = EnvFrom(secret: Option<Bytes>, configMap: Option<Bytes>) {
    function Ref(kind: RefKind): Option<Bytes> {
      if kind == SecretKind then secret else configMap
    }
  }

  datatype Container = Container(env: seq<EnvVar>, envFrom: seq<EnvFrom>)

  datatype Projection = Projection(secret: Option<Source>, configMap: Option<Source>) {
    function Ref(kind: RefKind): Option<Source> {
      if kind == SecretKind then secret else configMap
    }
  }

  datatype Volume = Volume(source: Projection, projected: seq<Projection>)

  datatype PodSpec = PodSpec(containers: seq<Container>, initContainers: seq<Container>, volumes: seq<Volume>)

  /** A way an object is consumed: as a whole, or one key of it. */
  datatype Use = Whole | Key(key: Bytes)

  datatype Touch = Touch(name: Bytes, use: Use)

  // ---- What a pod spec consumes ----

  function EnvTouches(kind: RefKind, e: EnvVar): set<Touch> {
    if e.Ref(kind).Some? && e.Ref(kind).value.name != []
    then {Touch(e.Ref(kind).value.name, Key(e.Ref(kind).value.key))} else {}
  }

  function EnvFromTouches(kind: RefKind, e: EnvFrom): set<Touch> {
    if e.Ref(kind).Some? && e.Ref(kind).value != [] then {Touch(e.Ref(kind).value, Whole)} else {}
  }

  function SourceTouches(s: Source): set<Touch> {
    if s.name == [] then {}
    else if s.items == [] then {Touch(s.name, Whole)}
    else set k | k in s.items :: Touch(s.name, Key(k))
  }

  function ProjectionTouches(kind: RefKind, p: Projection): set<Touch> {
    if p.Ref(kind).Some? then SourceTouches(p.Ref(kind).value) else {}
  }

  function AllEnv(kind: RefKind, env: seq<EnvVar>): set<Touch> {
    set e, t | e in env && t in EnvTouches(kind, e) :: t
  }

  function AllEnvFrom(kind: RefKind, envFrom: seq<EnvFrom>): set<Touch> {
    set e, t | e in envFrom && t in EnvFromTouches(kind, e) :: t
  }

  function AllProjected(kind: RefKind, ps: seq<Projection>): set<Touch> {
    set p, t | p in ps && t in ProjectionTouches(kind, p) :: t
  }

  /** A volume is the object itself, or else a projection of several. */
  function VolumeTouches(kind: RefKind, v: Volume): set<Touch> {
    if v.source.Ref(kind).Some? then SourceTouches(v.source.Ref(kind).value) else AllProjected(kind, v.projected)
  }

  function ContainerTouches(kind: RefKind, c: Container): set<Touch> {
    AllEnv(kind, c.env) + AllEnvFrom(kind, c.envFrom)
  }

  function AllContainers(kind: RefKind, cs: seq<Container>): set<Touch> {
    set c, t | c in cs && t in ContainerTouches(kind, c) :: t
  }

  function AllVolumes(kind: RefKind, vs: seq<Volume>): set<Touch> {
    set v, t | v in vs && t in VolumeTouches(kind, v) :: t
  }

  /** Everything the pod consumes of a kind, wherever it says so. */
  function Touches(kind: RefKind, spec: PodSpec): set<Touch> {
    AllContainers(kind, spec.containers + spec.initContainers) + AllVolumes(kind, spec.volumes)
  }

  /** A dataRef as a value. */
  datatype Consumption = Consumption(whole: bool, keys: set<Bytes>)

  predicate Has(refs: map<Bytes, Consumption>, t: Touch) {
    t.name in refs && if t.use.Whole? then refs[t.name].whole else t.use.key in refs[t.name].keys
  }

  /** `refs` records exactly these touches, and has no entry without one. */
  ghost predicate Exact(refs: map<Bytes, Consumption>, touches: set<Touch>) {
    && (forall t :: Has(refs, t) <==> t in touches)
    && forall n :: n in refs ==> refs[n].whole || refs[n].keys != {}
  }

  function KeysOf(touches: set<Touch>, name: Bytes): set<Bytes> {
    set t | t in touches && t.name == name && t.use.Key? :: t.use.key
  }

  /** The refs that record exactly `touches`. */
  function RefsOf(touches: set<Touch>): map<Bytes, Consumption> {
    map n | n in (set t | t in touches :: t.name) :: Consumption(Touch(n, Whole) in touches, KeysOf(touches, n))
  }

  lemma RefsOfIsExact(touches: set<Touch>)
    ensures Exact(RefsOf(touches), touches)
  {
    var refs := RefsOf(touches);
    forall t: Touch
      ensures Has(refs, t) <==> t in touches
    {
      if t in touches {
        assert t.name in refs;
        assert t.use.Key? ==> t.use.key in KeysOf(touches, t.name);
      }
    }
    forall n | n in refs
      ensures refs[n].whole || refs[n].keys != {}
    {
      var t :| t in touches && t.name == n;
      assert Has(refs, t);
    }
  }

  /** So what the pod consumes determines what is recorded. */
  lemma ExactIsUnique(a: map<Bytes, Consumption>, b: map<Bytes, Consumption>, touches: set<Touch>)
    requires Exact(a, touches) && Exact(b, touches)
    ensures a == b
  {
    forall n
      ensures n in a <==> n in b
      ensures n in a ==> a[n] == b[n]
    {
      SameEntry(a, b, touches, n);
      SameEntry(b, a, touches, n);
    }
  }

  lemma SameEntry(a: map<Bytes, Consumption>, b: map<Bytes, Consumption>, touches: set<Touch>, n: Bytes)
    requires Exact(a, touches) && Exact(b, touches)
    ensures n in a ==> n in b && (a[n].whole ==> b[n].whole) && a[n].keys <= b[n].keys
  {
    if n in a {
      if a[n].whole {
        assert Has(a, Touch(n, Whole)) && Has(b, Touch(n, Whole));
      }
      forall k | k in a[n].keys
        ensures n in b && k in b[n].keys
      {
        assert Has(a, Touch(n, Key(k))) && Has(b, Touch(n, Key(k)));
      }
      if !a[n].whole {
        var k :| k in a[n].keys;
      }
    }
  }

  // ---- Collecting it ----

  lemma EnvSnoc(kind: RefKind, env: seq<EnvVar>, j: nat)
    requires j < |env|
    ensures AllEnv(kind, env[..j + 1]) == AllEnv(kind, env[..j]) + EnvTouches(kind, env[j])
  {
    assert env[..j + 1] == env[..j] + [env[j]];
  }

  lemma EnvFromSnoc(kind: RefKind, envFrom: seq<EnvFrom>, j: nat)
    requires j < |envFrom|
    ensures AllEnvFrom(kind, envFrom[..j + 1]) == AllEnvFrom(kind, envFrom[..j]) + EnvFromTouches(kind, envFrom[j])
  {
    assert envFrom[..j + 1] == envFrom[..j] + [envFrom[j]];
  }

  lemma ProjectedSnoc(kind: RefKind, ps: seq<Projection>, j: nat)
    requires j < |ps|
    ensures AllProjected(kind, ps[..j + 1]) == AllProjected(kind, ps[..j]) + ProjectionTouches(kind, ps[j])
  {
    assert ps[..j + 1] == ps[..j] + [ps[j]];
  }

  lemma ContainersSnoc(kind: RefKind, cs: seq<Container>, j: nat)
    requires j < |cs|
    ensures AllContainers(kind, cs[..j + 1]) == AllContainers(kind, cs[..j]) + ContainerTouches(kind, cs[j])
  {
    assert cs[..j + 1] == cs[..j] + [cs[j]];
  }

  lemma VolumesSnoc(kind: RefKind, vs: seq<Volume>, j: nat)
    requires j < |vs|
    ensures AllVolumes(kind, vs[..j + 1]) == AllVolumes(kind, vs[..j]) + VolumeTouches(kind, vs[j])
  {
    assert vs[..j + 1] == vs[..j] + [vs[j]];
  }

  /** dataRef: how one object is consumed. */
  class DataRef {
    ghost const name: Bytes
    var whole: bool
    var keys: set<Bytes>

    constructor (ghost name: Bytes)
      ensures this.name == name && !whole && keys == {}
    {
      this.name := name;
      whole, keys := false, {};
    }

    method AddKey(key: Bytes)
      modifies this`keys
      ensures keys == old(keys) + {key}
    {
      keys := keys + {key};
    }

    /** The items of a volume source. */
    method AddKeys(items: seq<Bytes>)
      modifies this`keys
      ensures keys == old(keys) + set k | k in items
    {
      for j := 0 to |items|
        invariant keys == old(keys) + set k | k in items[..j]
      {
        AddKey(items[j]);
        assert items[..j + 1] == items[..j] + [items[j]];
      }
      assert items[..|items|] == items;
    }
  }

  /** The refs of a collector, which it shares with whoever asked it for one. */
  class Collector {
    const kind: RefKind
    var refs: map<Bytes, DataRef>

    /** No two names share a dataRef. */
    ghost predicate Valid()
      reads this
    {
      forall n :: n in refs ==> refs[n].name == n
    }

    ghost predicate Holds(t: Touch)
      reads this, refs.Values
    {
      t.name in refs && if t.use.Whole? then refs[t.name].whole else t.use.key in refs[t.name].keys
    }

    /** Exact, said of the collector. */
    ghost predicate Records(touches: set<Touch>)
      reads this, refs.Values
    {
      && (forall t :: Holds(t) <==> t in touches)
      && forall n :: n in refs ==> refs[n].whole || refs[n].keys != {}
    }

    constructor (kind: RefKind)
      ensures this.kind == kind && Valid() && refs == map[]
    {
      this.kind := kind;
      refs := map[];
    }

    /** refFunc. */
    method Ref(name: Bytes) returns (r: DataRef?)
      requires Valid()
      modifies this`refs
      ensures Valid()
      ensures name == [] ==> r == null && refs == old(refs)
      ensures name != [] ==> r != null && name in refs && refs[name] == r
      ensures name != [] && name in old(refs) ==> refs == old(refs)
      ensures name != [] && name !in old(refs) ==>
        refs == old(refs)[name := r] && fresh(r) && !r.whole && r.keys == {}
    {
      if name == [] {
        return null;
      }
      if name in refs {
        return refs[name];
      }
      r := new DataRef(name);
      refs := refs[name := r];
    }

    /** envFrom, or a volume without items. */
    method TakeWhole(name: Bytes, ghost touches: set<Touch>)
      requires Valid() && Records(touches)
      modifies this`refs, refs.Values
      ensures Valid() && fresh(refs.Values - old(refs.Values))
      ensures Records(touches + if name == [] then {} else {Touch(name, Whole)})
    {
      var r := Ref(name);
      if r != null {
        r.whole := true;
      }
    }

    /** A key reference. */
    method TakeKey(name: Bytes, key: Bytes, ghost touches: set<Touch>)
      requires Valid() && Records(touches)
      modifies this`refs, refs.Values
      ensures Valid() && fresh(refs.Values - old(refs.Values))
      ensures Records(touches + if name == [] then {} else {Touch(name, Key(key))})
    {
      var r := Ref(name);
      if r != null {
        r.AddKey(key);
      }
    }

    /** A volume source: all of the object, or the items it lists. */
    method TakeSource(s: Source, ghost touches: set<Touch>)
      requires Valid() && Records(touches)
      modifies this`refs, refs.Values
      ensures Valid() && fresh(refs.Values - old(refs.Values))
      ensures Records(touches + SourceTouches(s))
    {
      if s.name == [] || s.items == [] {
        TakeWhole(s.name, touches);
        return;
      }
      var r := Ref(s.name);
      r.AddKeys(s.items);
      assert s.items[0] in r.keys;
      forall t: Touch
        ensures Holds(t) <==> t in touches + SourceTouches(s)
      {
        assert old(Holds(t)) <==> t in touches;
      }
    }

    method TakeContainer(c: Container, ghost touches: set<Touch>)
      requires Valid() && Records(touches)
      modifies this`refs, refs.Values
      ensures Valid() && fresh(refs.Values - old(refs.Values))
      ensures Records(touches + ContainerTouches(kind, c))
    {
      for j := 0 to |c.env|
        invariant Valid() && fresh(refs.Values - old(refs.Values))
        invariant Records(touches + AllEnv(kind, c.env[..j]))
      {
        EnvSnoc(kind, c.env, j);
        var ref := c.env[j].Ref(kind);
        if ref.Some? {
          TakeKey(ref.value.name, ref.value.key, touches + AllEnv(kind, c.env[..j]));
        }
      }
      assert c.env[..|c.env|] == c.env;
      for j := 0 to |c.envFrom|
        invariant Valid() && fresh(refs.Values - old(refs.Values))
        invariant Records(touches + AllEnv(kind, c.env) + AllEnvFrom(kind, c.envFrom[..j]))
      {
        EnvFromSnoc(kind, c.envFrom, j);
        var ref := c.envFrom[j].Ref(kind);
        if ref.Some? {
          TakeWhole(ref.value, touches + AllEnv(kind, c.env) + AllEnvFrom(kind, c.envFrom[..j]));
        }
      }
      assert c.envFrom[..|c.envFrom|] == c.envFrom;
    }

    method TakeVolume(v: Volume, ghost touches: set<Touch>)
      requires Valid() && Records(touches)
      modifies this`refs, refs.Values
      ensures Valid() && fresh(refs.Values - old(refs.Values))
      ensures Records(touches + VolumeTouches(kind, v))
    {
      if v.source.Ref(kind).Some? {
        TakeSource(v.source.Ref(kind).value, touches);
        return;
      }
      for j := 0 to |v.projected|
        invariant Valid() && fresh(refs.Values - old(refs.Values))
        invariant Records(touches + AllProjected(kind, v.projected[..j]))
      {
        ProjectedSnoc(kind, v.projected, j);
        var ref := v.projected[j].Ref(kind);
        if ref.Some? {
          TakeSource(ref.value, touches + AllProjected(kind, v.projected[..j]));
        }
      }
      assert v.projected[..|v.projected|] == v.projected;
    }

    /** podSpecSecretRefs and podSpecConfigMapRefs. */
    method Collect(spec: PodSpec)
      requires refs == map[]
      modifies this`refs
      ensures Valid() && fresh(refs.Values)
      ensures Records(Touches(kind, spec))
    {
      var cs := spec.containers + spec.initContainers;
      for j := 0 to |cs|
        invariant Valid() && fresh(refs.Values)
        invariant Records(AllContainers(kind, cs[..j]))
      {
        ContainersSnoc(kind, cs, j);
        TakeContainer(cs[j], AllContainers(kind, cs[..j]));
      }
      assert cs[..|cs|] == cs;
      for j := 0 to |spec.volumes|
        invariant Valid() && fresh(refs.Values)
        invariant Records(AllContainers(kind, cs) + AllVolumes(kind, spec.volumes[..j]))
      {
        VolumesSnoc(kind, spec.volumes, j);
        TakeVolume(spec.volumes[j], AllContainers(kind, cs) + AllVolumes(kind, spec.volumes[..j]));
      }
      assert spec.volumes[..|spec.volumes|] == spec.volumes;
    }

    /** The refs as values. */
    ghost function View(): map<Bytes, Consumption>
      reads this, refs.Values
    {
      map n | n in refs :: Consumption(refs[n].whole, refs[n].keys)
    }

    lemma ViewIsExact(touches: set<Touch>)
      requires Records(touches)
      ensures Exact(View(), touches)
    {
      forall t: Touch
        ensures Has(View(), t) <==> t in touches
      {
        assert Holds(t) <==> t in touches;
      }
    }
  }

  // ---- Order does not matter ----

  datatype ContainerBag = ContainerBag(env: multiset<EnvVar>, envFrom: multiset<EnvFrom>)
  datatype SourceBag = SourceBag(name: Bytes, items: multiset<Bytes>)
  datatype ProjectionBag = ProjectionBag(secret: Option<SourceBag>, configMap: Option<SourceBag>)
  datatype VolumeBag = VolumeBag(source: ProjectionBag, projected: multiset<ProjectionBag>)
  datatype SpecBag = SpecBag(containers: multiset<ContainerBag>, volumes: multiset<VolumeBag>)

  function BagOf<A, B(==)>(f: A -> B, s: seq<A>): multiset<B> {
    if s == [] then multiset{} else BagOf(f, s[..|s| - 1]) + multiset{f(s[|s| - 1])}
  }

  function BagContainer(c: Container): ContainerBag {
    ContainerBag(multiset(c.env), multiset(c.envFrom))
  }

  function BagSource(s: Option<Source>): Option<SourceBag> {
    if s.None? then None else Some(SourceBag(s.value.name, multiset(s.value.items)))
  }

  function BagProjection(p: Projection): ProjectionBag {
    ProjectionBag(BagSource(p.secret), BagSource(p.configMap))
  }

  function BagVolume(v: Volume): VolumeBag {
    VolumeBag(BagProjection(v.source), BagOf(BagProjection, v.projected))
  }

  /** A pod spec up to the order of its containers, env entries, volumes, projections and
      items. */
  function BagSpec(spec: PodSpec): SpecBag {
    SpecBag(BagOf(BagContainer, spec.containers + spec.initContainers), BagOf(BagVolume, spec.volumes))
  }

  lemma {:induction false} BagHas<A, B>(f: A -> B, s: seq<A>, i: nat)
    requires i < |s|
    ensures f(s[i]) in BagOf(f, s)
    decreases |s|
  {
    if i < |s| - 1 {
      BagHas(f, s[..|s| - 1], i);
    }
  }

  lemma {:induction false} BagFind<A, B>(f: A -> B, s: seq<A>, b: B) returns (j: nat)
    requires b in BagOf(f, s)
    ensures j < |s| && f(s[j]) == b
    decreases |s|
  {
    var n := |s| - 1;
    if f(s[n]) == b {
      j := n;
    } else {
      j := BagFind(f, s[..n], b);
    }
  }

  /** A reordering has every element again. */
  lemma BagMatch<A, B>(f: A -> B, s: seq<A>, s': seq<A>, i: nat) returns (j: nat)
    requires BagOf(f, s) == BagOf(f, s') && i < |s|
    ensures j < |s'| && f(s'[j]) == f(s[i])
  {
    BagHas(f, s, i);
    j := BagFind(f, s', f(s[i]));
  }

  lemma SourceUpToOrder(s: Source, s': Source)
    requires BagSource(Some(s)) == BagSource(Some(s'))
    ensures SourceTouches(s) == SourceTouches(s')
  {
    assert forall k :: k in s.items <==> k in multiset(s.items);
    assert forall k :: k in s'.items <==> k in multiset(s'.items);
    assert |multiset(s.items)| == |s.items| && |multiset(s'.items)| == |s'.items|;
  }

  lemma ProjectionUpToOrder(kind: RefKind, p: Projection, p': Projection)
    requires BagProjection(p) == BagProjection(p')
    ensures ProjectionTouches(kind, p) == ProjectionTouches(kind, p') && p.Ref(kind).Some? == p'.Ref(kind).Some?
  {
    if p.Ref(kind).Some? {
      SourceUpToOrder(p.Ref(kind).value, p'.Ref(kind).value);
    }
  }

  lemma ProjectedUpToOrder(kind: RefKind, ps: seq<Projection>, ps': seq<Projection>)
    requires BagOf(BagProjection, ps) == BagOf(BagProjection, ps')
    ensures AllProjected(kind, ps) <= AllProjected(kind, ps')
  {
    forall t | t in AllProjected(kind, ps)
      ensures t in AllProjected(kind, ps')
    {
      var i :| 0 <= i < |ps| && t in ProjectionTouches(kind, ps[i]);
      var j := BagMatch(BagProjection, ps, ps', i);
      ProjectionUpToOrder(kind, ps[i], ps'[j]);
    }
  }

  lemma VolumeUpToOrder(kind: RefKind, v: Volume, v': Volume)
    requires BagVolume(v) == BagVolume(v')
    ensures VolumeTouches(kind, v) == VolumeTouches(kind, v')
  {
    ProjectionUpToOrder(kind, v.source, v'.source);
    ProjectedUpToOrder(kind, v.projected, v'.projected);
    ProjectedUpToOrder(kind, v'.projected, v.projected);
  }

  lemma ContainerUpToOrder(kind: RefKind, c: Container, c': Container)
    requires BagContainer(c) == BagContainer(c')
    ensures ContainerTouches(kind, c) == ContainerTouches(kind, c')
  {
    assert forall e :: e in c.env <==> e in multiset(c.env);
    assert forall e :: e in c'.env <==> e in multiset(c'.env);
    assert forall e :: e in c.envFrom <==> e in multiset(c.envFrom);
    assert forall e :: e in c'.envFrom <==> e in multiset(c'.envFrom);
  }

  lemma ContainersUpToOrder(kind: RefKind, cs: seq<Container>, cs': seq<Container>)
    requires BagOf(BagContainer, cs) == BagOf(BagContainer, cs')
    ensures AllContainers(kind, cs) <= AllContainers(kind, cs')
  {
    forall t | t in AllContainers(kind, cs)
      ensures t in AllContainers(kind, cs')
    {
      var i :| 0 <= i < |cs| && t in ContainerTouches(kind, cs[i]);
      var j := BagMatch(BagContainer, cs, cs', i);
      ContainerUpToOrder(kind, cs[i], cs'[j]);
    }
  }

  lemma VolumesUpToOrder(kind: RefKind, vs: seq<Volume>, vs': seq<Volume>)
    requires BagOf(BagVolume, vs) == BagOf(BagVolume, vs')
    ensures AllVolumes(kind, vs) <= AllVolumes(kind, vs')
  {
    forall t | t in AllVolumes(kind, vs)
      ensures t in AllVolumes(kind, vs')
    {
      var i :| 0 <= i < |vs| && t in VolumeTouches(kind, vs[i]);
      var j := BagMatch(BagVolume, vs, vs', i);
      VolumeUpToOrder(kind, vs[i], vs'[j]);
    }
  }

  lemma TouchesUpToOrder(kind: RefKind, spec: PodSpec, spec': PodSpec)
    requires BagSpec(spec) == BagSpec(spec')
    ensures Touches(kind, spec) <= Touches(kind, spec')
  {
    ContainersUpToOrder(kind, spec.containers + spec.initContainers, spec'.containers + spec'.initContainers);
    VolumesUpToOrder(kind, spec.volumes, spec'.volumes);
  }

  /** Whatever is collected from a pod spec is collected from every reordering of it. */
  lemma CollectionIsOrderFree(kind: RefKind, spec: PodSpec, spec': PodSpec,
                              refs: map<Bytes, Consumption>, refs': map<Bytes, Consumption>)
    requires BagSpec(spec) == BagSpec(spec')
    requires Exact(refs, Touches(kind, spec)) && Exact(refs', Touches(kind, spec'))
    ensures refs == refs'
  {
    TouchesUpToOrder(kind, spec, spec');
    TouchesUpToOrder(kind, spec', spec);
    ExactIsUnique(refs, refs', Touches(kind, spec));
  }
}
