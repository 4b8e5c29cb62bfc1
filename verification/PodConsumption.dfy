/** What a pod consumes, read off the fields of its spec, and with it which rotations roll the
    pod. */
module PodConsumption {
  import opened Versioned
  import opened ByteStrings
  import opened PodRefs
  import opened Rollout

  // ---- The fields of a pod spec ----

  /** Where the parts of a pod spec refer to objects of one kind. */
  datatype RefFields = RefFields(
    env: EnvVar -> Option<KeyRef>,
    envFrom: EnvFrom -> Option<Bytes>,
    source: Projection -> Option<Source>)

  function SecretFields(): RefFields {
    RefFields((e: EnvVar) => e.secret, (e: EnvFrom) => e.secret, (p: Projection) => p.secret)
  }

  function ConfigMapFields(): RefFields {
    RefFields((e: EnvVar) => e.configMap, (e: EnvFrom) => e.configMap, (p: Projection) => p.configMap)
  }

  predicate IsContainer(spec: PodSpec, c: Container) {
    c in spec.containers || c in spec.initContainers
  }

  /** A container or init container reads key `k` of object `n` into its environment. */
  ghost predicate EnvReads(f: RefFields, spec: PodSpec, n: Bytes, k: Bytes) {
    exists c, e :: IsContainer(spec, c) && e in c.env && f.env(e) == Some(KeyRef(n, k))
  }

  /** One takes its environment from all of it. */
  ghost predicate EnvTakes(f: RefFields, spec: PodSpec, n: Bytes) {
    exists c, e :: IsContainer(spec, c) && e in c.envFrom && f.envFrom(e) == Some(n)
  }

  /** The volume is of source `s`, or, if it is of none of that kind, projects it. */
  ghost predicate VolumeMounts(f: RefFields, v: Volume, s: Source) {
    f.source(v.source) == Some(s) ||
    (f.source(v.source) == None && exists p :: p in v.projected && f.source(p) == Some(s))
  }

  ghost predicate Mounts(f: RefFields, spec: PodSpec, s: Source) {
    exists v :: v in spec.volumes && VolumeMounts(f, v, s)
  }

  /** Key `k` of object `n` is consumed by name: in the environment, or as an item of a volume. */
  ghost predicate ConsumesKey(f: RefFields, spec: PodSpec, n: Bytes, k: Bytes) {
    n != [] && (EnvReads(f, spec, n, k) || exists s :: Mounts(f, spec, s) && s.name == n && k in s.items)
  }

  /** All of object `n` is consumed: by the environment, or by a volume without items. */
  ghost predicate ConsumesWhole(f: RefFields, spec: PodSpec, n: Bytes) {
    n != [] && (EnvTakes(f, spec, n) || Mounts(f, spec, Source(n, [])))
  }

  // ---- Both kinds at once ----

  ghost predicate FieldsOf(f: RefFields, kind: RefKind) {
    && (forall e: EnvVar :: f.env(e) == e.Ref(kind))
    && (forall e: EnvFrom :: f.envFrom(e) == e.Ref(kind))
    && (forall p: Projection :: f.source(p) == p.Ref(kind))
  }

  lemma KindFields()
    ensures FieldsOf(SecretFields(), SecretKind) && FieldsOf(ConfigMapFields(), ConfigMapKind)
  {
  }

  lemma ContainersTouchKey(f: RefFields, kind: RefKind, spec: PodSpec, n: Bytes, k: Bytes)
    requires FieldsOf(f, kind)
    ensures Touch(n, Key(k)) in AllContainers(kind, spec.containers + spec.initContainers) <==>
      n != [] && EnvReads(f, spec, n, k)
  {
    var all, t := spec.containers + spec.initContainers, Touch(n, Key(k));
    if t in AllContainers(kind, all) {
      var c :| c in all && t in ContainerTouches(kind, c);
      assert IsContainer(spec, c);
      var e :| e in c.env && t in EnvTouches(kind, e);
      assert f.env(e) == Some(KeyRef(n, k));
    }
    if n != [] && EnvReads(f, spec, n, k) {
      var c, e :| IsContainer(spec, c) && e in c.env && f.env(e) == Some(KeyRef(n, k));
      assert c in all && t in EnvTouches(kind, e) && t in AllEnv(kind, c.env) && t in ContainerTouches(kind, c);
    }
  }

  lemma ContainersTouchWhole(f: RefFields, kind: RefKind, spec: PodSpec, n: Bytes)
    requires FieldsOf(f, kind)
    ensures Touch(n, Whole) in AllContainers(kind, spec.containers + spec.initContainers) <==>
      n != [] && EnvTakes(f, spec, n)
  {
    var all, t := spec.containers + spec.initContainers, Touch(n, Whole);
    if t in AllContainers(kind, all) {
      var c :| c in all && t in ContainerTouches(kind, c);
      assert IsContainer(spec, c);
      var e :| e in c.envFrom && t in EnvFromTouches(kind, e);
      assert f.envFrom(e) == Some(n);
    }
    if n != [] && EnvTakes(f, spec, n) {
      var c, e :| IsContainer(spec, c) && e in c.envFrom && f.envFrom(e) == Some(n);
      assert c in all && t in EnvFromTouches(kind, e) && t in AllEnvFrom(kind, c.envFrom);
      assert t in ContainerTouches(kind, c);
    }
  }

  /** A source meets a touch: no items for all of it, the key among them for a key. */
  predicate Meets(s: Source, t: Touch) {
    t.name == s.name && t.name != [] && if t.use.Whole? then s.items == [] else t.use.key in s.items
  }

  lemma SourceTouch(s: Source, t: Touch)
    ensures t in SourceTouches(s) <==> Meets(s, t)
  {
  }

  lemma VolumeTouch(f: RefFields, kind: RefKind, v: Volume, t: Touch)
    requires FieldsOf(f, kind)
    ensures t in VolumeTouches(kind, v) <==> exists s :: VolumeMounts(f, v, s) && Meets(s, t)
  {
    if v.source.Ref(kind).Some? {
      SourceTouch(v.source.Ref(kind).value, t);
      assert VolumeMounts(f, v, v.source.Ref(kind).value);
    } else {
      ProjectedTouch(f, kind, v, t);
    }
  }

  lemma ProjectedTouch(f: RefFields, kind: RefKind, v: Volume, t: Touch)
    requires FieldsOf(f, kind) && v.source.Ref(kind).None?
    ensures t in AllProjected(kind, v.projected) <==> exists s :: VolumeMounts(f, v, s) && Meets(s, t)
  {
    if t in AllProjected(kind, v.projected) {
      var p :| p in v.projected && t in ProjectionTouches(kind, p);
      SourceTouch(p.Ref(kind).value, t);
      assert f.source(p) == Some(p.Ref(kind).value);
      assert VolumeMounts(f, v, p.Ref(kind).value);
    }
    if exists s :: VolumeMounts(f, v, s) && Meets(s, t) {
      var s :| VolumeMounts(f, v, s) && Meets(s, t);
      var p :| p in v.projected && f.source(p) == Some(s);
      SourceTouch(s, t);
      assert t in ProjectionTouches(kind, p);
    }
  }

  lemma VolumesTouch(f: RefFields, kind: RefKind, spec: PodSpec, t: Touch)
    requires FieldsOf(f, kind)
    ensures t in AllVolumes(kind, spec.volumes) <==> exists s :: Mounts(f, spec, s) && Meets(s, t)
  {
    if t in AllVolumes(kind, spec.volumes) {
      var v :| v in spec.volumes && t in VolumeTouches(kind, v);
      VolumeTouch(f, kind, v, t);
      var s :| VolumeMounts(f, v, s) && Meets(s, t);
      assert Mounts(f, spec, s);
    }
    if exists s :: Mounts(f, spec, s) && Meets(s, t) {
      var s :| Mounts(f, spec, s) && Meets(s, t);
      var v :| v in spec.volumes && VolumeMounts(f, v, s);
      VolumeTouch(f, kind, v, t);
    }
  }

  lemma KeyTouched(f: RefFields, kind: RefKind, spec: PodSpec, n: Bytes, k: Bytes)
    requires FieldsOf(f, kind)
    ensures Touch(n, Key(k)) in Touches(kind, spec) <==> ConsumesKey(f, spec, n, k)
  {
    var t := Touch(n, Key(k));
    ContainersTouchKey(f, kind, spec, n, k);
    VolumesTouch(f, kind, spec, t);
    assert forall s :: Meets(s, t) <==> s.name == n && n != [] && k in s.items;
  }

  lemma WholeTouched(f: RefFields, kind: RefKind, spec: PodSpec, n: Bytes)
    requires FieldsOf(f, kind)
    ensures Touch(n, Whole) in Touches(kind, spec) <==> ConsumesWhole(f, spec, n)
  {
    var t := Touch(n, Whole);
    ContainersTouchWhole(f, kind, spec, n);
    VolumesTouch(f, kind, spec, t);
    assert forall s :: Meets(s, t) <==> s == Source(n, []) && n != [];
  }

  // ---- What is recorded ----

  /** The Secrets recorded, with their keys, are those the pod spec consumes, and no others. */
  lemma SecretTouchesExactly(spec: PodSpec, n: Bytes, k: Bytes)
    ensures Touch(n, Key(k)) in Touches(SecretKind, spec) <==> ConsumesKey(SecretFields(), spec, n, k)
    ensures Touch(n, Whole) in Touches(SecretKind, spec) <==> ConsumesWhole(SecretFields(), spec, n)
  {
    KindFields();
    KeyTouched(SecretFields(), SecretKind, spec, n, k);
    WholeTouched(SecretFields(), SecretKind, spec, n);
  }

  /** And so for ConfigMaps. */
  lemma ConfigMapTouchesExactly(spec: PodSpec, n: Bytes, k: Bytes)
    ensures Touch(n, Key(k)) in Touches(ConfigMapKind, spec) <==> ConsumesKey(ConfigMapFields(), spec, n, k)
    ensures Touch(n, Whole) in Touches(ConfigMapKind, spec) <==> ConsumesWhole(ConfigMapFields(), spec, n)
  {
    KindFields();
    KeyTouched(ConfigMapFields(), ConfigMapKind, spec, n, k);
    WholeTouched(ConfigMapFields(), ConfigMapKind, spec, n);
  }

  // ---- What rolls the pod ----

  /** Two states the digest is to tell apart: readable, with plain names and keys and no marker
      values, and comparable. */
  ghost predicate Telling(refs: Refs, a: Cluster, b: Cluster) {
    && Sane(refs, a) && Sane(refs, b) && Framed(refs, a) && Framed(refs, b) && Comparable(refs, a, b)
    && NoMarkers(refs, a) && NoMarkers(refs, b)
  }

  /** What object `n` holds under key `k`, if it is there and has it. */
  function ValueOf(cluster: Cluster, n: Bytes, k: Bytes): Option<Bytes> {
    match Get(cluster, n)
    case Found(data) => if k in data then Some(data[k]) else None
    case _ => None
  }

  ghost predicate Consumes(f: RefFields, spec: PodSpec, n: Bytes, k: Bytes) {
    ConsumesKey(f, spec, n, k) || ConsumesWhole(f, spec, n)
  }

  lemma SameViewSameValue(c: Consumption, a: Cluster, b: Cluster, n: Bytes, k: Bytes)
    requires c.whole || k in c.keys
    requires View(c, Get(a, n)) == View(c, Get(b, n))
    ensures ValueOf(a, n, k) == ValueOf(b, n, k)
  {
    var x, y := View(c, Get(a, n)), View(c, Get(b, n));
    if x.Some? {
      assert k in x.value <==> k in y.value;
      assert k in x.value ==> x.value[k] == y.value[k];
    }
  }

  lemma ChangeIsVisible(f: RefFields, kind: RefKind, spec: PodSpec, n: Bytes, k: Bytes, a: Cluster, b: Cluster,
                        sha: Bytes -> string)
    requires FieldsOf(f, kind) && Consumes(f, spec, n, k) && ValueOf(a, n, k) != ValueOf(b, n, k)
    requires Telling(RefsOf(Touches(kind, spec)), a, b) && forall x, y :: sha(x) == sha(y) ==> x == y
    ensures DigestOf(RefsOf(Touches(kind, spec)), a, sha) != DigestOf(RefsOf(Touches(kind, spec)), b, sha)
  {
    var refs := RefsOf(Touches(kind, spec));
    KeyTouched(f, kind, spec, n, k);
    WholeTouched(f, kind, spec, n);
    RefsOfIsExact(Touches(kind, spec));
    assert Has(refs, Touch(n, Key(k))) || Has(refs, Touch(n, Whole));
    if View(refs[n], Get(a, n)) == View(refs[n], Get(b, n)) {
      SameViewSameValue(refs[n], a, b, n, k);
    }
    RotationIsVisible(refs, a, b, sha);
  }

  /** So a consumed Secret value that changes, comes or goes changes the Secret digest. */
  lemma SecretRotationRollsThePod(spec: PodSpec, n: Bytes, k: Bytes, a: Cluster, b: Cluster, sha: Bytes -> string)
    requires Consumes(SecretFields(), spec, n, k) && ValueOf(a, n, k) != ValueOf(b, n, k)
    requires Telling(RefsOf(Touches(SecretKind, spec)), a, b) && forall x, y :: sha(x) == sha(y) ==> x == y
    ensures DigestOf(RefsOf(Touches(SecretKind, spec)), a, sha) != DigestOf(RefsOf(Touches(SecretKind, spec)), b, sha)
  {
    KindFields();
    ChangeIsVisible(SecretFields(), SecretKind, spec, n, k, a, b, sha);
  }

  /** And a consumed ConfigMap value the ConfigMap digest. */
  lemma ConfigMapChangeRollsThePod(spec: PodSpec, n: Bytes, k: Bytes, a: Cluster, b: Cluster, sha: Bytes -> string)
    requires Consumes(ConfigMapFields(), spec, n, k) && ValueOf(a, n, k) != ValueOf(b, n, k)
    requires Telling(RefsOf(Touches(ConfigMapKind, spec)), a, b) && forall x, y :: sha(x) == sha(y) ==> x == y
    ensures DigestOf(RefsOf(Touches(ConfigMapKind, spec)), a, sha) !=
            DigestOf(RefsOf(Touches(ConfigMapKind, spec)), b, sha)
  {
    KindFields();
    ChangeIsVisible(ConfigMapFields(), ConfigMapKind, spec, n, k, a, b, sha);
  }
}
