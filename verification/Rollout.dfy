/** podTemplateSecretHash and podTemplateConfigMapHash (internal/controller/secret_rollout.go
    and configmap_rollout.go): a digest of everything a pod consumes, so that a rotation
    changes the pod template. */
module Rollout {
  import opened Versioned
  import opened ByteStrings
  import opened PodRefs
  import opened Framing
  import opened Sequences

  const ABSENT: Bytes := [0, 97, 98, 115, 101, 110, 116]
  const MISSING: Bytes := [0, 109, 105, 115, 115, 105, 110, 103]

  /** What reading an object gives. Data and binary data of a ConfigMap are one key space. */
  datatype Read = Found(data: map<Bytes, Bytes>) | NotFound | ReadFailed

  /** The objects of the pod's namespace, by name. */
  type Cluster = map<Bytes, Read>

  function Get(cluster: Cluster, name: Bytes): Read {
    if name in cluster then cluster[name] else NotFound
  }

  type Refs = map<Bytes, Consumption>

  datatype Digest = NoRefs | Sum(hex: string) | Error(name: Bytes)

  // ---- The fields hashed ----

  function Wanted(c: Consumption, data: map<Bytes, Bytes>): set<Bytes> {
    if c.whole then data.Keys else c.keys
  }

  /** A key that is not there is hashed as a marker. */
  function Shown(data: map<Bytes, Bytes>, k: Bytes): Bytes {
    if k in data then data[k] else MISSING
  }

  function Pairs(keys: seq<Bytes>, data: map<Bytes, Bytes>): seq<Bytes> {
    if keys == [] then []
    else Pairs(keys[..|keys| - 1], data) + [keys[|keys| - 1], Shown(data, keys[|keys| - 1])]
  }

  lemma {:induction false} PairsLength(keys: seq<Bytes>, data: map<Bytes, Bytes>)
    ensures |Pairs(keys, data)| == |keys| + |keys|
    decreases |keys|
  {
    if keys != [] {
      PairsLength(keys[..|keys| - 1], data);
    }
  }

  lemma {:induction false} PairsAt(keys: seq<Bytes>, data: map<Bytes, Bytes>, i: nat)
    requires i < |keys|
    ensures |Pairs(keys, data)| == |keys| + |keys|
    ensures Pairs(keys, data)[i + i] == keys[i] && Pairs(keys, data)[i + i + 1] == Shown(data, keys[i])
    decreases |keys|
  {
    PairsLength(keys, data);
    PairsLength(keys[..|keys| - 1], data);
    if i < |keys| - 1 {
      PairsAt(keys[..|keys| - 1], data, i);
    }
  }

  lemma PairsSnoc(keys: seq<Bytes>, i: nat, data: map<Bytes, Bytes>)
    requires i < |keys|
    ensures Pairs(keys[..i + 1], data) == Pairs(keys[..i], data) + [keys[i], Shown(data, keys[i])]
  {
    assert keys[..i + 1][..i] == keys[..i];
  }

  /** What follows the name of an object. */
  ghost function Body(c: Consumption, read: Read): seq<Bytes> {
    match read
    case Found(data) => Pairs(Sorted(Wanted(c, data)), data)
    case _ => [ABSENT]
  }

  ghost function Fields(order: seq<Bytes>, refs: Refs, cluster: Cluster): seq<Bytes>
    requires Elements(order) <= refs.Keys
  {
    if order == [] then []
    else
      assert order[0] in Elements(order);
      assert Elements(order[1..]) <= Elements(order);
      [order[0]] + (Body(refs[order[0]], Get(cluster, order[0])) + Fields(order[1..], refs, cluster))
  }

  /** The first object, in order, that cannot be read. */
  function FirstFailed(order: seq<Bytes>, cluster: Cluster): Option<Bytes> {
    if order == [] then None
    else if Get(cluster, order[0]).ReadFailed? then Some(order[0])
    else FirstFailed(order[1..], cluster)
  }

  /** The digest of what the refs name. A failed read is an error, not an absence. */
  ghost function DigestOf(refs: Refs, cluster: Cluster, sha: Bytes -> string): Digest {
    var order := Sorted(refs.Keys);
    if refs == map[] then NoRefs
    else if FirstFailed(order, cluster).Some? then Error(FirstFailed(order, cluster).value)
    else Sum(sha(Frames(Fields(order, refs, cluster))))
  }

  lemma {:induction false} FirstFailedExactly(order: seq<Bytes>, cluster: Cluster)
    ensures FirstFailed(order, cluster).None? <==> forall i :: 0 <= i < |order| ==> !Get(cluster, order[i]).ReadFailed?
    decreases |order|
  {
    if order != [] {
      FirstFailedExactly(order[1..], cluster);
      assert forall i :: 0 < i < |order| ==> order[i] == order[1..][i - 1];
    }
  }

  lemma FieldsCons(order: seq<Bytes>, refs: Refs, cluster: Cluster)
    requires order != [] && Elements(order) <= refs.Keys
    ensures order[0] in refs && Elements(order[1..]) <= refs.Keys
    ensures Fields(order, refs, cluster) ==
            [order[0]] + (Body(refs[order[0]], Get(cluster, order[0])) + Fields(order[1..], refs, cluster))
  {
    assert order[0] in Elements(order);
    assert Elements(order[1..]) <= Elements(order);
  }

  lemma Regroup<T>(n: seq<T>, b: seq<T>, s: seq<T>, r: seq<T>)
    ensures n + (b + (s + r)) == n + (b + s) + r
  {
  }

  lemma {:induction false} FieldsAppend(s: seq<Bytes>, r: seq<Bytes>, refs: Refs, cluster: Cluster)
    requires Elements(s + r) <= refs.Keys
    ensures Elements(s) <= refs.Keys && Elements(r) <= refs.Keys
    ensures Fields(s + r, refs, cluster) == Fields(s, refs, cluster) + Fields(r, refs, cluster)
    decreases |s|
  {
    assert Elements(s + r) == Elements(s) + Elements(r);
    if s == [] {
      assert s + r == r;
    } else {
      assert (s + r)[1..] == s[1..] + r && (s + r)[0] == s[0];
      FieldsCons(s, refs, cluster);
      FieldsCons(s + r, refs, cluster);
      FieldsAppend(s[1..], r, refs, cluster);
      Regroup([s[0]], Body(refs[s[0]], Get(cluster, s[0])), Fields(s[1..], refs, cluster), Fields(r, refs, cluster));
    }
  }

  lemma FieldsSnoc(order: seq<Bytes>, i: nat, refs: Refs, cluster: Cluster)
    requires i < |order| && Elements(order) <= refs.Keys
    ensures order[i] in refs && Elements(order[..i]) <= refs.Keys && Elements(order[..i + 1]) <= refs.Keys
    ensures Fields(order[..i + 1], refs, cluster) ==
            Fields(order[..i], refs, cluster) + ([order[i]] + Body(refs[order[i]], Get(cluster, order[i])))
  {
    assert order[..i + 1] == order[..i] + [order[i]];
    assert Elements(order[..i + 1]) <= Elements(order);
    FieldsAppend(order[..i], [order[i]], refs, cluster);
    FieldsCons([order[i]], refs, cluster);
  }

  lemma {:induction false} FirstFailedSnoc(order: seq<Bytes>, i: nat, cluster: Cluster)
    requires i < |order| && FirstFailed(order[..i], cluster).None?
    ensures Get(cluster, order[i]).ReadFailed? ==> FirstFailed(order, cluster) == Some(order[i])
    ensures !Get(cluster, order[i]).ReadFailed? ==> FirstFailed(order[..i + 1], cluster).None?
    decreases i
  {
    if i == 0 {
      assert order[..1] == [order[0]];
    } else {
      assert order[..i][1..] == order[1..][..i - 1] && order[..i + 1][1..] == order[1..][..i];
      FirstFailedSnoc(order[1..], i - 1, cluster);
    }
  }

  // ---- Computing it ----

  /** The keys of one object, each with its value or the marker. */
  method WriteKeys(h: HashWriter, wanted: seq<Bytes>, data: map<Bytes, Bytes>)
    requires h.Valid()
    modifies h
    ensures h.Valid() && h.fields == old(h.fields) + Pairs(wanted, data)
  {
    for i := 0 to |wanted|
      invariant h.Valid() && h.fields == old(h.fields) + Pairs(wanted[..i], data)
    {
      PairsSnoc(wanted, i, data);
      var k := wanted[i];
      Assoc(old(h.fields), Pairs(wanted[..i], data), [k, Shown(data, k)]);
      if k in data {
        h.Write([k, data[k]]);
      } else {
        h.Write([k, MISSING]);
      }
    }
    assert wanted[..|wanted|] == wanted;
  }

  /** One object: its name, and its contents or the marker. */
  method WriteObject(h: HashWriter, kind: RefKind, name: Bytes, ref: DataRef, read: Read) returns (ok: bool)
    requires h.Valid() && (ref.whole || ref.keys != {})
    modifies h
    ensures h.Valid() && ok == !read.ReadFailed?
    ensures ok ==> h.fields == old(h.fields) + ([name] + Body(Consumption(ref.whole, ref.keys), read))
  {
    h.Write([name]);
    ghost var body := Body(Consumption(ref.whole, ref.keys), read);
    Assoc(old(h.fields), [name], body);
    match read
    case ReadFailed =>
      return false;
    case NotFound =>
      h.Write([ABSENT]);
      return true;
    case Found(data) =>
      var keys := if ref.whole || (kind == SecretKind && ref.keys == {}) then data.Keys else ref.keys;
      var wanted := SortedKeys(keys);
      WriteKeys(h, wanted, data);
      assert body == Pairs(wanted, data);
      return true;
  }

  /** The first `i` objects could be read, and `fields` are theirs. */
  ghost predicate Written(order: seq<Bytes>, i: nat, refs: Refs, cluster: Cluster, fields: seq<Bytes>) {
    && i <= |order| && FirstFailed(order[..i], cluster).None?
    && Elements(order[..i]) <= refs.Keys && fields == Fields(order[..i], refs, cluster)
  }

  lemma WrittenSnoc(order: seq<Bytes>, i: nat, refs: Refs, cluster: Cluster, fields: seq<Bytes>)
    requires i < |order| && Elements(order) <= refs.Keys && Written(order, i, refs, cluster, fields)
    ensures order[i] in refs
    ensures var read := Get(cluster, order[i]);
      && (read.ReadFailed? ==> FirstFailed(order, cluster) == Some(order[i]))
      && (!read.ReadFailed? ==>
           Written(order, i + 1, refs, cluster, fields + ([order[i]] + Body(refs[order[i]], read))))
  {
    FirstFailedSnoc(order, i, cluster);
    FieldsSnoc(order, i, refs, cluster);
  }

  /** The objects in order, up to the first that cannot be read. */
  method WriteObjects(h: HashWriter, collector: Collector, ghost refs: Refs, order: seq<Bytes>, cluster: Cluster)
    returns (failed: Option<Bytes>)
    requires h.Valid() && h.fields == []
    requires refs == collector.View() && Elements(order) <= refs.Keys
    requires forall n :: n in refs ==> refs[n].whole || refs[n].keys != {}
    modifies h
    ensures h.Valid() && failed == FirstFailed(order, cluster)
    ensures failed.None? ==> h.fields == Fields(order, refs, cluster)
  {
    for i := 0 to |order|
      invariant h.Valid() && Written(order, i, refs, cluster, h.fields)
    {
      WrittenSnoc(order, i, refs, cluster, h.fields);
      var name := order[i];
      var ok := WriteObject(h, collector.kind, name, collector.refs[name], Get(cluster, name));
      if !ok {
        return Some(name);
      }
    }
    assert order[..|order|] == order;
    return None;
  }

  method HashRefs(collector: Collector, ghost refs: Refs, cluster: Cluster, sha: Bytes -> string) returns (d: Digest)
    requires refs == collector.View() && forall n :: n in refs ==> refs[n].whole || refs[n].keys != {}
    ensures d == DigestOf(refs, cluster, sha)
  {
    if collector.refs == map[] {
      return NoRefs;
    }
    var h := new HashWriter();
    assert refs.Keys == collector.refs.Keys;
    var order := SortedKeys(collector.refs.Keys);
    var failed := WriteObjects(h, collector, refs, order, cluster);
    if failed.Some? {
      return Error(failed.value);
    }
    d := Sum(sha(h.input));
  }

  /** podTemplateSecretHash and podTemplateConfigMapHash. */
  method PodTemplateHash(kind: RefKind, spec: PodSpec, cluster: Cluster, sha: Bytes -> string) returns (d: Digest)
    ensures d == DigestOf(RefsOf(Touches(kind, spec)), cluster, sha)
  {
    var collector := new Collector(kind);
    collector.Collect(spec);
    collector.ViewIsExact(Touches(kind, spec));
    RefsOfIsExact(Touches(kind, spec));
    ghost var refs := collector.View();
    ExactIsUnique(refs, RefsOf(Touches(kind, spec)), Touches(kind, spec));
    d := HashRefs(collector, refs, cluster, sha);
  }

  /** Reordering a pod spec never changes its digest. */
  lemma DigestIsOrderFree(kind: RefKind, spec: PodSpec, spec': PodSpec, cluster: Cluster, sha: Bytes -> string)
    requires BagSpec(spec) == BagSpec(spec')
    ensures DigestOf(RefsOf(Touches(kind, spec)), cluster, sha) == DigestOf(RefsOf(Touches(kind, spec')), cluster, sha)
  {
    RefsOfIsExact(Touches(kind, spec));
    RefsOfIsExact(Touches(kind, spec'));
    CollectionIsOrderFree(kind, spec, spec', RefsOf(Touches(kind, spec)), RefsOf(Touches(kind, spec')));
  }

  // ---- A rotation is visible ----

  /** What the pod gets of an object: nothing if it is absent, else for each key it consumes
      the value, or that there is none. */
  function View(c: Consumption, read: Read): Option<map<Bytes, Option<Bytes>>> {
    match read
    case Found(data) => Some(map k | k in Wanted(c, data) :: if k in data then Some(data[k]) else None)
    case _ => None
  }

  /** What of that is hashed: a missing key shows the marker. */
  function ShownView(c: Consumption, read: Read): Option<map<Bytes, Bytes>> {
    match read
    case Found(data) => Some(map k | k in Wanted(c, data) :: Shown(data, k))
    case _ => None
  }

  /** Names and keys hold no NUL, as Kubernetes has it. */
  predicate Plain(b: Bytes) {
    0 !in b
  }

  predicate PlainKeys(c: Consumption, read: Read) {
    read.Found? ==> forall k :: k in Wanted(c, read.data) ==> Plain(k)
  }

  /** No consumed value is the marker of a missing key. */
  predicate NoMarker(c: Consumption, read: Read) {
    read.Found? ==> forall k :: k in Wanted(c, read.data) && k in read.data ==> read.data[k] != MISSING
  }

  predicate SameKeys(c: Consumption, r: Read, r': Read) {
    c.whole && r.Found? && r'.Found? ==> r.data.Keys == r'.data.Keys
  }

  /** No key of an object consumed as a whole is the name of a consumed object. */
  predicate KeysAreNoNames(names: set<Bytes>, c: Consumption, r: Read) {
    c.whole && r.Found? ==> r.data.Keys !! names
  }

  lemma PairsDiffer(keys: seq<Bytes>, data: map<Bytes, Bytes>, rest: seq<Bytes>,
                    keys': seq<Bytes>, data': map<Bytes, Bytes>, rest': seq<Bytes>)
    requires Pairs(keys, data) + rest == Pairs(keys', data') + rest' && |keys| < |keys'|
    ensures rest != [] && rest[0] == keys'[|keys|]
  {
    PairsLength(keys, data);
    PairsAt(keys', data', |keys|);
    var all := Pairs(keys, data) + rest;
    assert all[|keys| + |keys|] == Pairs(keys', data')[|keys| + |keys|];
  }

  /** Two renderings of one object, each followed by the next name or by nothing, that
      start a common list of fields are the same. */
  lemma BodiesAgree(names: set<Bytes>, c: Consumption, r: Read, rest: seq<Bytes>, r': Read, rest': seq<Bytes>)
    requires Body(c, r) + rest == Body(c, r') + rest'
    requires (rest == [] <==> rest' == []) && (rest != [] ==> rest[0] == rest'[0] && rest[0] in names && Plain(rest[0]))
    requires PlainKeys(c, r) && PlainKeys(c, r')
    requires SameKeys(c, r, r') || (KeysAreNoNames(names, c, r) && KeysAreNoNames(names, c, r'))
    ensures r.Found? == r'.Found? && Body(c, r) == Body(c, r')
  {
    if r.Found? && r'.Found? {
      var keys, keys' := Sorted(Wanted(c, r.data)), Sorted(Wanted(c, r'.data));
      if |keys| < |keys'| {
        PairsDiffer(keys, r.data, rest, keys', r'.data, rest');
      } else if |keys'| < |keys| {
        PairsDiffer(keys', r'.data, rest', keys, r.data, rest);
      }
      PairsLength(keys, r.data);
      PairsLength(keys', r'.data);
      var n := |Body(c, r)|;
      assert (Body(c, r) + rest)[..n] == (Body(c, r') + rest')[..n];
    } else if r.Found? {
      AbsentIsNotFound(c, r, rest, rest');
    } else if r'.Found? {
      AbsentIsNotFound(c, r', rest', rest);
    }
  }

  lemma AbsentIsNotFound(c: Consumption, r: Read, rest: seq<Bytes>, rest': seq<Bytes>)
    requires r.Found? && PlainKeys(c, r) && (rest == [] <==> rest' == []) && (rest != [] ==> Plain(rest[0]))
    ensures Body(c, r) + rest != [ABSENT] + rest'
  {
    var keys := Sorted(Wanted(c, r.data));
    var all := Body(c, r) + rest;
    assert ABSENT[0] == 0;
    if keys == [] {
      assert all == rest;
    } else {
      PairsAt(keys, r.data, 0);
      assert all[0] == keys[0] && keys[0] in Elements(keys);
    }
  }

  lemma PairsShow(keys: seq<Bytes>, data: map<Bytes, Bytes>, keys': seq<Bytes>, data': map<Bytes, Bytes>)
    requires Pairs(keys, data) == Pairs(keys', data')
    ensures keys == keys'
    ensures forall k :: k in keys ==> Shown(data, k) == Shown(data', k)
  {
    PairsLength(keys, data);
    PairsLength(keys', data');
    forall i | 0 <= i < |keys|
      ensures keys[i] == keys'[i] && Shown(data, keys[i]) == Shown(data', keys[i])
    {
      PairsAt(keys, data, i);
      PairsAt(keys', data', i);
    }
  }

  /** A consumed key is missing in one state and holds the marker in the other. */
  ghost predicate MarkerHides(c: Consumption, r: Read, r': Read) {
    && r.Found? && r'.Found?
    && exists k :: && k in Wanted(c, r.data) && k in Wanted(c, r'.data)
                   && (k in r.data) != (k in r'.data) && Shown(r.data, k) == Shown(r'.data, k)
  }

  /** The pod gets the same of an object exactly when the same is shown and the marker hides
      nothing. */
  lemma SameViewExactly(c: Consumption, r: Read, r': Read)
    ensures View(c, r) == View(c, r') <==> ShownView(c, r) == ShownView(c, r') && !MarkerHides(c, r, r')
  {
    if r.Found? && r'.Found? {
      if View(c, r) == View(c, r') {
        ViewIsShown(c, r, r');
      } else if ShownView(c, r) == ShownView(c, r') && !MarkerHides(c, r, r') {
        ShownIsView(c, r, r');
      }
    }
  }

  lemma ViewIsShown(c: Consumption, r: Read, r': Read)
    requires r.Found? && r'.Found? && View(c, r) == View(c, r')
    ensures ShownView(c, r) == ShownView(c, r') && !MarkerHides(c, r, r')
  {
    var v, v' := View(c, r).value, View(c, r').value;
    assert Wanted(c, r.data) == v.Keys == v'.Keys == Wanted(c, r'.data);
    forall k | k in Wanted(c, r.data)
      ensures Shown(r.data, k) == Shown(r'.data, k) && (k in r.data <==> k in r'.data)
    {
      assert v[k] == v'[k];
    }
    assert ShownView(c, r).value == ShownView(c, r').value;
  }

  lemma ShownIsView(c: Consumption, r: Read, r': Read)
    requires r.Found? && r'.Found? && ShownView(c, r) == ShownView(c, r') && !MarkerHides(c, r, r')
    ensures View(c, r) == View(c, r')
  {
    var v, v' := ShownView(c, r).value, ShownView(c, r').value;
    assert Wanted(c, r.data) == v.Keys == v'.Keys == Wanted(c, r'.data);
    forall k | k in Wanted(c, r.data)
      ensures View(c, r).value[k] == View(c, r').value[k]
    {
      assert v[k] == v'[k];
    }
    assert View(c, r).value == View(c, r').value;
  }

  lemma NoMarkerHidesNothing(c: Consumption, r: Read, r': Read)
    requires NoMarker(c, r) && NoMarker(c, r')
    ensures !MarkerHides(c, r, r')
  {
  }

  /** Equal renderings show the same. */
  lemma SameBodyShowsSame(c: Consumption, r: Read, r': Read)
    requires r.Found? == r'.Found? && Body(c, r) == Body(c, r')
    ensures ShownView(c, r) == ShownView(c, r')
  {
    if r.Found? {
      var keys, keys' := Sorted(Wanted(c, r.data)), Sorted(Wanted(c, r'.data));
      PairsShow(keys, r.data, keys', r'.data);
      assert Wanted(c, r.data) == Elements(keys) == Wanted(c, r'.data);
      var v, v' := ShownView(c, r).value, ShownView(c, r').value;
      forall k | k in v
        ensures v[k] == v'[k]
      {
        assert k in Elements(keys);
      }
      assert v == v';
    }
  }

  /** Nothing but what is shown is hashed. */
  lemma SameShownSameBody(c: Consumption, r: Read, r': Read)
    requires ShownView(c, r) == ShownView(c, r')
    ensures Body(c, r) == Body(c, r')
  {
    if r.Found? {
      var v, v' := ShownView(c, r).value, ShownView(c, r').value;
      assert Wanted(c, r.data) == v.Keys == v'.Keys == Wanted(c, r'.data);
      var keys := Sorted(Wanted(c, r.data));
      forall i | 0 <= i < |keys|
        ensures Shown(r.data, keys[i]) == Shown(r'.data, keys[i])
      {
        assert keys[i] in Elements(keys);
        assert v[keys[i]] == v'[keys[i]];
      }
      PairsEqual(keys, r.data, r'.data);
    }
  }

  lemma {:induction false} PairsEqual(keys: seq<Bytes>, data: map<Bytes, Bytes>, data': map<Bytes, Bytes>)
    requires forall i :: 0 <= i < |keys| ==> Shown(data, keys[i]) == Shown(data', keys[i])
    ensures Pairs(keys, data) == Pairs(keys, data')
    decreases |keys|
  {
    if keys != [] {
      PairsEqual(keys[..|keys| - 1], data, data');
    }
  }

  /** What Kubernetes, and the absence of read errors, guarantee of the consumed objects. */
  ghost predicate Sane(refs: Refs, cluster: Cluster) {
    forall n :: n in refs ==>
      Plain(n) && !Get(cluster, n).ReadFailed? && PlainKeys(refs[n], Get(cluster, n))
  }

  ghost predicate NoMarkers(refs: Refs, cluster: Cluster) {
    forall n :: n in refs ==> NoMarker(refs[n], Get(cluster, n))
  }

  /** Each object consumed as a whole has the same keys in both states, or in neither a key
      that is the name of a consumed object. */
  ghost predicate Comparable(refs: Refs, a: Cluster, b: Cluster) {
    forall n :: n in refs ==>
      SameKeys(refs[n], Get(a, n), Get(b, n)) ||
      (KeysAreNoNames(refs.Keys, refs[n], Get(a, n)) && KeysAreNoNames(refs.Keys, refs[n], Get(b, n)))
  }

  /** Everything the pod consumes is the same in both states. */
  ghost predicate SameViews(refs: Refs, a: Cluster, b: Cluster) {
    forall n :: n in refs ==> View(refs[n], Get(a, n)) == View(refs[n], Get(b, n))
  }

  /** Everything that is hashed is. */
  ghost predicate SameShown(refs: Refs, a: Cluster, b: Cluster) {
    forall n :: n in refs ==> ShownView(refs[n], Get(a, n)) == ShownView(refs[n], Get(b, n))
  }

  /** The fields start with the first name, if there is one. */
  lemma FieldsStart(order: seq<Bytes>, refs: Refs, cluster: Cluster)
    requires Elements(order) <= refs.Keys
    ensures order == [] <==> Fields(order, refs, cluster) == []
    ensures order != [] ==> Fields(order, refs, cluster)[0] == order[0] && order[0] in refs
  {
    if order != [] {
      FieldsCons(order, refs, cluster);
    }
  }

  lemma Cancel(n: Bytes, b: seq<Bytes>, rest: seq<Bytes>, b': seq<Bytes>, rest': seq<Bytes>)
    requires [n] + (b + rest) == [n] + (b' + rest')
    ensures b + rest == b' + rest'
    ensures b == b' ==> rest == rest'
  {
    assert ([n] + (b + rest))[1..] == b + rest && ([n] + (b' + rest'))[1..] == b' + rest';
    assert (b + rest)[|b|..] == rest && (b' + rest')[|b'|..] == rest';
  }

  lemma {:induction false} FieldsAgree(order: seq<Bytes>, refs: Refs, a: Cluster, b: Cluster)
    requires Elements(order) <= refs.Keys && Sane(refs, a) && Sane(refs, b) && Comparable(refs, a, b)
    requires Fields(order, refs, a) == Fields(order, refs, b)
    ensures forall n :: n in order ==> n in refs && ShownView(refs[n], Get(a, n)) == ShownView(refs[n], Get(b, n))
    decreases |order|
  {
    if order != [] {
      var n, tail := order[0], order[1..];
      FieldsCons(order, refs, a);
      FieldsCons(order, refs, b);
      FieldsStart(tail, refs, a);
      FieldsStart(tail, refs, b);
      var rest, rest' := Fields(tail, refs, a), Fields(tail, refs, b);
      Cancel(n, Body(refs[n], Get(a, n)), rest, Body(refs[n], Get(b, n)), rest');
      BodiesAgree(refs.Keys, refs[n], Get(a, n), rest, Get(b, n), rest');
      FieldsAgree(tail, refs, a, b);
      SameBodyShowsSame(refs[n], Get(a, n), Get(b, n));
      assert order == [n] + tail;
    }
  }

  lemma {:induction false} FieldsFollowShown(order: seq<Bytes>, refs: Refs, a: Cluster, b: Cluster)
    requires Elements(order) <= refs.Keys && SameShown(refs, a, b)
    ensures Fields(order, refs, a) == Fields(order, refs, b)
    decreases |order|
  {
    if order != [] {
      assert order[0] in Elements(order) && Elements(order[1..]) <= Elements(order);
      SameShownSameBody(refs[order[0]], Get(a, order[0]), Get(b, order[0]));
      FieldsFollowShown(order[1..], refs, a, b);
    }
  }

  /** Everything a process can hold is short enough to be framed. */
  ghost predicate Framed(refs: Refs, cluster: Cluster) {
    var fields := Fields(Sorted(refs.Keys), refs, cluster);
    forall i :: 0 <= i < |fields| ==> Short(fields[i])
  }

  lemma SameDigestSameFields(refs: Refs, a: Cluster, b: Cluster, sha: Bytes -> string)
    requires Sane(refs, a) && Sane(refs, b) && Framed(refs, a) && Framed(refs, b)
    requires forall x, y :: sha(x) == sha(y) ==> x == y
    ensures DigestOf(refs, a, sha) == DigestOf(refs, b, sha) <==>
            Fields(Sorted(refs.Keys), refs, a) == Fields(Sorted(refs.Keys), refs, b)
  {
    var order := Sorted(refs.Keys);
    forall i | 0 <= i < |order|
      ensures order[i] in refs
    {
      assert order[i] in Elements(order);
    }
    FirstFailedExactly(order, a);
    FirstFailedExactly(order, b);
    if refs == map[] {
      assert refs.Keys == {};
      SortedEmpty();
    } else if Frames(Fields(order, refs, a)) == Frames(Fields(order, refs, b)) {
      FramesInjective(Fields(order, refs, a), Fields(order, refs, b));
    }
  }

  /** The digest is the same in two comparable states exactly when the same is shown. */
  lemma DigestTellsWhatIsShown(refs: Refs, a: Cluster, b: Cluster, sha: Bytes -> string)
    requires Sane(refs, a) && Sane(refs, b) && Framed(refs, a) && Framed(refs, b) && Comparable(refs, a, b)
    requires forall x, y :: sha(x) == sha(y) ==> x == y
    ensures DigestOf(refs, a, sha) == DigestOf(refs, b, sha) <==> SameShown(refs, a, b)
  {
    var order := Sorted(refs.Keys);
    SameDigestSameFields(refs, a, b, sha);
    if Fields(order, refs, a) == Fields(order, refs, b) {
      FieldsAgree(order, refs, a, b);
      forall n | n in refs
        ensures n in order
      {
        assert n in Elements(order);
      }
    } else if SameShown(refs, a, b) {
      FieldsFollowShown(order, refs, a, b);
    }
  }

  lemma SameViewsExactly(refs: Refs, a: Cluster, b: Cluster)
    ensures SameViews(refs, a, b) <==>
      SameShown(refs, a, b) && forall n :: n in refs ==> !MarkerHides(refs[n], Get(a, n), Get(b, n))
  {
    forall n | n in refs
      ensures View(refs[n], Get(a, n)) == View(refs[n], Get(b, n)) <==>
        ShownView(refs[n], Get(a, n)) == ShownView(refs[n], Get(b, n)) && !MarkerHides(refs[n], Get(a, n), Get(b, n))
    {
      SameViewExactly(refs[n], Get(a, n), Get(b, n));
    }
  }

  /** Rotation visibility: for a fixed pod spec and values that are not the marker, the digest
      is the same in two comparable states exactly when the pod would consume the same. */
  lemma RotationIsVisible(refs: Refs, a: Cluster, b: Cluster, sha: Bytes -> string)
    requires Sane(refs, a) && Sane(refs, b) && Framed(refs, a) && Framed(refs, b) && Comparable(refs, a, b)
    requires NoMarkers(refs, a) && NoMarkers(refs, b)
    requires forall x, y :: sha(x) == sha(y) ==> x == y
    ensures DigestOf(refs, a, sha) == DigestOf(refs, b, sha) <==> SameViews(refs, a, b)
  {
    DigestTellsWhatIsShown(refs, a, b, sha);
    forall n | n in refs
      ensures !MarkerHides(refs[n], Get(a, n), Get(b, n))
    {
      NoMarkerHidesNothing(refs[n], Get(a, n), Get(b, n));
    }
    SameViewsExactly(refs, a, b);
  }

  lemma SameShownSameKeys(c: Consumption, r: Read, r': Read)
    requires ShownView(c, r) == ShownView(c, r')
    ensures SameKeys(c, r, r')
  {
    if c.whole && r.Found? && r'.Found? {
      assert ShownView(c, r).value.Keys == r.data.Keys && ShownView(c, r').value.Keys == r'.data.Keys;
    }
  }

  /** And without those conditions: two states with one digest look the same to the pod exactly
      when no object consumed as a whole has changed its keys and no key went missing from one
      to the other behind a value that is the marker. */
  lemma HiddenRotationExactly(refs: Refs, a: Cluster, b: Cluster, sha: Bytes -> string)
    requires Sane(refs, a) && Sane(refs, b) && Framed(refs, a) && Framed(refs, b)
    requires forall x, y :: sha(x) == sha(y) ==> x == y
    requires DigestOf(refs, a, sha) == DigestOf(refs, b, sha)
    ensures SameViews(refs, a, b) <==>
      && (forall n :: n in refs ==> SameKeys(refs[n], Get(a, n), Get(b, n)))
      && (forall n :: n in refs ==> !MarkerHides(refs[n], Get(a, n), Get(b, n)))
  {
    SameViewsExactly(refs, a, b);
    if forall n :: n in refs ==> SameKeys(refs[n], Get(a, n), Get(b, n)) {
      DigestTellsWhatIsShown(refs, a, b, sha);
    } else if SameShown(refs, a, b) {
      forall n | n in refs
        ensures SameKeys(refs[n], Get(a, n), Get(b, n))
      {
        SameShownSameKeys(refs[n], Get(a, n), Get(b, n));
      }
    }
  }

  // ---- What the digest cannot tell apart ----

  lemma {:induction false} FieldsIgnoreOthers(order: seq<Bytes>, refs: Refs, a: Cluster, b: Cluster)
    requires Elements(order) <= refs.Keys && forall n :: n in order ==> Get(a, n) == Get(b, n)
    ensures Fields(order, refs, a) == Fields(order, refs, b)
    decreases |order|
  {
    if order != [] {
      assert order[0] in Elements(order) && Elements(order[1..]) <= Elements(order);
      FieldsIgnoreOthers(order[1..], refs, a, b);
    }
  }

  function With(cluster: Cluster, n: Bytes, data: map<Bytes, Bytes>): Cluster {
    cluster[n := Found(data)]
  }

  lemma SortedSingleton(k: Bytes)
    ensures Sorted({k}) == [k]
  {
    IncreasingIsUnique(Sorted({k}), [k]);
  }

  lemma SortedEmpty()
    ensures Sorted({}) == []
  {
    IncreasingIsUnique(Sorted({}), []);
  }

  lemma TwoFields(n: Bytes, m: Bytes, refs: Refs, cluster: Cluster, first: seq<Bytes>, second: seq<Bytes>)
    requires Elements([n, m]) <= refs.Keys && n in refs && m in refs
    requires Body(refs[n], Get(cluster, n)) == first && Body(refs[m], Get(cluster, m)) == second
    ensures Fields([n, m], refs, cluster) == [n] + (first + ([m] + second))
  {
    FieldsCons([n, m], refs, cluster);
    assert [n, m][1..] == [m];
    FieldsCons([m], refs, cluster);
    assert [m][1..] == [];
    assert second + [] == second;
  }

  lemma WholeBodies(c: Consumption, n: Bytes, k: Bytes)
    requires c.whole
    ensures Body(c, Found(map[])) == [] && Body(c, Found(map[n := k])) == [n, k]
  {
    SortedEmpty();
    SortedSingleton(n);
    assert (map[n := k]).Keys == {n};
    assert Pairs([n], map[n := k]) == [n, k];
  }

  lemma MovedParts(n: Bytes, m: Bytes, k: Bytes)
    ensures [n] + ([] + ([m] + [k, m])) == [n, m, k, m] == [n] + ([m, k] + ([m] + []))
  {
  }

  lemma MovedFields(refs: Refs, n: Bytes, m: Bytes, k: Bytes, a: Cluster, b: Cluster)
    requires Elements([n, m]) <= refs.Keys && n in refs && m in refs && refs[n].whole && refs[m].whole
    requires Get(a, n) == Found(map[]) && Get(a, m) == Found(map[k := m])
    requires Get(b, n) == Found(map[m := k]) && Get(b, m) == Found(map[])
    ensures Fields([n, m], refs, a) == Fields([n, m], refs, b)
  {
    WholeBodies(refs[m], k, m);
    WholeBodies(refs[n], m, k);
    MovedParts(n, m, k);
    TwoFields(n, m, refs, a, [], [k, m]);
    TwoFields(n, m, refs, b, [m, k], []);
  }

  lemma NewKeyShows(c: Consumption, m: Bytes, k: Bytes)
    requires c.whole
    ensures View(c, Found(map[])) != View(c, Found(map[m := k]))
  {
    assert m in View(c, Found(map[m := k])).value.Keys && m !in View(c, Found(map[])).value.Keys;
  }

  /** The number of keys is not hashed: a key moved between two objects consumed as a whole,
      next to each other in the order, leaves the digest as it was. */
  lemma MovedKeyIsHidden(refs: Refs, cluster: Cluster, pre: seq<Bytes>, n: Bytes, m: Bytes, post: seq<Bytes>, k: Bytes)
    requires Sorted(refs.Keys) == pre + ([n, m] + post)
    requires n in refs && m in refs && refs[n].whole && refs[m].whole
    ensures var a := With(With(cluster, n, map[]), m, map[k := m]);
      var b := With(With(cluster, n, map[m := k]), m, map[]);
      && Fields(Sorted(refs.Keys), refs, a) == Fields(Sorted(refs.Keys), refs, b)
      && View(refs[n], Get(a, n)) != View(refs[n], Get(b, n))
  {
    OthersAreOthers(refs, pre, n, m, post);
    MovedKeyFields(Sorted(refs.Keys), refs, cluster, pre, n, m, post, k);
  }

  lemma MovedKeyFields(order: seq<Bytes>, refs: Refs, cluster: Cluster,
                       pre: seq<Bytes>, n: Bytes, m: Bytes, post: seq<Bytes>, k: Bytes)
    requires order == pre + ([n, m] + post) && Elements(order) <= refs.Keys
    requires n in refs && m in refs && refs[n].whole && refs[m].whole
    requires n != m && n !in pre && m !in pre && n !in post && m !in post
    ensures var a := With(With(cluster, n, map[]), m, map[k := m]);
      var b := With(With(cluster, n, map[m := k]), m, map[]);
      Fields(order, refs, a) == Fields(order, refs, b) && View(refs[n], Get(a, n)) != View(refs[n], Get(b, n))
  {
    var a, b := With(With(cluster, n, map[]), m, map[k := m]), With(With(cluster, n, map[m := k]), m, map[]);
    assert Elements([n, m]) == {n, m};
    MovedFields(refs, n, m, k, a, b);
    NewKeyShows(refs[n], m, k);
    Splice(order, pre, [n, m], post, refs, a, b);
  }

  /** Only what lies between `pre` and `post` tells two states apart that agree there. */
  lemma Splice(order: seq<Bytes>, pre: seq<Bytes>, mid: seq<Bytes>, post: seq<Bytes>, refs: Refs,
               a: Cluster, b: Cluster)
    requires order == pre + (mid + post) && Elements(order) <= refs.Keys && Elements(mid) <= refs.Keys
    requires forall n :: n in pre || n in post ==> Get(a, n) == Get(b, n)
    requires Fields(mid, refs, a) == Fields(mid, refs, b)
    ensures Fields(order, refs, a) == Fields(order, refs, b)
  {
    FieldsAppend(pre, mid + post, refs, a);
    FieldsAppend(pre, mid + post, refs, b);
    FieldsAppend(mid, post, refs, a);
    FieldsAppend(mid, post, refs, b);
    FieldsIgnoreOthers(pre, refs, a, b);
    FieldsIgnoreOthers(post, refs, a, b);
  }

  lemma OthersAreOthers(refs: Refs, pre: seq<Bytes>, n: Bytes, m: Bytes, post: seq<Bytes>)
    requires Sorted(refs.Keys) == pre + ([n, m] + post)
    ensures n != m && n !in pre && m !in pre && n !in post && m !in post
  {
    var order := Sorted(refs.Keys);
    assert order[|pre|] == n && order[|pre| + 1] == m;
    LessIsTotal(n, m);
    forall i | 0 <= i < |pre|
      ensures pre[i] != n && pre[i] != m
    {
      assert order[i] == pre[i];
      LessIsTotal(pre[i], n);
      LessIsTotal(pre[i], m);
    }
    forall i | 0 <= i < |post|
      ensures post[i] != n && post[i] != m
    {
      assert order[|pre| + 2 + i] == post[i];
      LessIsTotal(n, post[i]);
      LessIsTotal(m, post[i]);
    }
  }

  /** A value equal to the marker is hashed like a missing key. */
  lemma MarkerValueIsHidden(c: Consumption, data: map<Bytes, Bytes>, k: Bytes)
    requires !c.whole && k in c.keys && k !in data
    ensures Body(c, Found(data)) == Body(c, Found(data[k := MISSING]))
    ensures View(c, Found(data)) != View(c, Found(data[k := MISSING]))
  {
    PairsEqual(Sorted(c.keys), data, data[k := MISSING]);
    assert View(c, Found(data)).value[k] != View(c, Found(data[k := MISSING])).value[k];
  }
}
