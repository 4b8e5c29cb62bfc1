/** For which pod specs the rollout digest can hide a change: for all that consume two objects
    as a whole, wherever those stand and whatever else is consumed. */
module HiddenRotations {
  import opened ByteStrings
  import opened Sequences
  import opened PodRefs
  import opened Framing
  import opened Rollout

  // ---- A block of fields said twice ----

  lemma BlockFields(n: Bytes, mid: seq<Bytes>, m: Bytes, refs: Refs, cluster: Cluster,
                    first: seq<Bytes>, second: seq<Bytes>)
    requires Elements([n] + (mid + [m])) <= refs.Keys && n in refs && m in refs && Elements(mid) <= refs.Keys
    requires Body(refs[n], Get(cluster, n)) == first && Body(refs[m], Get(cluster, m)) == second
    ensures Fields([n] + (mid + [m]), refs, cluster) == [n] + (first + (Fields(mid, refs, cluster) + ([m] + second)))
  {
    var block := [n] + (mid + [m]);
    assert block[1..] == mid + [m];
    FieldsCons(block, refs, cluster);
    FieldsAppend(mid, [m], refs, cluster);
    FieldsCons([m], refs, cluster);
    assert [m][1..] == [] && second + [] == second;
  }

  lemma SaidTwice<T>(n: seq<T>, f: seq<T>, m: seq<T>)
    ensures n + ([] + (f + (m + (f + m)))) == n + ((f + m) + (f + (m + [])))
  {
  }

  /** If what lies between `n` and `m`, with the name of `m`, reads like the contents of an
      object, then the digest does not tell whether `n` or `m` has those contents. */
  lemma BlockIsHidden(n: Bytes, mid: seq<Bytes>, m: Bytes, refs: Refs, a: Cluster, b: Cluster, data: map<Bytes, Bytes>)
    requires Elements([n] + (mid + [m])) <= refs.Keys && Elements(mid) <= refs.Keys
    requires n in refs && m in refs && refs[n].whole && refs[m].whole
    requires forall k :: k in mid ==> Get(a, k) == Get(b, k)
    requires Get(a, n) == Found(map[]) && Get(a, m) == Found(data)
    requires Get(b, n) == Found(data) && Get(b, m) == Found(map[])
    requires Pairs(Sorted(data.Keys), data) == Fields(mid, refs, a) + [m]
    ensures Fields([n] + (mid + [m]), refs, a) == Fields([n] + (mid + [m]), refs, b)
  {
    var f := Fields(mid, refs, a);
    FieldsIgnoreOthers(mid, refs, a, b);
    WholeBodies(refs[n], n, n);
    WholeBodies(refs[m], n, n);
    BlockFields(n, mid, m, refs, a, [], f + [m]);
    BlockFields(n, mid, m, refs, b, f + [m], []);
    SaidTwice([n], f, [m]);
  }

  // ---- Making the block read like that ----

  /** Byte strings that follow `x` in the order, each a prefix of the next. */
  function Longer(x: Bytes, i: nat): Bytes {
    x + seq(i, _ => 1)
  }

  function Ladder(x: Bytes, k: nat): seq<Bytes> {
    seq(k, i requires 0 <= i => Longer(x, i))
  }

  lemma {:induction false} PrefixIsLess(a: Bytes, b: Bytes)
    requires b != []
    ensures Less(a, a + b)
    decreases |a|
  {
    if a != [] {
      PrefixIsLess(a[1..], b);
      assert (a + b)[1..] == a[1..] + b;
    }
  }

  lemma LongerIsLater(x: Bytes, i: nat, j: nat)
    requires i < j
    ensures Less(Longer(x, i), Longer(x, j))
  {
    assert Longer(x, j) == Longer(x, i) + seq(j - i, _ => 1);
    PrefixIsLess(Longer(x, i), seq(j - i, _ => 1));
  }

  lemma LadderIncreases(xs: seq<Bytes>, x: Bytes, k: nat)
    requires Increasing(xs + [x])
    ensures Increasing(xs + Ladder(x, k))
  {
    var all := xs + Ladder(x, k);
    assert Longer(x, 0) == x;
    forall i, j | 0 <= i < j < |all|
      ensures Less(all[i], all[j])
    {
      if j < |xs| {
        assert Less((xs + [x])[i], (xs + [x])[j]);
      } else if i < |xs| {
        assert Less((xs + [x])[i], (xs + [x])[|xs|]);
        if j > |xs| {
          LongerIsLater(x, 0, j - |xs|);
          LessIsTransitive(all[i], x, all[j]);
        }
      } else {
        LongerIsLater(x, i - |xs|, j - |xs|);
      }
    }
  }

  function IndexOf(s: seq<Bytes>, k: Bytes): (i: nat)
    requires k in s
    ensures i < |s| && s[i] == k
  {
    if s[0] == k then 0 else 1 + IndexOf(s[1..], k)
  }

  lemma IndexIsUnique(s: seq<Bytes>, i: nat)
    requires Increasing(s) && i < |s|
    ensures IndexOf(s, s[i]) == i
  {
    LessIsTotal(s[i], s[IndexOf(s, s[i])]);
  }

  /** Contents for an object consumed by `keys`: the next steps of the ladder. */
  function Filled(keys: seq<Bytes>, x: Bytes): map<Bytes, Bytes> {
    map k | k in Elements(keys) :: Longer(x, IndexOf(keys, k) + 1)
  }

  /** What comes after step `i` of the ladder. */
  function Next(keys: seq<Bytes>, m: Bytes, i: int): Bytes {
    if 0 <= i < |keys| then keys[i] else m
  }

  /** Contents that read like the absent objects `xs`, then object `x` with `keys`, then the
      name `m`. */
  function Spread(xs: seq<Bytes>, x: Bytes, keys: seq<Bytes>, m: Bytes): map<Bytes, Bytes> {
    map k | k in Elements(xs + Ladder(x, |keys| + 1)) :: if k in xs then ABSENT else Next(keys, m, |k| - |x|)
  }

  lemma {:induction false} PairsAppend(a: seq<Bytes>, b: seq<Bytes>, data: map<Bytes, Bytes>)
    ensures Pairs(a + b, data) == Pairs(a, data) + Pairs(b, data)
    decreases |b|
  {
    if b == [] {
      assert a + b == a;
    } else {
      var n := |b| - 1;
      assert (a + b)[..|a| + n] == a + b[..n];
      PairsAppend(a, b[..n], data);
      Assoc(Pairs(a, data), Pairs(b[..n], data), [b[n], Shown(data, b[n])]);
    }
  }

  lemma PairsThen(keys: seq<Bytes>, k: Bytes, data: map<Bytes, Bytes>)
    ensures Pairs(keys + [k], data) == Pairs(keys, data) + [k, Shown(data, k)]
  {
    assert (keys + [k])[..|keys|] == keys;
  }

  lemma Rung<T>(x: seq<T>, p: seq<T>, k: T, v: T, next: T)
    ensures x + p + [k] + [v, next] == x + (p + [k, v]) + [next]
  {
  }

  /** `data` maps each step of the ladder to the key after it, and `filled` each key to the
      step after it. */
  ghost predicate Shifted(keys: seq<Bytes>, x: Bytes, m: Bytes, data: map<Bytes, Bytes>, filled: map<Bytes, Bytes>) {
    && (forall j: nat :: j <= |keys| ==> Shown(data, Longer(x, j)) == Next(keys, m, j))
    && (forall j: nat :: j < |keys| ==> Shown(filled, keys[j]) == Longer(x, j + 1))
  }

  lemma LadderStarts(x: Bytes, data: map<Bytes, Bytes>)
    ensures Pairs(Ladder(x, 1), data) == [x, Shown(data, x)]
  {
    assert Ladder(x, 1) == [] + [x] by {
      assert Longer(x, 0) == x;
    }
    PairsThen([], x, data);
  }

  lemma LadderSnoc(x: Bytes, i: nat, data: map<Bytes, Bytes>)
    ensures Pairs(Ladder(x, i + 1), data) == Pairs(Ladder(x, i), data) + [Longer(x, i), Shown(data, Longer(x, i))]
  {
    assert Ladder(x, i + 1) == Ladder(x, i) + [Longer(x, i)];
    PairsThen(Ladder(x, i), Longer(x, i), data);
  }

  /** The ladder reads like `x` and its keys, shifted by one. */
  lemma {:induction false} LadderReads(keys: seq<Bytes>, x: Bytes, m: Bytes,
                                       data: map<Bytes, Bytes>, filled: map<Bytes, Bytes>, i: nat)
    requires i <= |keys| && Shifted(keys, x, m, data, filled)
    ensures Pairs(Ladder(x, i + 1), data) == [x] + Pairs(keys[..i], filled) + [Next(keys, m, i)]
    decreases i
  {
    if i == 0 {
      assert Longer(x, 0) == x && keys[..0] == [];
      LadderStarts(x, data);
      assert [x] + [] + [Next(keys, m, 0)] == [x, Next(keys, m, 0)];
    } else {
      LadderReads(keys, x, m, data, filled, i - 1);
      LadderSnoc(x, i, data);
      PairsSnoc(keys, i - 1, filled);
      Rung([x], Pairs(keys[..i - 1], filled), keys[i - 1], Longer(x, i), Next(keys, m, i));
    }
  }

  lemma {:induction false} AbsentReads(xs: seq<Bytes>, refs: Refs, cluster: Cluster, data: map<Bytes, Bytes>)
    requires Elements(xs) <= refs.Keys
    requires forall k :: k in xs ==> Get(cluster, k).NotFound? && Shown(data, k) == ABSENT
    ensures Fields(xs, refs, cluster) == Pairs(xs, data)
    decreases |xs|
  {
    if xs != [] {
      var n := |xs| - 1;
      assert xs == xs[..n] + [xs[n]] && xs[..n + 1] == xs;
      FieldsSnoc(xs, n, refs, cluster);
      AbsentReads(xs[..n], refs, cluster, data);
      PairsThen(xs[..n], xs[n], data);
      assert [xs[n]] + [ABSENT] == [xs[n], ABSENT];
    }
  }

  lemma SpreadIsSorted(xs: seq<Bytes>, x: Bytes, keys: seq<Bytes>, m: Bytes)
    requires Increasing(xs + [x])
    ensures Sorted(Spread(xs, x, keys, m).Keys) == xs + Ladder(x, |keys| + 1)
  {
    LadderIncreases(xs, x, |keys| + 1);
    IncreasingIsUnique(Sorted(Spread(xs, x, keys, m).Keys), xs + Ladder(x, |keys| + 1));
  }

  lemma LadderIsApart(xs: seq<Bytes>, x: Bytes, k: nat, j: nat)
    requires Increasing(xs + [x]) && j < k
    ensures Longer(x, j) in Elements(xs + Ladder(x, k)) && Longer(x, j) !in xs
  {
    var all := xs + Ladder(x, k);
    LadderIncreases(xs, x, k);
    assert all[|xs| + j] == Longer(x, j);
    forall i | 0 <= i < |xs|
      ensures xs[i] != Longer(x, j)
    {
      assert all[i] == xs[i];
      LessIsTotal(all[i], all[|xs| + j]);
    }
  }

  lemma SpreadShows(xs: seq<Bytes>, x: Bytes, keys: seq<Bytes>, m: Bytes, j: nat)
    requires Increasing(xs + [x]) && j <= |keys|
    ensures Shown(Spread(xs, x, keys, m), Longer(x, j)) == Next(keys, m, j)
  {
    LadderIsApart(xs, x, |keys| + 1, j);
  }

  lemma SpreadIsShifted(xs: seq<Bytes>, x: Bytes, keys: seq<Bytes>, m: Bytes)
    requires Increasing(xs + [x]) && Increasing(keys)
    ensures Shifted(keys, x, m, Spread(xs, x, keys, m), Filled(keys, x))
  {
    forall j: nat | j <= |keys|
      ensures Shown(Spread(xs, x, keys, m), Longer(x, j)) == Next(keys, m, j)
    {
      SpreadShows(xs, x, keys, m, j);
    }
    forall j: nat | j < |keys|
      ensures Shown(Filled(keys, x), keys[j]) == Longer(x, j + 1)
    {
      IndexIsUnique(keys, j);
    }
  }

  /** The keys an object has to have for its contents to be shown: none if it is consumed as a
      whole. */
  ghost function Listed(c: Consumption): seq<Bytes> {
    if c.whole then [] else Sorted(c.keys)
  }

  lemma FilledBody(c: Consumption, x: Bytes)
    ensures Body(c, Found(Filled(Listed(c), x))) == Pairs(Listed(c), Filled(Listed(c), x))
  {
    if c.whole {
      SortedEmpty();
    }
  }

  lemma FilledReads(x: Bytes, m: Bytes, refs: Refs, cluster: Cluster, data: map<Bytes, Bytes>)
    requires x in refs && Elements([x]) <= refs.Keys
    requires var keys := Listed(refs[x]);
      && Get(cluster, x) == Found(Filled(keys, x))
      && Shifted(keys, x, m, data, Filled(keys, x))
    ensures Pairs(Ladder(x, |Listed(refs[x])| + 1), data) == Fields([x], refs, cluster) + [m]
  {
    var keys := Listed(refs[x]);
    LadderReads(keys, x, m, data, Filled(keys, x), |keys|);
    assert keys[..|keys|] == keys;
    FieldsCons([x], refs, cluster);
    FilledBody(refs[x], x);
    assert [x][1..] == [];
    assert Pairs(keys, Filled(keys, x)) + [] == Pairs(keys, Filled(keys, x));
  }

  lemma AllRead(xs: seq<Bytes>, x: Bytes, m: Bytes, refs: Refs, cluster: Cluster, data: map<Bytes, Bytes>)
    requires Elements(xs) <= refs.Keys && Elements([x]) <= refs.Keys && Elements(xs + [x]) <= refs.Keys && x in refs
    requires Fields(xs, refs, cluster) == Pairs(xs, data)
    requires Pairs(Ladder(x, |Listed(refs[x])| + 1), data) == Fields([x], refs, cluster) + [m]
    ensures Pairs(xs + Ladder(x, |Listed(refs[x])| + 1), data) == Fields(xs + [x], refs, cluster) + [m]
  {
    PairsAppend(xs, Ladder(x, |Listed(refs[x])| + 1), data);
    FieldsAppend(xs, [x], refs, cluster);
    Assoc(Pairs(xs, data), Fields([x], refs, cluster), [m]);
  }

  lemma SpreadReads(xs: seq<Bytes>, x: Bytes, m: Bytes, refs: Refs, cluster: Cluster)
    requires Increasing(xs + [x]) && Elements(xs + [x]) <= refs.Keys && x in refs
    requires forall k :: k in xs ==> Get(cluster, k).NotFound?
    requires Get(cluster, x) == Found(Filled(Listed(refs[x]), x))
    ensures var data := Spread(xs, x, Listed(refs[x]), m);
      Pairs(Sorted(data.Keys), data) == Fields(xs + [x], refs, cluster) + [m]
  {
    var keys := Listed(refs[x]);
    var data := Spread(xs, x, keys, m);
    assert Elements(xs + [x]) == Elements(xs) + Elements([x]);
    AbsentReads(xs, refs, cluster, data);
    SpreadIsShifted(xs, x, keys, m);
    FilledReads(x, m, refs, cluster, data);
    AllRead(xs, x, m, refs, cluster, data);
    SpreadIsSorted(xs, x, keys, m);
  }

  // ---- Ordinary states ----

  /** Names and the keys referred to hold no NUL, as Kubernetes has it. */
  ghost predicate PlainRefs(refs: Refs) {
    forall n :: n in refs ==> Plain(n) && (!refs[n].whole ==> forall k :: k in refs[n].keys ==> Plain(k))
  }

  /** Nothing odd about what is consumed of an object. */
  ghost predicate Ordinary(c: Consumption, read: Read) {
    !read.ReadFailed? && PlainKeys(c, read) && NoMarker(c, read)
  }

  ghost predicate AllOrdinary(refs: Refs, cluster: Cluster) {
    forall n :: n in refs ==> Ordinary(refs[n], Get(cluster, n))
  }

  lemma MarkersAreNotPlain()
    ensures !Plain(MISSING) && ABSENT != MISSING
  {
    assert MISSING[0] == 0;
    assert |ABSENT| != |MISSING|;
  }

  lemma LongerIsPlain(x: Bytes, i: nat)
    requires Plain(x)
    ensures Plain(Longer(x, i))
  {
  }

  lemma FilledIsOrdinary(c: Consumption, x: Bytes)
    requires Plain(x) && (!c.whole ==> forall k :: k in c.keys ==> Plain(k))
    ensures Ordinary(c, Found(Filled(Listed(c), x)))
  {
    var keys := Listed(c);
    forall k | k in Filled(keys, x)
      ensures Filled(keys, x)[k] != MISSING
    {
      LongerIsPlain(x, IndexOf(keys, k) + 1);
      MarkersAreNotPlain();
    }
  }

  lemma SpreadIsOrdinary(c: Consumption, xs: seq<Bytes>, x: Bytes, keys: seq<Bytes>, m: Bytes)
    requires c.whole && Plain(x) && Plain(m)
    requires (forall k :: k in xs ==> Plain(k)) && (forall k :: k in keys ==> Plain(k))
    ensures Ordinary(c, Found(Spread(xs, x, keys, m)))
  {
    var data := Spread(xs, x, keys, m);
    MarkersAreNotPlain();
    forall k | k in data
      ensures Plain(k) && data[k] != MISSING
    {
      if k !in xs {
        var i :| 0 <= i < |keys| + 1 && Ladder(x, |keys| + 1)[i] == k;
        LongerIsPlain(x, i);
      }
      assert Plain(Next(keys, m, |k| - |x|));
    }
  }

  // ---- Hidden pairs ----

  /** The objects `xs` gone, and `x` with the contents `filled`. */
  function Prepared(cluster: Cluster, xs: seq<Bytes>, x: Bytes, filled: map<Bytes, Bytes>): Cluster {
    map k | k in cluster.Keys + Elements(xs) + {x} ::
      if k == x then Found(filled) else if k in xs then NotFound else cluster[k]
  }

  /** Two states with one digest that the pod can tell apart by object `n`. */
  ghost predicate Hides(refs: Refs, n: Bytes, a: Cluster, b: Cluster)
    requires n in refs
  {
    && AllOrdinary(refs, a) && AllOrdinary(refs, b)
    && Fields(Sorted(refs.Keys), refs, a) == Fields(Sorted(refs.Keys), refs, b)
    && View(refs[n], Get(a, n)) != View(refs[n], Get(b, n))
  }

  lemma EmptyIsOrdinary(c: Consumption)
    requires c.whole
    ensures Ordinary(c, Found(map[]))
  {
  }

  lemma ContentsShow(c: Consumption, data: map<Bytes, Bytes>)
    requires c.whole && data != map[]
    ensures View(c, Found(map[])) != View(c, Found(data))
  {
    assert View(c, Found(data)).value.Keys == data.Keys && View(c, Found(map[])).value.Keys == {};
    assert data.Keys != {};
  }

  /** Whatever contents are moved from `m` to `n`, the states are ordinary if those are. */
  lemma WithIsOrdinary(refs: Refs, cluster: Cluster, n: Bytes, m: Bytes,
                       data: map<Bytes, Bytes>, data': map<Bytes, Bytes>)
    requires n in refs && m in refs && n != m && AllOrdinary(refs, cluster)
    requires Ordinary(refs[n], Found(data)) && Ordinary(refs[m], Found(data'))
    ensures AllOrdinary(refs, With(With(cluster, n, data), m, data'))
  {
  }

  /** Two whole references in the order of all names, and what stands before, between and
      after them. */
  datatype Layout = Layout(pre: seq<Bytes>, n: Bytes, mid: seq<Bytes>, m: Bytes, post: seq<Bytes>) {
    function Block(): seq<Bytes> {
      [n] + (mid + [m])
    }

    function Order(): seq<Bytes> {
      pre + (Block() + post)
    }

    ghost predicate Valid(refs: Refs) {
      && Order() == Sorted(refs.Keys)
      && n in refs && m in refs && refs[n].whole && refs[m].whole
    }

    ghost predicate Apart() {
      && n != m && n !in mid && m !in mid && Increasing(mid)
      && forall k :: k in pre || k in post ==> k != n && k != m
    }
  }

  lemma NotInSlice(order: seq<Bytes>, from: nat, to: nat, j: nat)
    requires Increasing(order) && from <= to <= |order| && j < |order| && !(from <= j < to)
    ensures order[j] !in order[from..to]
  {
    forall i | from <= i < to
      ensures order[i] != order[j]
    {
      LessIsTotal(order[i], order[j]);
    }
  }

  lemma Slices(l: Layout)
    ensures var order, i, j := l.Order(), |l.pre|, |l.pre| + 1 + |l.mid|;
      && j < |order| && order[i] == l.n && order[j] == l.m
      && order[0..i] == l.pre && order[i + 1..j] == l.mid && order[j + 1..|order|] == l.post
  {
  }

  lemma PartsAreApart(l: Layout)
    requires Increasing(l.Order())
    ensures l.Apart()
  {
    var order, i := l.Order(), |l.pre|;
    var j := i + 1 + |l.mid|;
    Slices(l);
    LessIsTotal(l.n, l.m);
    NotInSlice(order, i + 1, j, i);
    NotInSlice(order, i + 1, j, j);
    NotInSlice(order, 0, i, i);
    NotInSlice(order, 0, i, j);
    NotInSlice(order, j + 1, |order|, i);
    NotInSlice(order, j + 1, |order|, j);
  }

  lemma Cut<T>(s: seq<T>, i: nat, j: nat)
    requires i < j < |s|
    ensures s == s[..i] + (([s[i]] + (s[i + 1..j] + [s[j]])) + s[j + 1..])
  {
  }

  lemma LayoutAt(order: seq<Bytes>, i: nat, j: nat) returns (l: Layout)
    requires Increasing(order) && i < j < |order|
    ensures l.Order() == order && l.n == order[i] && l.m == order[j] && l.Apart()
  {
    Cut(order, i, j);
    l := Layout(order[..i], order[i], order[i + 1..j], order[j], order[j + 1..]);
    PartsAreApart(l);
  }

  lemma IndicesFollow(order: seq<Bytes>, n: Bytes, m: Bytes)
    requires Increasing(order) && n in order && m in order && Less(n, m)
    ensures IndexOf(order, n) < IndexOf(order, m)
  {
    LessIsTotal(n, m);
  }

  /** Where two whole references stand. */
  lemma FindLayout(refs: Refs, n: Bytes, m: Bytes) returns (l: Layout)
    requires n in refs && m in refs && refs[n].whole && refs[m].whole && Less(n, m)
    ensures l.Valid(refs) && l.Apart()
  {
    var order := Sorted(refs.Keys);
    assert n in Elements(order) && m in Elements(order);
    IndicesFollow(order, n, m);
    l := LayoutAt(order, IndexOf(order, n), IndexOf(order, m));
  }

  lemma InOrder(refs: Refs, l: Layout)
    requires l.Valid(refs)
    ensures Elements(l.Block()) <= refs.Keys && Elements(l.mid) <= refs.Keys
  {
    forall k | k in l.Block()
      ensures k in refs
    {
      assert k in Elements(l.Order());
    }
    forall k | k in l.mid
      ensures k in refs
    {
      assert k in l.Block();
    }
  }

  /** The contents `data` in `m`, or in `n`. */
  function InM(cluster: Cluster, l: Layout, data: map<Bytes, Bytes>): Cluster {
    With(With(cluster, l.n, map[]), l.m, data)
  }

  function InN(cluster: Cluster, l: Layout, data: map<Bytes, Bytes>): Cluster {
    With(With(cluster, l.n, data), l.m, map[])
  }

  lemma MovedIsOrdinary(refs: Refs, cluster: Cluster, l: Layout, data: map<Bytes, Bytes>)
    requires l.Valid(refs) && l.Apart() && AllOrdinary(refs, cluster)
    requires Ordinary(refs[l.n], Found(data)) && Ordinary(refs[l.m], Found(data))
    ensures AllOrdinary(refs, InM(cluster, l, data)) && AllOrdinary(refs, InN(cluster, l, data))
  {
    WithIsOrdinary(refs, cluster, l.n, l.m, map[], data);
    WithIsOrdinary(refs, cluster, l.n, l.m, data, map[]);
  }

  /** Next to each other. */
  lemma NeighboursHide(refs: Refs, cluster: Cluster, l: Layout)
    requires PlainRefs(refs) && AllOrdinary(refs, cluster) && l.Valid(refs) && l.Apart() && l.mid == []
    ensures Hides(refs, l.n, InM(cluster, l, map[l.m := l.m]), InN(cluster, l, map[l.m := l.m]))
  {
    MarkersAreNotPlain();
    assert l.Block() == [l.n, l.m];
    MovedKeyIsHidden(refs, cluster, l.pre, l.n, l.m, l.post, l.m);
    MovedIsOrdinary(refs, cluster, l, map[l.m := l.m]);
  }

  lemma MovedGets(cluster: Cluster, l: Layout, data: map<Bytes, Bytes>, k: Bytes)
    requires l.n != l.m
    ensures var a, b := InM(cluster, l, data), InN(cluster, l, data);
      && Get(a, l.n) == Get(b, l.m) == Found(map[]) && Get(a, l.m) == Get(b, l.n) == Found(data)
      && (k != l.n && k != l.m ==> Get(a, k) == Get(b, k) == Get(cluster, k))
  {
  }

  lemma ContentsFields(refs: Refs, a: Cluster, b: Cluster, l: Layout, data: map<Bytes, Bytes>)
    requires l.Valid(refs) && Elements(l.Block()) <= refs.Keys && Elements(l.mid) <= refs.Keys
    requires Get(a, l.n) == Get(b, l.m) == Found(map[]) && Get(a, l.m) == Get(b, l.n) == Found(data)
    requires forall k :: k in l.pre || k in l.mid || k in l.post ==> Get(a, k) == Get(b, k)
    requires Pairs(Sorted(data.Keys), data) == Fields(l.mid, refs, a) + [l.m]
    ensures Fields(Sorted(refs.Keys), refs, a) == Fields(Sorted(refs.Keys), refs, b)
  {
    BlockIsHidden(l.n, l.mid, l.m, refs, a, b, data);
    Splice(l.Order(), l.pre, l.Block(), l.post, refs, a, b);
  }

  /** Contents that read like what is between them hide. */
  lemma ContentsHide(refs: Refs, cluster: Cluster, l: Layout, data: map<Bytes, Bytes>)
    requires l.Valid(refs) && l.Apart() && AllOrdinary(refs, cluster) && data != map[]
    requires Ordinary(refs[l.n], Found(data)) && Ordinary(refs[l.m], Found(data)) && Elements(l.mid) <= refs.Keys
    requires Pairs(Sorted(data.Keys), data) == Fields(l.mid, refs, InM(cluster, l, data)) + [l.m]
    ensures Hides(refs, l.n, InM(cluster, l, data), InN(cluster, l, data))
  {
    var a, b := InM(cluster, l, data), InN(cluster, l, data);
    InOrder(refs, l);
    forall k | k in l.pre || k in l.mid || k in l.post
      ensures Get(a, k) == Get(b, k)
    {
      MovedGets(cluster, l, data, k);
    }
    MovedGets(cluster, l, data, l.n);
    ContentsFields(refs, a, b, l, data);
    MovedIsOrdinary(refs, cluster, l, data);
    ContentsShow(refs[l.n], data);
  }

  lemma PreparedIsOrdinary(refs: Refs, cluster: Cluster, xs: seq<Bytes>, x: Bytes)
    requires PlainRefs(refs) && AllOrdinary(refs, cluster) && x in refs
    ensures AllOrdinary(refs, Prepared(cluster, xs, x, Filled(Listed(refs[x]), x)))
  {
    FilledIsOrdinary(refs[x], x);
  }

  lemma SpreadIsNotEmpty(xs: seq<Bytes>, x: Bytes, keys: seq<Bytes>, m: Bytes)
    ensures Spread(xs, x, keys, m) != map[]
  {
    var all := xs + Ladder(x, |keys| + 1);
    assert all[|xs|] in Elements(all);
    assert all[|xs|] in Spread(xs, x, keys, m);
  }

  lemma ListedIsPlain(refs: Refs, x: Bytes, k: Bytes)
    requires PlainRefs(refs) && x in refs && k in Listed(refs[x])
    ensures Plain(k)
  {
    assert k in Elements(Sorted(refs[x].keys));
  }

  lemma SpreadIsOrdinaryHere(refs: Refs, c: Consumption, xs: seq<Bytes>, x: Bytes, m: Bytes)
    requires PlainRefs(refs) && c.whole && Elements(xs) <= refs.Keys && x in refs && m in refs
    ensures Ordinary(c, Found(Spread(xs, x, Listed(refs[x]), m)))
  {
    forall k | k in Listed(refs[x])
      ensures Plain(k)
    {
      ListedIsPlain(refs, x, k);
    }
    forall k | k in xs
      ensures Plain(k)
    {
      assert k in Elements(xs);
    }
    SpreadIsOrdinary(c, xs, x, Listed(refs[x]), m);
  }

  /** What is between them reads like that, with the objects `xs` gone. */
  lemma PreparedReads(refs: Refs, cluster: Cluster, l: Layout, xs: seq<Bytes>, x: Bytes)
    requires l.Apart() && l.mid == xs + [x] && Elements(l.mid) <= refs.Keys && x in refs
    ensures var data := Spread(xs, x, Listed(refs[x]), l.m);
      var prepared := Prepared(cluster, xs, x, Filled(Listed(refs[x]), x));
      Pairs(Sorted(data.Keys), data) == Fields(l.mid, refs, InM(prepared, l, data)) + [l.m]
  {
    var data := Spread(xs, x, Listed(refs[x]), l.m);
    var prepared := Prepared(cluster, xs, x, Filled(Listed(refs[x]), x));
    forall k | k in l.mid
      ensures Get(InM(prepared, l, data), k) == Get(prepared, k)
    {
      MovedGets(prepared, l, data, k);
    }
    forall k | k in xs
      ensures k in l.mid && Get(prepared, k).NotFound?
    {
      NotLast(xs, x, k);
    }
    assert x in l.mid;
    SpreadReads(xs, x, l.m, refs, InM(prepared, l, data));
  }

  lemma NotLast(xs: seq<Bytes>, x: Bytes, k: Bytes)
    requires Increasing(xs + [x]) && k in xs
    ensures k != x && k in xs + [x]
  {
    var i :| 0 <= i < |xs| && xs[i] == k;
    LessIsTotal((xs + [x])[i], (xs + [x])[|xs|]);
  }

  /** With others in between. */
  lemma ApartHide(refs: Refs, cluster: Cluster, l: Layout, xs: seq<Bytes>, x: Bytes)
    requires PlainRefs(refs) && AllOrdinary(refs, cluster) && l.Valid(refs) && l.Apart() && l.mid == xs + [x]
    ensures exists a, b :: Hides(refs, l.n, a, b)
  {
    InOrder(refs, l);
    assert x in Elements(l.mid) && Elements(xs) <= Elements(l.mid);
    var data := Spread(xs, x, Listed(refs[x]), l.m);
    PreparedIsOrdinary(refs, cluster, xs, x);
    SpreadIsOrdinaryHere(refs, refs[l.n], xs, x, l.m);
    SpreadIsOrdinaryHere(refs, refs[l.m], xs, x, l.m);
    SpreadIsNotEmpty(xs, x, Listed(refs[x]), l.m);
    PreparedReads(refs, cluster, l, xs, x);
    ContentsHide(refs, Prepared(cluster, xs, x, Filled(Listed(refs[x]), x)), l, data);
  }

  /** Two ordinary states that the pod can tell apart and no digest can. */
  ghost predicate HiddenPair(refs: Refs, a: Cluster, b: Cluster) {
    && AllOrdinary(refs, a) && AllOrdinary(refs, b) && !SameViews(refs, a, b)
    && forall sha: Bytes -> string :: DigestOf(refs, a, sha) == DigestOf(refs, b, sha)
  }

  lemma HidesMeans(refs: Refs, n: Bytes, a: Cluster, b: Cluster)
    requires n in refs && Hides(refs, n, a, b)
    ensures HiddenPair(refs, a, b)
  {
    var order := Sorted(refs.Keys);
    forall i | 0 <= i < |order|
      ensures order[i] in refs
    {
      assert order[i] in Elements(order);
    }
    FirstFailedExactly(order, a);
    FirstFailedExactly(order, b);
  }

  lemma Unsnoc<T>(s: seq<T>) returns (front: seq<T>, last: T)
    requires s != []
    ensures s == front + [last]
  {
    front, last := s[..|s| - 1], s[|s| - 1];
  }

  lemma LayoutHides(refs: Refs, cluster: Cluster, l: Layout)
    requires PlainRefs(refs) && AllOrdinary(refs, cluster) && l.Valid(refs) && l.Apart()
    ensures exists a, b :: Hides(refs, l.n, a, b)
  {
    if l.mid == [] {
      NeighboursHide(refs, cluster, l);
    } else {
      var xs, x := Unsnoc(l.mid);
      ApartHide(refs, cluster, l, xs, x);
    }
  }

  lemma FirstHides(refs: Refs, cluster: Cluster, n: Bytes, m: Bytes)
    requires PlainRefs(refs) && AllOrdinary(refs, cluster)
    requires n in refs && m in refs && refs[n].whole && refs[m].whole && Less(n, m)
    ensures exists a, b :: HiddenPair(refs, a, b)
  {
    var l := FindLayout(refs, n, m);
    LayoutHides(refs, cluster, l);
    var a, b :| Hides(refs, l.n, a, b);
    HidesMeans(refs, l.n, a, b);
  }

  /** For every pod spec that consumes two objects as a whole, wherever they stand in the order
      and whatever else it consumes, some change is hidden. */
  lemma TwoWholeRefsHide(refs: Refs, cluster: Cluster, n: Bytes, m: Bytes)
    requires PlainRefs(refs) && AllOrdinary(refs, cluster)
    requires n in refs && m in refs && n != m && refs[n].whole && refs[m].whole
    ensures exists a, b :: HiddenPair(refs, a, b)
  {
    LessIsTotal(n, m);
    if Less(n, m) {
      FirstHides(refs, cluster, n, m);
    } else {
      FirstHides(refs, cluster, m, n);
    }
  }

  /** And with none consumed as a whole, nothing is hidden from ordinary states. */
  lemma KeyRefsHideNothing(refs: Refs, a: Cluster, b: Cluster, sha: Bytes -> string)
    requires PlainRefs(refs) && AllOrdinary(refs, a) && AllOrdinary(refs, b)
    requires Framed(refs, a) && Framed(refs, b) && forall x, y :: sha(x) == sha(y) ==> x == y
    requires forall n :: n in refs ==> !refs[n].whole
    ensures DigestOf(refs, a, sha) == DigestOf(refs, b, sha) <==> SameViews(refs, a, b)
  {
    RotationIsVisible(refs, a, b, sha);
  }
}
