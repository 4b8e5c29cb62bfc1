/** hashWriter (internal/controller/secret_rollout.go): fields framed by their length, and
    the sorted order in which they are written. */
module Framing {
  import opened Versioned
  import opened ByteStrings
  import opened Sequences

  // ---- Length-prefixed fields ----

  /** The `width` low bytes of `n`, most significant first. */
  function BigEndian(n: nat, width: nat): (b: Bytes)
    ensures |b| == width
  {
    if width == 0 then [] else BigEndian(n / 256, width - 1) + [(n % 256) as byte]
  }

  function Number(b: Bytes): nat {
    if b == [] then 0 else Number(b[..|b| - 1]) * 256 + b[|b| - 1] as nat
  }

  function Power(width: nat): nat {
    if width == 0 then 1 else 256 * Power(width - 1)
  }

  lemma {:induction false} NumberOfBigEndian(n: nat, width: nat)
    requires n < Power(width)
    ensures Number(BigEndian(n, width)) == n
    decreases width
  {
    if width > 0 {
      NumberOfBigEndian(n / 256, width - 1);
      assert BigEndian(n, width)[..width - 1] == BigEndian(n / 256, width - 1);
    }
  }

  /** Fields fit in the memory of a 64-bit process. */
  predicate Short(p: Bytes) {
    |p| < 0x1_0000_0000_0000_0000
  }

  lemma PowerOfEight()
    ensures Power(8) == 0x1_0000_0000_0000_0000
  {
    assert Power(4) == 0x1_0000_0000 by {
      assert Power(2) == 0x1_0000;
    }
    assert Power(6) == 0x1_0000_0000_0000;
  }

  lemma NumberSnoc(b: Bytes, n: nat)
    requires |b| == n + 1
    ensures Number(b) == Number(b[..n]) * 256 + b[n] as nat
  {
  }

  /** The length field, byte by byte: the most significant comes first. */
  lemma EightBytes(n: nat)
    requires n < 0x1_0000_0000_0000_0000
    ensures var b := BigEndian(n, 8);
      var high := ((b[0] as nat * 256 + b[1] as nat) * 256 + b[2] as nat) * 256 + b[3] as nat;
      n == (((high * 256 + b[4] as nat) * 256 + b[5] as nat) * 256 + b[6] as nat) * 256 + b[7] as nat
  {
    PowerOfEight();
    NumberOfBigEndian(n, 8);
    var b := BigEndian(n, 8);
    FourBytes(b[..4]);
    FourMore(b);
  }

  lemma FourBytes(b: Bytes)
    requires |b| == 4
    ensures Number(b) == ((b[0] as nat * 256 + b[1] as nat) * 256 + b[2] as nat) * 256 + b[3] as nat
  {
    NumberSnoc(b, 3);
    NumberSnoc(b[..3], 2);
    NumberSnoc(b[..3][..2], 1);
    NumberSnoc(b[..3][..2][..1], 0);
  }

  lemma FourMore(b: Bytes)
    requires |b| == 8
    ensures Number(b) ==
      (((Number(b[..4]) * 256 + b[4] as nat) * 256 + b[5] as nat) * 256 + b[6] as nat) * 256 + b[7] as nat
  {
    NumberSnoc(b, 7);
    NumberSnoc(b[..7], 6);
    NumberSnoc(b[..7][..6], 5);
    NumberSnoc(b[..7][..6][..5], 4);
    assert b[..7][..6][..5][..4] == b[..4];
  }

  function Frame(p: Bytes): Bytes {
    BigEndian(|p|, 8) + p
  }

  /** The bytes hashed for some fields. */
  function Frames(fields: seq<Bytes>): Bytes {
    if fields == [] then [] else Frame(fields[0]) + Frames(fields[1..])
  }

  /** Reading the fields back. */
  function Unframe(b: Bytes): Option<seq<Bytes>> {
    if b == [] then Some([])
    else if |b| < 8 then None
    else
      var n := Number(b[..8]);
      if |b| < 8 + n then None
      else
        var rest := Unframe(b[8 + n..]);
        if rest.None? then None else Some([b[8..8 + n]] + rest.value)
  }

  /** The framing is uniquely decodable. */
  lemma {:induction false} UnframeFrames(fields: seq<Bytes>)
    requires forall i :: 0 <= i < |fields| ==> Short(fields[i])
    ensures Unframe(Frames(fields)) == Some(fields)
    decreases |fields|
  {
    if fields != [] {
      var p, b := fields[0], Frames(fields);
      PowerOfEight();
      NumberOfBigEndian(|p|, 8);
      assert b[..8] == BigEndian(|p|, 8);
      assert b[8..8 + |p|] == p;
      assert b[8 + |p|..] == Frames(fields[1..]);
      assert fields == [p] + fields[1..];
      UnframeFrames(fields[1..]);
    }
  }

  lemma FramesInjective(a: seq<Bytes>, b: seq<Bytes>)
    requires forall i :: 0 <= i < |a| ==> Short(a[i])
    requires forall i :: 0 <= i < |b| ==> Short(b[i])
    requires Frames(a) == Frames(b)
    ensures a == b
  {
    UnframeFrames(a);
    UnframeFrames(b);
  }

  lemma {:induction false} FramesAppend(a: seq<Bytes>, b: seq<Bytes>)
    ensures Frames(a + b) == Frames(a) + Frames(b)
    decreases |a|
  {
    if a == [] {
      assert a + b == b;
    } else {
      FramesAppend(a[1..], b);
      assert (a + b)[1..] == a[1..] + b;
      assert Frame(a[0]) + (Frames(a[1..]) + Frames(b)) == Frame(a[0]) + Frames(a[1..]) + Frames(b);
    }
  }

  /** The input of the hash so far, and the fields it is made of. */
  class HashWriter {
    var input: Bytes
    ghost var fields: seq<Bytes>

    ghost predicate Valid()
      reads this
    {
      input == Frames(fields)
    }

    constructor ()
      ensures Valid() && fields == []
    {
      input, fields := [], [];
    }

    method Write(parts: seq<Bytes>)
      requires Valid()
      modifies this
      ensures Valid() && fields == old(fields) + parts
    {
      for i := 0 to |parts|
        invariant Valid() && fields == old(fields) + parts[..i]
      {
        FramesAppend(fields, [parts[i]]);
        assert Frames([parts[i]]) == Frame(parts[i]) + [];
        assert parts[..i + 1] == parts[..i] + [parts[i]];
        input := input + BigEndian(|parts[i]|, 8);
        input := input + parts[i];
        fields := fields + [parts[i]];
      }
      assert parts[..|parts|] == parts;
    }
  }

  // ---- Sorted keys ----

  /** The order of byte strings. */
  predicate Less(a: Bytes, b: Bytes) {
    b != [] && (a == [] || a[0] < b[0] || (a[0] == b[0] && Less(a[1..], b[1..])))
  }

  lemma {:induction false} LessIsTotal(a: Bytes, b: Bytes)
    ensures a == b || Less(a, b) || Less(b, a)
    ensures !(Less(a, b) && Less(b, a))
    ensures Less(a, b) ==> a != b
    decreases |a|
  {
    if a != [] && b != [] && a[0] == b[0] {
      LessIsTotal(a[1..], b[1..]);
      assert a == [a[0]] + a[1..] && b == [b[0]] + b[1..];
    }
  }

  lemma {:induction false} LessIsTransitive(a: Bytes, b: Bytes, c: Bytes)
    requires Less(a, b) && Less(b, c)
    ensures Less(a, c)
    decreases |a|
  {
    if a != [] && a[0] == b[0] && b[0] == c[0] {
      LessIsTransitive(a[1..], b[1..], c[1..]);
    }
  }

  predicate Increasing(s: seq<Bytes>) {
    forall i, j :: 0 <= i < j < |s| ==> Less(s[i], s[j])
  }

  /** Sorting has one result. */
  lemma {:induction false} IncreasingIsUnique(a: seq<Bytes>, b: seq<Bytes>)
    requires Increasing(a) && Increasing(b) && Elements(a) == Elements(b)
    ensures a == b
    decreases |a|
  {
    assert a != [] ==> a[0] in Elements(a);
    assert b != [] ==> b[0] in Elements(b);
    if a != [] {
      FirstIsLeast(a, b[0]);
      FirstIsLeast(b, a[0]);
      LessIsTotal(a[0], b[0]);
      RestElements(a);
      RestElements(b);
      IncreasingIsUnique(a[1..], b[1..]);
      assert a == [a[0]] + a[1..] && b == [b[0]] + b[1..];
    }
  }

  lemma FirstIsLeast(s: seq<Bytes>, k: Bytes)
    requires Increasing(s) && k in s
    ensures k == s[0] || Less(s[0], k)
  {
  }

  lemma RestElements(s: seq<Bytes>)
    requires Increasing(s) && s != []
    ensures Increasing(s[1..]) && Elements(s[1..]) == Elements(s) - {s[0]}
  {
    forall k | k in s[1..]
      ensures k != s[0]
    {
      LessIsTotal(s[0], k);
    }
    assert s == [s[0]] + s[1..];
  }

  function Insert(s: seq<Bytes>, k: Bytes): seq<Bytes> {
    if s == [] || Less(k, s[0]) then [k] + s else [s[0]] + Insert(s[1..], k)
  }

  lemma {:induction false} InsertElements(s: seq<Bytes>, k: Bytes)
    ensures Elements(Insert(s, k)) == Elements(s) + {k}
    decreases |s|
  {
    if s != [] && !Less(k, s[0]) {
      InsertElements(s[1..], k);
      assert s == [s[0]] + s[1..];
      assert Elements(s) == Elements(s[1..]) + {s[0]};
      assert Elements([s[0]] + Insert(s[1..], k)) == {s[0]} + Elements(Insert(s[1..], k));
    }
  }

  lemma {:induction false} InsertIncreases(s: seq<Bytes>, k: Bytes)
    requires Increasing(s) && k !in s
    ensures Increasing(Insert(s, k))
    decreases |s|
  {
    if s != [] {
      if Less(k, s[0]) {
        forall j | 0 < j < |s|
          ensures Less(k, s[j])
        {
          LessIsTransitive(k, s[0], s[j]);
        }
      } else {
        LessIsTotal(k, s[0]);
        RestElements(s);
        InsertIncreases(s[1..], k);
        InsertElements(s[1..], k);
        var r := Insert(s[1..], k);
        forall j | 0 <= j < |r|
          ensures Less(s[0], r[j])
        {
          assert r[j] in Elements(r);
        }
      }
    }
  }

  /** The elements of a set in order. */
  ghost function Sorted(s: set<Bytes>): (o: seq<Bytes>)
    ensures Increasing(o) && Elements(o) == s
  {
    if s == {} then [] else
      var k :| k in s;
      var o := Sorted(s - {k});
      assert k !in Elements(o);
      InsertElements(o, k);
      InsertIncreases(o, k);
      Insert(o, k)
  }

  /** slices.Sorted over the keys of a map. */
  method SortedKeys(s: set<Bytes>) returns (order: seq<Bytes>)
    ensures order == Sorted(s)
  {
    order := [];
    var rest := s;
    while rest != {}
      invariant rest <= s && Increasing(order) && Elements(order) == s - rest
    {
      var k :| k in rest;
      assert k !in Elements(order);
      InsertElements(order, k);
      InsertIncreases(order, k);
      order, rest := Insert(order, k), rest - {k};
    }
    IncreasingIsUnique(order, Sorted(s));
  }
}
