/** The redaction of API error messages (internal/litellm/users.go): every occurrence of
    a secret, raw and JSON-escaped, is replaced before the message reaches a condition,
    an event or a log line. */
module Redaction {
  import opened Sequences
  import opened Versioned

  const MARKER := "[REDACTED]"

  predicate OccursAt(s: string, p: string, i: int) {
    0 <= i && i + |p| <= |s| && s[i..i + |p|] == p
  }

  ghost predicate Contains(s: string, p: string) {
    exists i :: OccursAt(s, p, i)
  }

  /** strings.ReplaceAll with the marker: leftmost, non-overlapping. */
  function ReplaceAll(s: string, p: string): string
    requires p != ""
  {
    if |s| < |p| then s
    else if s[..|p|] == p then MARKER + ReplaceAll(s[|p|..], p)
    else [s[0]] + ReplaceAll(s[1..], p)
  }

  /** How a string literal is written, character by character. */
  type Escaper = char -> string

  /** A character stands for itself, or for a sequence that starts with a backslash and holds
      no opening bracket; those of the marker stand for themselves. */
  ghost predicate WellFormed(esc: Escaper) {
    && (forall c :: Stands(esc(c), c))
    && forall c :: c == '[' || c == ']' || 'A' <= c <= 'Z' ==> esc(c) == [c]
  }

  predicate Stands(e: string, c: char) {
    || (e == [c] && c != '\\')
    || (|e| >= 2 && e[0] == '\\' && forall k :: 0 <= k < |e| ==> e[k] != '[')
  }

  function Escape(esc: Escaper, s: string): string {
    if s == "" then "" else esc(s[0]) + Escape(esc, s[1..])
  }

  /** redact. */
  function Redact(esc: Escaper, s: string, secret: string): string
    requires WellFormed(esc)
  {
    if secret == "" then s
    else
      var raw := ReplaceAll(s, secret);
      if Escape(esc, secret) == secret then raw
      else
        EscapeLonger(esc, secret);
        ReplaceAll(raw, Escape(esc, secret))
  }

  lemma {:induction false} EscapeLonger(esc: Escaper, s: string)
    requires WellFormed(esc)
    ensures |Escape(esc, s)| >= |s|
  {
    if s != "" {
      assert Stands(esc(s[0]), s[0]);
      EscapeLonger(esc, s[1..]);
    }
  }

  /** Laying `q` on the marker so that q[0] meets MARKER[d], the two share a position
      and agree wherever they do. */
  ghost predicate Agrees(q: string, d: int) {
    && -|q| < d < |MARKER|
    && forall k :: 0 <= k < |MARKER| && d <= k < d + |q| ==> MARKER[k] == q[k - d]
  }

  /** `q` cannot be told apart from a neighbourhood of the marker. */
  ghost predicate Overlaps(q: string) {
    exists d :: Agrees(q, d)
  }

  /** The part of `q` that lies before the marker in such a placement. */
  function Before(q: string, d: int): string
    requires -|q| < d
  {
    if d < 0 then q[..-d] else ""
  }

  /** `q` laid on the marker at `d` can come out of a replacement: replacing scans left
      to right, so `q` must not already begin inside its own part before the marker. */
  ghost predicate LeaksAt(q: string, d: int) {
    && Agrees(q, d)
    && forall p :: 0 <= p < |Before(q, d)| ==> !OccursAt(Before(q, d) + q, q, p)
  }

  ghost predicate Leaks(q: string) {
    exists d :: LeaksAt(q, d)
  }

  /** No occurrence of `q` begins in the first `n` characters of `s`. */
  ghost predicate NoneBefore(s: string, q: string, n: int) {
    forall p :: 0 <= p < n ==> !OccursAt(s, q, p)
  }

  /** Text of `q` that runs up to a replaced occurrence at distance `j` makes it leak. */
  lemma StraddlingLeaks(s: string, q: string, j: int)
    requires 0 <= j < |q| <= |s| && s[..|q|] == q
    requires q[j..] <= ReplaceAll(s, q)
    requires NoneBefore(q[..j] + s, q, j)
    ensures Leaks(q)
  {
    forall k: int | 0 <= k < |MARKER| && -j <= k < -j + |q|
      ensures MARKER[k] == q[k + j]
    {
      assert ReplaceAll(s, q)[k] == MARKER[k];
      assert q[j..][k] == q[k + j];
    }
    assert Agrees(q, -j);
    assert Before(q, -j) == q[..j];
    forall p: int | 0 <= p < j
      ensures !OccursAt(q[..j] + q, q, p)
    {
      assert (q[..j] + q)[p..p + |q|] == (q[..j] + s)[p..p + |q|];
      assert !OccursAt(q[..j] + s, q, p);
    }
    assert LeaksAt(q, -j);
  }

  /** Moving the end of the text before `s` past its first character. */
  lemma NoneExtends(s: string, q: string, j: int)
    requires 0 <= j < |q| && s != "" && q[j] == s[0] && !(q <= s) && NoneBefore(q[..j] + s, q, j)
    ensures NoneBefore(q[..j + 1] + s[1..], q, j + 1)
  {
    var w := q[..j] + s;
    assert q[..j + 1] + s[1..] == w;
    if |s| >= |q| {
      assert w[j..j + |q|] == s[..|q|];
    }
  }

  /** A pattern that continues into replaced text, but did not continue into the
      original, leaks: `q[..j]` is the text just before `s`, and no occurrence begins
      there. */
  lemma {:induction false} NewContinuationLeaks(s: string, q: string, j: int)
    requires 0 <= j <= |q| && q != ""
    requires q[j..] <= ReplaceAll(s, q) && !(q[j..] <= s)
    requires NoneBefore(q[..j] + s, q, j)
    ensures Leaks(q)
    decreases |s|
  {
    if s[..|q|] == q {
      StraddlingLeaks(s, q, j);
    } else {
      ContinuesPast(s, q, j);
      NoneExtends(s, q, j);
      NewContinuationLeaks(s[1..], q, j + 1);
    }
  }

  lemma PrefixTail(a: string, s: string)
    requires a != "" && s != ""
    ensures a <= s <==> a[0] == s[0] && a[1..] <= s[1..]
  {
    if a[0] == s[0] && a[1..] <= s[1..] {
      assert a == [a[0]] + a[1..] && s == [s[0]] + s[1..];
    }
  }

  lemma ContinuesPast(s: string, p: string, j: int)
    requires 0 <= j <= |p| <= |s| && p != "" && !(p <= s) && p[j..] <= ReplaceAll(s, p) && !(p[j..] <= s)
    ensures j < |p| && p[j] == s[0]
    ensures p[j + 1..] <= ReplaceAll(s[1..], p) && !(p[j + 1..] <= s[1..])
  {
    var r := [s[0]] + ReplaceAll(s[1..], p);
    assert ReplaceAll(s, p) == r && r[1..] == ReplaceAll(s[1..], p);
    PrefixTail(p[j..], s);
    PrefixTail(p[j..], r);
    assert p[j..][1..] == p[j + 1..];
  }

  lemma OccursInTail(a: string, b: string, q: string, i: int)
    requires OccursAt(a + b, q, i) && i >= |a|
    ensures OccursAt(b, q, i - |a|)
  {
    assert b[i - |a|..i - |a| + |q|] == (a + b)[i..i + |q|];
  }

  /** One pass removes its own pattern, unless the pattern leaks. */
  lemma {:induction false} OccurrenceLeaks(s: string, q: string, i: int)
    requires q != "" && OccursAt(ReplaceAll(s, q), q, i)
    ensures Leaks(q)
    decreases |s|
  {
    assert |s| >= |q|;
    if s[..|q|] == q && i < |MARKER| {
      OccurrenceOnMarkerLeaks(s, q, i);
    } else if s[..|q|] == q {
      OccursInTail(MARKER, ReplaceAll(s[|q|..], q), q, i);
      OccurrenceLeaks(s[|q|..], q, i - |MARKER|);
    } else if i >= 1 {
      OccursInTail([s[0]], ReplaceAll(s[1..], q), q, i);
      OccurrenceLeaks(s[1..], q, i - 1);
    } else {
      assert q <= ReplaceAll(s, q);
      StartLeaks(s, q);
    }
  }

  lemma StartLeaks(s: string, q: string)
    requires q != "" && q <= ReplaceAll(s, q) && !(q <= s)
    ensures Leaks(q)
  {
    assert q[0..] == q;
    NewContinuationLeaks(s, q, 0);
  }

  lemma OccurrenceOnMarkerLeaks(s: string, q: string, i: int)
    requires q != "" && |q| <= |s| && s[..|q|] == q
    requires OccursAt(ReplaceAll(s, q), q, i) && i < |MARKER|
    ensures Leaks(q)
  {
    var r := ReplaceAll(s, q);
    forall k: int | 0 <= k < |MARKER| && i <= k < i + |q|
      ensures MARKER[k] == q[k - i]
    {
      assert r[k] == r[i..i + |q|][k - i];
    }
    assert LeaksAt(q, i);
  }

  /** The text a leaking pattern is spelled out of: what lies before it, the marker, and
      what lies after it. */
  lemma MarkerSpells(q: string, d: int, x: string, y: string)
    requires Agrees(q, d) && x == Before(q, d)
    requires y == if d + |q| > |MARKER| then q[|MARKER| - d..] else ""
    ensures OccursAt(x + MARKER + y, q, if d < 0 then 0 else d)
  {
    var r := x + MARKER + y;
    var i := if d < 0 then 0 else d;
    forall k: int | 0 <= k < |q|
      ensures r[i + k] == q[k]
    {
      if d + k < 0 {
        assert r[i + k] == x[k];
      } else if d + k < |MARKER| {
        assert r[i + k] == MARKER[d + k];
      } else {
        assert r[i + k] == y[d + k - |MARKER|];
      }
    }
    assert r[i..i + |q|] == q;
  }

  lemma NoneInTail(x: string, q: string)
    requires x != "" && NoneBefore(x + q, q, |x|)
    ensures NoneBefore(x[1..] + q, q, |x[1..]|)
  {
    forall p | 0 <= p < |x[1..]|
      ensures !OccursAt(x[1..] + q, q, p)
    {
      assert !OccursAt(x + q, q, p + 1);
      assert (x[1..] + q)[p..p + |q|] == (x + q)[p + 1..p + 1 + |q|];
    }
  }

  lemma NotAtStart(x: string, q: string, y: string)
    requires x != "" && NoneBefore(x + q, q, |x|)
    ensures !(q <= x + q + y) && (x + q + y)[1..] == x[1..] + q + y
  {
    assert !OccursAt(x + q, q, 0);
    assert (x + q)[0..|q|] == (x + q + y)[..|q|];
  }

  lemma {:induction false} FirstOccurrenceReplaced(x: string, q: string, y: string)
    requires q != "" && |y| < |q| && NoneBefore(x + q, q, |x|)
    ensures ReplaceAll(x + q + y, q) == x + MARKER + y
    decreases |x|
  {
    var m := x + q + y;
    if x == "" {
      assert m[..|q|] == q && m[|q|..] == y;
    } else {
      NotAtStart(x, q, y);
      NoneInTail(x, q);
      FirstOccurrenceReplaced(x[1..], q, y);
      assert m[0] == x[0] && x == [x[0]] + x[1..];
      Assoc([x[0]], x[1..] + MARKER, y);
      Assoc([x[0]], x[1..], MARKER);
    }
  }

  lemma ContainedInTail(s: string, n: nat, q: string)
    requires n <= |s|
    ensures Contains(s[n..], q) ==> Contains(s, q)
  {
    if Contains(s[n..], q) {
      var k :| OccursAt(s[n..], q, k);
      assert s[n + k..n + k + |q|] == s[n..][k..k + |q|];
      assert OccursAt(s, q, n + k);
    }
  }

  predicate NoBackslash(s: string) {
    forall k :: 0 <= k < |s| ==> s[k] != '\\'
  }

  /** Escaped text without a backslash is the original text. */
  lemma {:induction false} PlainPrefix(esc: Escaper, s: string, j: nat)
    requires WellFormed(esc)
    requires j <= |Escape(esc, s)| && NoBackslash(Escape(esc, s)[..j])
    ensures j <= |s| && s[..j] == Escape(esc, s)[..j]
    decreases j
  {
    if j > 0 {
      assert Stands(esc(s[0]), s[0]);
      assert Escape(esc, s)[0] == Escape(esc, s)[..j][0];
      assert Escape(esc, s)[1..] == Escape(esc, s[1..]);
      assert Escape(esc, s[1..])[..j - 1] == Escape(esc, s)[..j][1..];
      PlainPrefix(esc, s[1..], j - 1);
      assert s[..j] == [s[0]] + s[1..][..j - 1];
    }
  }

  /** An opening bracket in escaped text stands for itself. */
  lemma {:induction false} BracketIsPlain(esc: Escaper, s: string, a: nat) returns (i: nat)
    requires WellFormed(esc)
    requires a < |Escape(esc, s)| && Escape(esc, s)[a] == '['
    ensures i <= |s| && Escape(esc, s)[a..] == Escape(esc, s[i..])
    decreases |s|
  {
    assert Stands(esc(s[0]), s[0]);
    var first := esc(s[0]);
    if a < |first| {
      i := 0;
      assert s[0..] == s && a == 0;
    } else {
      var j := BracketIsPlain(esc, s[1..], a - |first|);
      i := j + 1;
      assert Escape(esc, s)[a..] == Escape(esc, s[1..])[a - |first|..];
      assert s[1..][j..] == s[i..];
    }
  }

  /** A placement in which the escaped form begins on the marker is one of the secret. */
  lemma RightOverlapIsRaw(esc: Escaper, s: string, d: int)
    requires WellFormed(esc)
    requires d >= 0 && Agrees(Escape(esc, s), d)
    ensures Agrees(s, d)
  {
    var e := Escape(esc, s);
    var j := if |e| < |MARKER| - d then |e| else |MARKER| - d;
    assert forall k: int :: 0 <= k < j ==> e[k] == MARKER[d + k];
    PlainPrefix(esc, s, j);
    EscapeLonger(esc, s);
    assert forall k: int :: 0 <= k < j ==> s[k] == s[..j][k];
  }

  /** Cutting off what lies before the marker, and putting it back. */
  lemma AgreesFromMarker(q: string, n: int)
    requires 0 <= n < |q|
    ensures Agrees(q, -n) <==> Agrees(q[n..], 0)
  {
    assert forall k: int :: 0 <= k < |q| - n ==> q[n..][k] == q[k + n];
  }

  // ---- When redaction is complete, exactly ----

  lemma MarkerFirstLeaks(q: string)
    requires |q| >= |MARKER| && q[..|MARKER|] == MARKER
    ensures Leaks(q)
  {
    forall k: int | 0 <= k < |MARKER|
      ensures MARKER[k] == q[k]
    {
      assert q[k] == q[..|MARKER|][k];
    }
    assert LeaksAt(q, 0);
  }

  /** A pattern that occurs at `p < i` in q[..i] + q, and agrees with the marker from `i`
      on, agrees with it from the start on. */
  lemma BorderAgrees(q: string, i: int, p: int, n: int)
    requires 0 <= p < i < |q| && OccursAt(q[..i] + q, q, p) && Agrees(q, -i)
    requires 0 <= n <= |MARKER| && i + n <= |q|
    ensures q[i..i + n] == MARKER[..n] && q[..n] == MARKER[..n]
  {
    forall k: int | 0 <= k < n
      ensures q[k] == MARKER[k] == q[i + k]
    {
      Repeats(q, i, p, k);
    }
  }

  lemma OccursBefore(q: string, d: int) returns (p: int)
    requires Agrees(q, d) && !Leaks(q)
    ensures 0 <= p < -d < |q| && OccursAt(q[..-d] + q, q, p)
  {
    assert !LeaksAt(q, d);
    p :| 0 <= p < |Before(q, d)| && OccursAt(Before(q, d) + q, q, p);
  }

  /** A pattern that overlaps the marker without leaking only ends like the marker begins,
      and begins like that too: an occurrence inside its own part before the marker makes
      it repeat itself. */
  lemma OverlapsWithoutLeaking(q: string, d: int)
    requires Agrees(q, d) && !Leaks(q)
    ensures d < 0 && d + |q| < |MARKER|
    ensures q[-d..] == MARKER[..d + |q|] && q[..d + |q|] == MARKER[..d + |q|]
  {
    var p := OccursBefore(q, d);
    if d + |q| >= |MARKER| {
      BorderAgrees(q, -d, p, |MARKER|);
      MarkerFirstLeaks(q);
    } else {
      BorderAgrees(q, -d, p, d + |q|);
      assert q[-d..-d + (d + |q|)] == q[-d..];
    }
  }

  /** What starts at `i` in a pattern that occurs at `p < i` in q[..i] + q is its start. */
  lemma {:induction false} Repeats(q: string, i: int, p: int, k: int)
    requires 0 <= k && 0 <= p < i <= |q| && OccursAt(q[..i] + q, q, p) && i + k < |q|
    ensures q[i + k] == q[k]
    decreases k
  {
    var w, step := q[..i] + q, i - p;
    assert forall m: int :: 0 <= m < |q| ==> q[m] == w[p..p + |q|][m] == w[p + m];
    assert q[i + k] == w[p + i + k] == q[p + k];
    if k < step {
      assert q[k] == w[p + k] == q[p + k];
    } else {
      Repeats(q, i, p, k - step);
      assert q[k] == w[p + k] == q[k - step];
      assert q[p + k] == q[i + (k - step)];
    }
  }

  lemma {:induction false} EscapeAppend(esc: Escaper, a: string, b: string)
    requires WellFormed(esc)
    ensures Escape(esc, a + b) == Escape(esc, a) + Escape(esc, b)
    decreases |a|
  {
    if a == "" {
      assert a + b == b;
    } else {
      var first := esc(a[0]);
      EscapeAppend(esc, a[1..], b);
      assert (a + b)[0] == a[0] && (a + b)[1..] == a[1..] + b;
      Assoc(first, Escape(esc, a[1..]), Escape(esc, b));
    }
  }

  predicate Plain(s: string) {
    forall k :: 0 <= k < |s| ==> s[k] == '[' || s[k] == ']' || 'A' <= s[k] <= 'Z'
  }

  lemma {:induction false} PlainEscape(esc: Escaper, s: string)
    requires WellFormed(esc)
    requires Plain(s)
    ensures Escape(esc, s) == s
    decreases |s|
  {
    if s != "" {
      PlainEscape(esc, s[1..]);
      assert esc(s[0]) == [s[0]];
    }
  }

  /** Nothing in the marker is escaped. */
  lemma MarkerIsPlain(n: int)
    requires 0 <= n <= |MARKER|
    ensures Plain(MARKER[..n])
  {
    assert Plain(MARKER);
  }

  /** Plain text at the start of a secret is there escaped as well. */
  lemma EscapeStartsAlike(esc: Escaper, q: string, start: string)
    requires WellFormed(esc) && Plain(start) && start <= q
    ensures start <= Escape(esc, q)
  {
    assert q == start + q[|start|..];
    EscapeAppend(esc, start, q[|start|..]);
    PlainEscape(esc, start);
  }

  /** A placement in which the escaped form covers the start of the marker is one of the
      secret, at the bracket that meets it. */
  lemma BracketPlacement(esc: Escaper, q: string, d: int) returns (i: int)
    requires WellFormed(esc)
    requires d <= 0 && Agrees(Escape(esc, q), d)
    ensures 0 <= i < |q| && Agrees(q, -i)
    ensures Escape(esc, q)[-d..] == Escape(esc, q[i..]) && Escape(esc, q)[..-d] == Escape(esc, q[..i])
  {
    var e := Escape(esc, q);
    assert MARKER[0] == e[-d];
    i := BracketIsPlain(esc, q, -d);
    AgreesFromMarker(e, -d);
    RightOverlapIsRaw(esc, q[i..], 0);
    AgreesFromMarker(q, i);
    assert q == q[..i] + q[i..];
    EscapeAppend(esc, q[..i], q[i..]);
    SameSuffix(Escape(esc, q[..i]), Escape(esc, q[i..]), e, -d);
  }

  lemma SameSuffix(a: string, b: string, s: string, n: int)
    requires 0 <= n <= |s| && s == a + b && s[n..] == b
    ensures s[..n] == a
  {
    assert |s[n..]| == |b|;
  }

  /** So the part of an escaped secret that lies on the marker is also its start, if the
      secret does not leak. */
  lemma EscapeRepeats(esc: Escaper, q: string, d: int)
    requires WellFormed(esc) && Agrees(Escape(esc, q), d) && !Leaks(q)
    ensures d < 0 && Escape(esc, q)[-d..] <= Escape(esc, q)
  {
    if d >= 0 {
      RightOverlapIsRaw(esc, q, d);
      OverlapsWithoutLeaking(q, d);
    } else {
      var i := BracketPlacement(esc, q, d);
      BorderIsStart(q, i);
      PlainBorder(esc, q, q[i..]);
    }
  }

  lemma BorderIsStart(q: string, i: int)
    requires 0 <= i < |q| && Agrees(q, -i) && !Leaks(q)
    ensures Plain(q[i..]) && q[i..] <= q
  {
    OverlapsWithoutLeaking(q, -i);
    MarkerIsPlain(|q| - i);
  }

  lemma PlainBorder(esc: Escaper, q: string, border: string)
    requires WellFormed(esc) && Plain(border) && border <= q
    ensures Escape(esc, border) <= Escape(esc, q)
  {
    PlainEscape(esc, border);
    EscapeStartsAlike(esc, q, border);
  }

  lemma BorderOccurs(e: string, m: int)
    requires 0 <= m <= |e| && e[m..] <= e
    ensures OccursAt(e[..m] + e, e, 0)
  {
    assert e == e[..m] + e[m..];
    assert (e[..m] + e)[0..|e|] == e[..m] + e[..|e| - m];
  }

  /** A secret that leaks escaped leaks raw. */
  lemma EscapeLeaks(esc: Escaper, q: string)
    requires WellFormed(esc) && Leaks(Escape(esc, q))
    ensures Leaks(q)
  {
    var d :| LeaksAt(Escape(esc, q), d);
    if !Leaks(q) {
      EscapeRepeats(esc, q, d);
      assert Before(Escape(esc, q), d) == Escape(esc, q)[..-d];
      BorderOccurs(Escape(esc, q), -d);
    }
  }

  lemma StartWasThere(esc: Escaper, s: string, q: string, j: int)
    requires WellFormed(esc)
    requires q != "" && 0 <= j < |q| && !Leaks(q) && Escape(esc, q) != "" && Escape(esc, q) <= s
    requires q[j..] <= ReplaceAll(s, Escape(esc, q))
    ensures q[j..] <= s
  {
    var e := Escape(esc, q);
    forall k: int | 0 <= k < |MARKER| && -j <= k < -j + |q|
      ensures MARKER[k] == q[k + j]
    {
      assert ReplaceAll(s, e)[k] == MARKER[k];
      assert q[j..][k] == q[k + j];
    }
    BorderIsStart(q, j);
    EscapeStartsAlike(esc, q, q[j..]);
    assert s[..|q| - j] == e[..|q| - j];
  }

  /** What continues into text whose escaped form was replaced continued into the original. */
  lemma {:induction false} ContinuationWasThere(esc: Escaper, s: string, q: string, j: int)
    requires WellFormed(esc)
    requires q != "" && 0 <= j <= |q| && !Leaks(q) && q[j..] <= ReplaceAll(s, Escape(esc, q)) && Escape(esc, q) != ""
    ensures q[j..] <= s
    decreases |s|
  {
    var e := Escape(esc, q);
    if |s| >= |e| && j < |q| {
      if s[..|e|] == e {
        StartWasThere(esc, s, q, j);
      } else {
        assert q[j + 1..] == q[j..][1..];
        assert s == [s[0]] + s[1..];
        ContinuationWasThere(esc, s[1..], q, j + 1);
        assert q[j..] == [q[j]] + q[j + 1..];
      }
    }
  }

  /** Replacing the escaped form of a secret that does not leak brings back no secret. */
  lemma {:induction false} OccurrenceWasThere(esc: Escaper, s: string, q: string, i: int)
    requires WellFormed(esc)
    requires q != "" && Escape(esc, q) != "" && !Leaks(q) && OccursAt(ReplaceAll(s, Escape(esc, q)), q, i)
    ensures Contains(s, q)
    decreases |s|
  {
    var e := Escape(esc, q);
    if |s| < |e| {
      assert OccursAt(s, q, i);
    } else if s[..|e|] == e {
      OccurrenceIsPastMarker(esc, s, q, i);
      OccursInTail(MARKER, ReplaceAll(s[|e|..], e), q, i);
      OccurrenceWasThere(esc, s[|e|..], q, i - |MARKER|);
      ContainedInTail(s, |e|, q);
    } else if i >= 1 {
      OccursInTail([s[0]], ReplaceAll(s[1..], e), q, i);
      OccurrenceWasThere(esc, s[1..], q, i - 1);
      ContainedInTail(s, 1, q);
    } else {
      assert q <= ReplaceAll(s, e);
      assert q[0..] == q;
      ContinuationWasThere(esc, s, q, 0);
      assert OccursAt(s, q, 0);
    }
  }

  lemma OccurrenceIsPastMarker(esc: Escaper, s: string, q: string, i: int)
    requires WellFormed(esc)
    requires q != "" && Escape(esc, q) <= s && Escape(esc, q) != "" && !Leaks(q)
    requires OccursAt(ReplaceAll(s, Escape(esc, q)), q, i)
    ensures i >= |MARKER|
  {
    var r := ReplaceAll(s, Escape(esc, q));
    if i < |MARKER| {
      forall k: int | 0 <= k < |MARKER| && i <= k < i + |q|
        ensures MARKER[k] == q[k - i]
      {
        assert r[k] == r[i..i + |q|][k - i];
      }
      assert Agrees(q, i);
      OverlapsWithoutLeaking(q, i);
    }
  }

  /** Escaped text as long as the original is the original. */
  lemma {:induction false} EscapeSameLength(esc: Escaper, s: string)
    requires WellFormed(esc)
    requires |Escape(esc, s)| == |s|
    ensures Escape(esc, s) == s
    decreases |s|
  {
    if s != "" {
      assert Stands(esc(s[0]), s[0]);
      EscapeLonger(esc, s[1..]);
      EscapeSameLength(esc, s[1..]);
    }
  }

  /** Escaped text that lies on the marker is the original. */
  lemma EscapeOnMarker(esc: Escaper, s: string, a: int)
    requires WellFormed(esc)
    requires 0 <= a && a + |Escape(esc, s)| <= |MARKER| && Escape(esc, s) == MARKER[a..a + |Escape(esc, s)|]
    ensures Escape(esc, s) == s
  {
    var e := Escape(esc, s);
    forall k | 0 <= k < |e|
      ensures e[k] != '\\'
    {
      assert e[k] == MARKER[a + k];
    }
    assert e[..|e|] == e;
    PlainPrefix(esc, s, |e|);
    EscapeLonger(esc, s);
  }

  /** How far the marker and `q` laid on it at `d` reach. */
  function Reach(q: string, d: int): int {
    if d + |q| > |MARKER| then d + |q| else |MARKER|
  }

  /** Only the marker's last character is a closing bracket. */
  lemma ClosingBracket(q: string, d: int, d': int)
    requires Agrees(q, d) && 0 < d' < d && d + |q| > |MARKER|
    ensures !Agrees(q, d')
  {
    assert q[9 - d] == MARKER[9];
    assert MARKER[9 - d + d'] != q[9 - d];
  }

  /** And only its first an opening one. */
  lemma OpeningBracket(q: string, d: int, i: int)
    requires Agrees(q, d) && 0 <= i < -d < i + |MARKER|
    ensures !Agrees(q, -i)
  {
    assert q[-d] == MARKER[0];
    assert MARKER[-d - i] != q[-d];
  }

  lemma StartsOffBracket(q: string, d: int)
    requires q != "" && Agrees(q, d) && d > 0
    ensures !Agrees(q, 0)
  {
    assert q[0] == MARKER[d] != MARKER[0];
  }

  /** Where the secret lies at a bracket of its own at `i`, with `m` characters before it
      and `n` from it on, once escaped. */
  lemma BracketFits(q: string, d: int, i: int, m: int, n: int)
    requires Agrees(q, d) && 0 <= i < |q| && Agrees(q, -i) && i <= m && |q| - i <= n
    requires (m > 0 ==> d <= -m) && n <= Reach(q, d)
    ensures i == m && (n <= |MARKER| || n == |q| - i)
  {
    if d > 0 {
      StartsOffBracket(q, d);
    } else if i < -d < i + |MARKER| {
      OpeningBracket(q, d, i);
    }
  }

  /** The escaped form does not fit where the marker and the secret lie, unless it is the
      secret: here starting on the marker, */
  lemma NoRoomOnMarker(esc: Escaper, q: string, d: int, d': int)
    requires WellFormed(esc)
    requires Agrees(q, d) && Agrees(Escape(esc, q), d') && d' > 0 && d' + |Escape(esc, q)| <= Reach(q, d)
    ensures Escape(esc, q) == q
  {
    var e := Escape(esc, q);
    EscapeLonger(esc, q);
    RightOverlapIsRaw(esc, q, d');
    if d' + |e| <= |MARKER| {
      assert forall k: int :: 0 <= k < |e| ==> e[k] == MARKER[d' + k];
      EscapeOnMarker(esc, q, d');
    } else if d > d' {
      ClosingBracket(q, d, d');
    } else {
      EscapeSameLength(esc, q);
    }
  }

  /** and here starting at or before it. */
  lemma NoRoomBeforeMarker(esc: Escaper, q: string, d: int, d': int)
    requires WellFormed(esc)
    requires Agrees(q, d) && Agrees(Escape(esc, q), d') && d' <= 0 && (d' < 0 ==> d <= d')
    requires d' + |Escape(esc, q)| <= Reach(q, d)
    ensures Escape(esc, q) == q
  {
    var i := BracketPlacement(esc, q, d');
    var head, tail := Escape(esc, q[..i]), Escape(esc, q[i..]);
    EscapeLonger(esc, q[..i]);
    EscapeLonger(esc, q[i..]);
    Lengths(Escape(esc, q), -d', head, tail);
    BracketFits(q, d, i, |head|, |tail|);
    EscapeSameLength(esc, q[..i]);
    EscapedTail(esc, q, i, d');
    assert q == q[..i] + q[i..];
  }

  lemma Lengths(e: string, n: int, head: string, tail: string)
    requires 0 <= n <= |e| && e[..n] == head && e[n..] == tail
    ensures e == head + tail && |head| == n && |tail| == |e| - n
  {
  }

  lemma EscapedTail(esc: Escaper, q: string, i: int, d': int)
    requires WellFormed(esc)
    requires 0 <= i < |q| && Agrees(Escape(esc, q), d') && d' <= 0 && Escape(esc, q)[-d'..] == Escape(esc, q[i..])
    requires |Escape(esc, q[i..])| <= |MARKER| || |Escape(esc, q[i..])| <= |q| - i
    ensures Escape(esc, q[i..]) == q[i..]
  {
    var tail := Escape(esc, q[i..]);
    EscapeLonger(esc, q[i..]);
    if |tail| <= |MARKER| {
      forall k: int | 0 <= k < |tail|
        ensures tail[k] == MARKER[k]
      {
        assert Escape(esc, q)[-d'..][k] == Escape(esc, q)[k - d'];
      }
      EscapeOnMarker(esc, q[i..], 0);
    } else {
      EscapeSameLength(esc, q[i..]);
    }
  }

  /** What occurs in a text around the marker, too long for either side, agrees with it. */
  lemma OccurrenceAgrees(x: string, y: string, e: string, p: int)
    requires |x| < |e| && |y| < |e| && OccursAt(x + MARKER + y, e, p)
    ensures Agrees(e, p - |x|)
  {
    var r, d := x + MARKER + y, p - |x|;
    forall k: int | 0 <= k < |MARKER| && d <= k < d + |e|
      ensures MARKER[k] == e[k - d]
    {
      assert r[|x| + k] == MARKER[k];
      assert r[p..p + |e|][k - d] == r[|x| + k];
    }
  }

  /** The parts of the text a leaking secret is spelled out of. */
  lemma SpellingLengths(q: string, d: int, x: string, y: string)
    requires Agrees(q, d) && x == Before(q, d)
    requires y == if d + |q| > |MARKER| then q[|MARKER| - d..] else ""
    ensures |x| == (if d < 0 then -d else 0) && |MARKER| + |y| == Reach(q, d)
    ensures q != "" ==> |x| < |q| && |y| < |q|
  {
  }

  /** `e`, laid on the marker at `d'`, stays within what `q` spells when laid on it at `d`. */
  ghost predicate StaysWithin(q: string, d: int, e: string, d': int) {
    Agrees(q, d) && Agrees(e, d') && (d' < 0 ==> d <= d') && d' + |e| <= Reach(q, d)
  }

  /** Where something as long as the secret can occur in that text. */
  lemma SpelledRange(q: string, d: int, x: string, y: string, e: string, p: int)
    requires Agrees(q, d) && x == Before(q, d)
    requires y == if d + |q| > |MARKER| then q[|MARKER| - d..] else ""
    requires q != "" && |e| >= |q| && OccursAt(x + MARKER + y, e, p)
    ensures StaysWithin(q, d, e, p - |x|)
  {
    SpellingLengths(q, d, x, y);
    assert |x + MARKER + y| == |x| + Reach(q, d);
    OccurrenceAgrees(x, y, e, p);
  }

  /** That text does not hold the secret's escaped form. */
  lemma SpelledIsNotEscaped(esc: Escaper, q: string, d: int, x: string, y: string, p: int)
    requires WellFormed(esc)
    requires Agrees(q, d) && x == Before(q, d)
    requires y == if d + |q| > |MARKER| then q[|MARKER| - d..] else ""
    requires q != "" && OccursAt(x + MARKER + y, Escape(esc, q), p)
    ensures Escape(esc, q) == q
  {
    EscapeLonger(esc, q);
    SpelledRange(q, d, x, y, Escape(esc, q), p);
    Squeezed(esc, q, d, p - |x|);
  }

  lemma Squeezed(esc: Escaper, q: string, d: int, d': int)
    requires WellFormed(esc) && StaysWithin(q, d, Escape(esc, q), d')
    ensures Escape(esc, q) == q
  {
    if d' > 0 {
      NoRoomOnMarker(esc, q, d, d');
    } else {
      NoRoomBeforeMarker(esc, q, d, d');
    }
  }

  lemma {:induction false} ReplaceNothing(s: string, p: string)
    requires p != "" && !Contains(s, p)
    ensures ReplaceAll(s, p) == s
    decreases |s|
  {
    if |s| >= |p| {
      assert !OccursAt(s, p, 0);
      ContainedInTail(s, 1, p);
      ReplaceNothing(s[1..], p);
    }
  }

  /** Neither the secret nor its escaped form is left of a message. */
  ghost predicate Clean(esc: Escaper, s: string, secret: string)
    requires WellFormed(esc)
  {
    !Contains(Redact(esc, s, secret), secret) && !Contains(Redact(esc, s, secret), Escape(esc, secret))
  }

  /** A secret that leaks out of the first replacement survives the second. */
  lemma LeakSurvives(esc: Escaper, q: string, d: int) returns (m: string)
    requires WellFormed(esc)
    requires q != "" && LeaksAt(q, d)
    ensures Contains(Redact(esc, m, q), q)
  {
    var x := Before(q, d);
    var y := if d + |q| > |MARKER| then q[|MARKER| - d..] else "";
    m := x + q + y;
    FirstOccurrenceReplaced(x, q, y);
    MarkerSpells(q, d, x, y);
    if Escape(esc, q) != q {
      EscapeLonger(esc, q);
      if Contains(x + MARKER + y, Escape(esc, q)) {
        var p :| OccursAt(x + MARKER + y, Escape(esc, q), p);
        SpelledIsNotEscaped(esc, q, d, x, y, p);
      }
      ReplaceNothing(x + MARKER + y, Escape(esc, q));
    }
  }

  /** A secret that does not leak is gone from every message, raw and escaped. */
  lemma NothingLeaks(esc: Escaper, s: string, secret: string)
    requires WellFormed(esc)
    requires secret != "" && !Leaks(secret)
    ensures Clean(esc, s, secret)
  {
    var raw, e := ReplaceAll(s, secret), Escape(esc, secret);
    if Contains(raw, secret) {
      var i :| OccursAt(raw, secret, i);
      OccurrenceLeaks(s, secret, i);
    }
    if e != secret {
      EscapeLonger(esc, secret);
      var r := ReplaceAll(raw, e);
      if Contains(r, secret) {
        var i :| OccursAt(r, secret, i);
        OccurrenceWasThere(esc, raw, secret, i);
      }
      if Contains(r, e) {
        var i :| OccursAt(r, e, i);
        OccurrenceLeaks(raw, e, i);
        EscapeLeaks(esc, secret);
      }
    }
  }

  /** Redaction, exactly, for any such way of escaping. */
  lemma CompleteExactly(esc: Escaper, secret: string)
    requires WellFormed(esc) && secret != ""
    ensures (forall s :: Clean(esc, s, secret)) <==> !Leaks(secret)
  {
    if Leaks(secret) {
      var d :| LeaksAt(secret, d);
      var m := LeakSurvives(esc, secret, d);
      assert !Clean(esc, m, secret);
    } else {
      forall s
        ensures Clean(esc, s, secret)
      {
        NothingLeaks(esc, s, secret);
      }
    }
  }

  // ---- JSON ----

  function HexDigit(n: int): char
    requires 0 <= n < 16
  {
    "0123456789abcdef"[n]
  }

  /** One character as encoding/json writes it inside a string. */
  function JsonChar(c: char): string {
    if c == '"' || c == '\\' then ['\\', c]
    else if c == '\U{08}' then "\\b"
    else if c == '\U{0C}' then "\\f"
    else if c == '\n' then "\\n"
    else if c == '\r' then "\\r"
    else if c == '\t' then "\\t"
    else if c < ' ' || c == '<' || c == '>' || c == '&' then
      "\\u00" + [HexDigit(c as int / 16 % 16), HexDigit(c as int % 16)]
    else if c == '\U{2028}' || c == '\U{2029}' then "\\u202" + [HexDigit(c as int % 16)]
    else [c]
  }

  lemma JsonCharStands(c: char)
    ensures Stands(JsonChar(c), c)
  {
    forall n | 0 <= n < 16
      ensures HexDigit(n) != '['
    {
    }
  }

  lemma JsonIsWellFormed()
    ensures WellFormed(JsonChar)
  {
    forall c
      ensures Stands(JsonChar(c), c)
    {
      JsonCharStands(c);
    }
  }

  /** Which characters encoding/json does not write as they are. */
  predicate Special(c: char) {
    c < ' ' || c in "\"\\<>&" || c == '\U{2028}' || c == '\U{2029}'
  }

  /** A character is written as it is exactly when it is not special. */
  lemma JsonCharIsPlain(c: char)
    ensures JsonChar(c) == [c] <==> !Special(c)
  {
  }

  lemma HexIsPlain(n: int)
    requires 0 <= n < 16
    ensures !Special(HexDigit(n))
  {
  }

  /** What is written is made of characters that are not, but for quotes and backslashes. */
  lemma JsonCharWritesPlain(c: char, k: int)
    requires 0 <= k < |JsonChar(c)|
    ensures JsonChar(c)[k] in "\"\\" || !Special(JsonChar(c)[k])
  {
    HexIsPlain(c as int / 16 % 16);
    HexIsPlain(c as int % 16);
  }

  function HexValue(c: char): int {
    if '0' <= c <= '9' then c as int - '0' as int
    else if 'a' <= c <= 'f' then c as int - 'a' as int + 10
    else if 'A' <= c <= 'F' then c as int - 'A' as int + 10
    else -1
  }

  /** The character a \u sequence stands for, if it has four hex digits and is no surrogate. */
  function FourDigits(s: string): int
    requires |s| == 4
  {
    var a, b, c, d := HexValue(s[0]), HexValue(s[1]), HexValue(s[2]), HexValue(s[3]);
    if a < 0 || b < 0 || c < 0 || d < 0 then -1 else ((a * 16 + b) * 16 + c) * 16 + d
  }

  function Unescaped(c: char): Option<char> {
    match c
    case '"' => Some('"')
    case '\\' => Some('\\')
    case '/' => Some('/')
    case 'b' => Some('\U{08}')
    case 'f' => Some('\U{0C}')
    case 'n' => Some('\n')
    case 'r' => Some('\r')
    case 't' => Some('\t')
    case _ => None
  }

  function Cons(c: char, rest: Option<string>): Option<string> {
    if rest.None? then None else Some([c] + rest.value)
  }

  /** Reading the inside of a JSON string literal (section 7 of RFC 8259). */
  function ReadJson(s: string): Option<string> {
    if s == "" then Some("")
    else if s[0] < ' ' || s[0] == '"' then None
    else if s[0] != '\\' then Cons(s[0], ReadJson(s[1..]))
    else if |s| < 2 then None
    else if s[1] != 'u' then
      if Unescaped(s[1]).None? then None else Cons(Unescaped(s[1]).value, ReadJson(s[2..]))
    else if |s| < 6 || FourDigits(s[2..6]) < 0 || 0xD800 <= FourDigits(s[2..6]) < 0xE000 then None
    else Cons(FourDigits(s[2..6]) as char, ReadJson(s[6..]))
  }

  lemma HexRoundTrip(n: int)
    requires 0 <= n < 16
    ensures HexValue(HexDigit(n)) == n
  {
  }

  lemma ReadPlain(c: char, rest: string)
    requires !Special(c)
    ensures ReadJson([c] + rest) == Cons(c, ReadJson(rest))
  {
    assert ([c] + rest)[1..] == rest;
  }

  lemma ReadShort(e: char, c: char, rest: string)
    requires e != 'u' && Unescaped(e) == Some(c)
    ensures ReadJson(['\\', e] + rest) == Cons(c, ReadJson(rest))
  {
    assert (['\\', e] + rest)[2..] == rest;
  }

  lemma ReadLong(digits: string, c: char, rest: string)
    requires |digits| == 4 && FourDigits(digits) == c as int
    ensures ReadJson("\\u" + digits + rest) == Cons(c, ReadJson(rest))
  {
    var s := "\\u" + digits + rest;
    assert s[2..6] == digits && s[6..] == rest;
  }

  lemma LowDigits(c: char)
    requires c < ' ' || c in "<>&"
    ensures FourDigits(['0', '0', HexDigit(c as int / 16 % 16), HexDigit(c as int % 16)]) == c as int
  {
    var n := c as int;
    assert 0 <= n < 64 && n / 16 % 16 == n / 16;
    HexRoundTrip(n % 16);
    HexRoundTrip(n / 16);
  }

  lemma ReadLow(c: char, rest: string)
    requires c < ' ' || c in "<>&"
    ensures ReadJson("\\u00" + [HexDigit(c as int / 16 % 16), HexDigit(c as int % 16)] + rest) ==
            Cons(c, ReadJson(rest))
  {
    var digits := ['0', '0', HexDigit(c as int / 16 % 16), HexDigit(c as int % 16)];
    LowDigits(c);
    assert "\\u00" + [HexDigit(c as int / 16 % 16), HexDigit(c as int % 16)] == "\\u" + digits;
    ReadLong(digits, c, rest);
  }

  lemma ReadSeparator(c: char, rest: string)
    requires c == '\U{2028}' || c == '\U{2029}'
    ensures ReadJson("\\u202" + [HexDigit(c as int % 16)] + rest) == Cons(c, ReadJson(rest))
  {
    HexRoundTrip(c as int % 16);
    var digits := "202" + [HexDigit(c as int % 16)];
    assert "\\u202" + [HexDigit(c as int % 16)] == "\\u" + digits;
    ReadLong(digits, c, rest);
  }

  lemma ReadJsonChar(c: char, rest: string)
    ensures ReadJson(JsonChar(c) + rest) == Cons(c, ReadJson(rest))
  {
    JsonCharIsPlain(c);
    if !Special(c) {
      ReadPlain(c, rest);
    } else if c in "\"\\" {
      ReadShort(c, c, rest);
    } else if c in ['\U{08}', '\U{0C}', '\n', '\r', '\t'] {
      ReadShort(JsonChar(c)[1], c, rest);
    } else if c == '\U{2028}' || c == '\U{2029}' {
      ReadSeparator(c, rest);
    } else {
      ReadLow(c, rest);
    }
  }

  /** The escaped form of a secret is a JSON string literal that reads as the secret. */
  lemma {:induction false} EscapedReadsBack(secret: string)
    ensures ReadJson(Escape(JsonChar, secret)) == Some(secret)
    decreases |secret|
  {
    if secret != "" {
      EscapedReadsBack(secret[1..]);
      ReadJsonChar(secret[0], Escape(JsonChar, secret[1..]));
      assert secret == [secret[0]] + secret[1..];
    }
  }

  /** A message without the secret is left as it is, and so is every message if there is none. */
  lemma NothingToRedact(s: string, secret: string)
    requires WellFormed(JsonChar)
    requires secret != "" ==> !Contains(s, secret) && !Contains(s, Escape(JsonChar, secret))
    ensures Redact(JsonChar, s, secret) == s
  {
    if secret != "" {
      ReplaceNothing(s, secret);
      EscapeLonger(JsonChar, secret);
      ReplaceNothing(s, Escape(JsonChar, secret));
    }
  }

  /** redact leaves neither the secret nor its JSON-escaped form in a message. */
  ghost predicate Redacted(s: string, secret: string) {
    JsonIsWellFormed();
    Clean(JsonChar, s, secret)
  }

  /** Redaction, exactly: for every non-empty secret, no message keeps the secret or its
      escaped form if and only if the secret does not leak. */
  lemma RedactionIsCompleteExactly(secret: string)
    requires secret != ""
    ensures (forall s :: Redacted(s, secret)) <==> !Leaks(secret)
  {
    JsonIsWellFormed();
    CompleteExactly(JsonChar, secret);
    assert forall s :: Redacted(s, secret) <==> Clean(JsonChar, s, secret);
  }

  /** In particular every secret the marker cannot spell is redacted completely. */
  lemma RedactionIsComplete(s: string, secret: string)
    requires secret != "" && !Overlaps(secret)
    ensures Redacted(s, secret)
  {
    JsonIsWellFormed();
    NothingLeaks(JsonChar, s, secret);
  }

  /** A secret the marker can spell has a square bracket or is part of the word
      REDACTED; every other secret is redacted completely. */
  lemma OnlyOddSecretsOverlap(secret: string)
    requires Overlaps(secret)
    ensures '[' in secret || ']' in secret || Contains("REDACTED", secret)
  {
    var d :| Agrees(secret, d);
    if d <= 0 {
      assert MARKER[0] == secret[-d];
    } else if d + |secret| > 9 {
      assert MARKER[9] == secret[9 - d];
    } else {
      InsideWord(secret, d);
    }
  }

  lemma InsideWord(secret: string, d: int)
    requires Agrees(secret, d) && 0 < d && d + |secret| <= 9
    ensures Contains("REDACTED", secret)
  {
    var word := "REDACTED";
    assert word == MARKER[1..9];
    forall k: int | 0 <= k < |secret|
      ensures secret[k] == word[d - 1..d - 1 + |secret|][k]
    {
      assert word[d - 1 + k] == MARKER[d + k];
    }
    assert OccursAt(word, secret, d - 1);
  }
}
