/** passwordDigest and passwordMatchesDigest (internal/controller/litellmuser_controller.go):
    the digest of an applied password, in PHC string format, and the parser that compares a
    password with it. The key derivation is a parameter. */
module PasswordDigest {
  import opened Versioned
  import opened ByteStrings

  /** argon2.IDKey with the operator's parameters. */
  type Kdf = (Bytes, Bytes) -> Bytes

  const KEY_LENGTH := 32
  const VERSION := 19
  const PARAMS := "m=19456,t=2,p=1"

  // ---- Unpadded base64 (section 4 of RFC 4648) ----

  function DigitChar(d: nat): char
    requires d < 64
  {
    if d < 26 then 'A' + d as char
    else if d < 52 then 'a' + (d - 26) as char
    else if d < 62 then '0' + (d - 52) as char
    else if d == 62 then '+'
    else '/'
  }

  function CharDigit(c: char): (r: Option<nat>)
    ensures r.Some? ==> r.value < 64
  {
    if 'A' <= c <= 'Z' then Some((c - 'A') as nat)
    else if 'a' <= c <= 'z' then Some((c - 'a') as nat + 26)
    else if '0' <= c <= '9' then Some((c - '0') as nat + 52)
    else if c == '+' then Some(62)
    else if c == '/' then Some(63)
    else None
  }

  lemma DigitRoundTrip(d: nat)
    requires d < 64
    ensures CharDigit(DigitChar(d)) == Some(d) && DigitChar(d) !in "\n\r"
  {
  }

  /** The 6-bit digits of some bytes, the last one filled up with zeros. */
  function ToDigits(b: Bytes): (d: seq<nat>)
    ensures forall i :: 0 <= i < |d| ==> d[i] < 64
  {
    if b == [] then []
    else
      var b0 := b[0] as nat;
      if |b| == 1 then [b0 / 4, b0 % 4 * 16]
      else
        var b1 := b[1] as nat;
        if |b| == 2 then [b0 / 4, b0 % 4 * 16 + b1 / 16, b1 % 16 * 4]
        else
          var b2 := b[2] as nat;
          [b0 / 4, b0 % 4 * 16 + b1 / 16, b1 % 16 * 4 + b2 / 64, b2 % 64] + ToDigits(b[3..])
  }

  function Chars(d: seq<nat>): string
    requires forall i :: 0 <= i < |d| ==> d[i] < 64
  {
    if d == [] then "" else [DigitChar(d[0])] + Chars(d[1..])
  }

  function Encode(b: Bytes): string {
    Chars(ToDigits(b))
  }

  /** The digits of a string; line breaks do not count. */
  function Digits(s: string): Option<seq<nat>> {
    if s == "" then Some([])
    else
      var rest := Digits(s[1..]);
      if s[0] == '\n' || s[0] == '\r' then rest
      else if rest.None? || CharDigit(s[0]).None? then None
      else Some([CharDigit(s[0]).value] + rest.value)
  }

  /** One to three bytes from two to four digits; bits left over are dropped. */
  function FromDigits(d: seq<nat>): Option<Bytes>
    requires forall i :: 0 <= i < |d| ==> d[i] < 64
  {
    if d == [] then Some([])
    else if |d| == 1 then None
    else
      var b0 := (d[0] * 4 + d[1] / 16) as byte;
      if |d| == 2 then Some([b0])
      else
        var b1 := (d[1] % 16 * 16 + d[2] / 4) as byte;
        if |d| == 3 then Some([b0, b1])
        else
          var b2 := (d[2] % 4 * 64 + d[3]) as byte;
          var rest := FromDigits(d[4..]);
          if rest.None? then None else Some([b0, b1, b2] + rest.value)
  }

  lemma {:induction false} DigitsAreSmall(s: string)
    ensures Digits(s).Some? ==> forall i :: 0 <= i < |Digits(s).value| ==> Digits(s).value[i] < 64
    decreases |s|
  {
    if s != "" {
      DigitsAreSmall(s[1..]);
    }
  }

  function Decode(s: string): Option<Bytes> {
    DigitsAreSmall(s);
    if Digits(s).None? then None else FromDigits(Digits(s).value)
  }

  lemma DigitsCons(c: char, s: string, d: nat, digits: seq<nat>)
    requires CharDigit(c) == Some(d) && c !in "\n\r" && Digits(s) == Some(digits)
    ensures Digits([c] + s) == Some([d] + digits)
  {
    assert ([c] + s)[1..] == s;
  }

  lemma {:induction false} DigitsOfChars(d: seq<nat>)
    requires forall i :: 0 <= i < |d| ==> d[i] < 64
    ensures Digits(Chars(d)) == Some(d)
    decreases |d|
  {
    if d != [] {
      DigitRoundTrip(d[0]);
      DigitsOfChars(d[1..]);
      DigitsCons(DigitChar(d[0]), Chars(d[1..]), d[0], d[1..]);
      assert d == [d[0]] + d[1..];
    }
  }

  /** Four digits hold three bytes. */
  lemma Sextets(b0: nat, b1: nat, b2: nat)
    requires b0 < 256 && b1 < 256 && b2 < 256
    ensures b0 / 4 * 4 + (b0 % 4 * 16 + b1 / 16) / 16 == b0
    ensures (b0 % 4 * 16 + b1 / 16) % 16 * 16 + (b1 % 16 * 4 + b2 / 64) / 4 == b1
    ensures (b1 % 16 * 4 + b2 / 64) % 4 * 64 + b2 % 64 == b2
  {
  }

  lemma FromToOne(b0: byte)
    ensures FromDigits(ToDigits([b0])) == Some([b0])
  {
    Sextets(b0 as nat, 0, 0);
  }

  lemma FromToTwo(b0: byte, b1: byte)
    ensures FromDigits(ToDigits([b0, b1])) == Some([b0, b1])
  {
    Sextets(b0 as nat, b1 as nat, 0);
  }

  lemma FromToMore(b0: byte, b1: byte, b2: byte, rest: Bytes)
    requires FromDigits(ToDigits(rest)) == Some(rest)
    ensures FromDigits(ToDigits([b0, b1, b2] + rest)) == Some([b0, b1, b2] + rest)
  {
    Sextets(b0 as nat, b1 as nat, b2 as nat);
    assert ([b0, b1, b2] + rest)[3..] == rest;
    assert ToDigits([b0, b1, b2] + rest)[4..] == ToDigits(rest);
  }

  lemma {:induction false} FromToDigits(b: Bytes)
    ensures FromDigits(ToDigits(b)) == Some(b)
    decreases |b|
  {
    if |b| == 1 {
      assert b == [b[0]];
      FromToOne(b[0]);
    } else if |b| == 2 {
      assert b == [b[0], b[1]];
      FromToTwo(b[0], b[1]);
    } else if |b| >= 3 {
      assert b == [b[0], b[1], b[2]] + b[3..];
      FromToDigits(b[3..]);
      FromToMore(b[0], b[1], b[2], b[3..]);
    }
  }

  lemma DecodeEncode(b: Bytes)
    ensures Decode(Encode(b)) == Some(b)
  {
    DigitsOfChars(ToDigits(b));
    FromToDigits(b);
  }

  /** The alphabet: upper case, lower case, digits, plus and slash, each in order. */
  lemma AlphabetExactly(d: nat)
    requires d < 64
    ensures DigitChar(0) == 'A' && DigitChar(26) == 'a' && DigitChar(52) == '0'
    ensures DigitChar(62) == '+' && DigitChar(63) == '/'
    ensures d !in {0, 26, 52, 62, 63} ==> DigitChar(d) as int == DigitChar(d - 1) as int + 1
  {
  }

  /** The order of the bits: three bytes are one number of four digits, most significant first,
      and one or two bytes are filled up with zeros. */
  lemma DigitsExactly(b: Bytes)
    requires b != []
    ensures var q := ToDigits(b);
      if |b| == 1 then |q| == 2 && q[0] * 64 + q[1] == b[0] as nat * 16
      else if |b| == 2 then |q| == 3 && (q[0] * 64 + q[1]) * 64 + q[2] == (b[0] as nat * 256 + b[1] as nat) * 4
      else
        && |q| >= 4 && ToDigits(b[3..]) == q[4..]
        && ((q[0] * 64 + q[1]) * 64 + q[2]) * 64 + q[3] == (b[0] as nat * 256 + b[1] as nat) * 256 + b[2] as nat
  {
  }

  // ---- Splitting on '$' ----

  function Split(s: string): (parts: seq<string>)
    ensures |parts| >= 1
  {
    if s == "" then [""]
    else
      var rest := Split(s[1..]);
      if s[0] == '$' then [""] + rest else [[s[0]] + rest[0]] + rest[1..]
  }

  function Join(parts: seq<string>): string
    requires |parts| >= 1
  {
    if |parts| == 1 then parts[0] else parts[0] + (['$'] + Join(parts[1..]))
  }

  lemma {:induction false} SplitPlain(p: string)
    requires '$' !in p
    ensures Split(p) == [p]
    decreases |p|
  {
    if p != "" {
      SplitPlain(p[1..]);
      assert p == [p[0]] + p[1..];
    }
  }

  lemma {:induction false} SplitPrefix(p: string, s: string)
    requires '$' !in p
    ensures Split(p + (['$'] + s)) == [p] + Split(s)
    decreases |p|
  {
    var all := p + (['$'] + s);
    if p == "" {
      assert all[1..] == s;
    } else {
      SplitPrefix(p[1..], s);
      assert all[1..] == p[1..] + (['$'] + s);
      assert p == [p[0]] + p[1..];
    }
  }

  lemma {:induction false} SplitJoin(parts: seq<string>)
    requires |parts| >= 1 && forall i :: 0 <= i < |parts| ==> '$' !in parts[i]
    ensures Split(Join(parts)) == parts
    decreases |parts|
  {
    if |parts| == 1 {
      SplitPlain(parts[0]);
    } else {
      SplitPrefix(parts[0], Join(parts[1..]));
      SplitJoin(parts[1..]);
      assert parts == [parts[0]] + parts[1..];
    }
  }

  lemma {:induction false} EncodeHasNoDollar(d: seq<nat>)
    requires forall i :: 0 <= i < |d| ==> d[i] < 64
    ensures '$' !in Chars(d)
    decreases |d|
  {
    if d != [] {
      EncodeHasNoDollar(d[1..]);
    }
  }

  // ---- The digest ----

  function SkipSpaces(s: string): string {
    if s != "" && s[0] in " \t\r" then SkipSpaces(s[1..]) else s
  }

  /** The number that starts a string of decimal digits; what follows it is ignored. */
  function LeadingNumber(s: string, sofar: nat): nat {
    if s != "" && '0' <= s[0] <= '9' then LeadingNumber(s[1..], sofar * 10 + (s[0] - '0') as nat) else sofar
  }

  /** Sscanf with the format "v=%d". */
  function ScanVersion(s: string): Option<int> {
    if !("v=" <= s) then None
    else
      var t := SkipSpaces(s[2..]);
      var u := if t != "" && t[0] in "+-" then t[1..] else t;
      if u == "" || !('0' <= u[0] <= '9') then None
      else
        var n: int := LeadingNumber(u, 0);
        Some(if t[0] == '-' then -n else n)
  }

  /** passwordDigest for a given salt. */
  function Digest(kdf: Kdf, password: Bytes, salt: Bytes): string {
    "$argon2id$v=19$" + (PARAMS + ("$" + (Encode(salt) + ("$" + Encode(kdf(password, salt))))))
  }

  datatype Parsed = Parsed(salt: Bytes, key: Bytes)

  /** What passwordMatchesDigest reads off a digest before it derives a key. */
  function Parse(digest: string): Option<Parsed> {
    var parts := Split(digest);
    if |parts| != 6 || parts[1] != "argon2id" then None
    else if ScanVersion(parts[2]) != Some(VERSION) then None
    else if parts[3] != PARAMS then None
    else if Decode(parts[4]).None? then None
    else if Decode(parts[5]).None? || |Decode(parts[5]).value| != KEY_LENGTH then None
    else Some(Parsed(Decode(parts[4]).value, Decode(parts[5]).value))
  }

  predicate Matches(kdf: Kdf, digest: string, password: Bytes) {
    var p := Parse(digest);
    p.Some? && kdf(password, p.value.salt) == p.value.key
  }

  lemma VersionScans()
    ensures ScanVersion("v=19") == Some(19)
  {
    var s := "v=19";
    assert s[2..] == "19" && SkipSpaces("19") == "19";
    assert "19"[1..] == "9" && "9"[1..] == "";
    assert LeadingNumber("9", 1) == 19;
  }

  /** Printing and parsing: salt and key come back. */
  lemma ParseDigest(kdf: Kdf, password: Bytes, salt: Bytes)
    requires |kdf(password, salt)| == KEY_LENGTH
    ensures Parse(Digest(kdf, password, salt)) == Some(Parsed(salt, kdf(password, salt)))
  {
    var s, k := Encode(salt), Encode(kdf(password, salt));
    var parts := ["", "argon2id", "v=19", PARAMS, s, k];
    EncodeHasNoDollar(ToDigits(salt));
    EncodeHasNoDollar(ToDigits(kdf(password, salt)));
    JoinSix(s, k);
    SplitJoin(parts);
    VersionScans();
    DecodeEncode(salt);
    DecodeEncode(kdf(password, salt));
  }

  lemma JoinSix(s: string, k: string)
    ensures Join(["", "argon2id", "v=19", PARAMS, s, k]) == "$argon2id$v=19$" + (PARAMS + ("$" + (s + ("$" + k))))
  {
    var tail := PARAMS + ("$" + (s + ("$" + k)));
    assert Join([s, k]) == s + ("$" + k) by {
      assert [s, k][1..] == [k];
    }
    assert Join([PARAMS, s, k]) == tail by {
      assert [PARAMS, s, k][1..] == [s, k];
    }
    assert Join(["v=19", PARAMS, s, k]) == "v=19" + ("$" + tail) by {
      assert ["v=19", PARAMS, s, k][1..] == [PARAMS, s, k];
    }
    assert Join(["argon2id", "v=19", PARAMS, s, k]) == "argon2id" + ("$" + ("v=19" + ("$" + tail))) by {
      assert ["argon2id", "v=19", PARAMS, s, k][1..] == ["v=19", PARAMS, s, k];
    }
    assert ["", "argon2id", "v=19", PARAMS, s, k][1..] == ["argon2id", "v=19", PARAMS, s, k];
    Header(tail);
  }

  lemma Header(tail: string)
    ensures "" + ("$" + ("argon2id" + ("$" + ("v=19" + ("$" + tail))))) == "$argon2id$v=19$" + tail
  {
  }

  /** A digest matches a password exactly when the password derives the same key: so the
      password it was made from, and no other as long as keys do not collide. */
  lemma DigestMatchesExactly(kdf: Kdf, password: Bytes, salt: Bytes, other: Bytes)
    requires |kdf(password, salt)| == KEY_LENGTH
    ensures Matches(kdf, Digest(kdf, password, salt), password)
    ensures Matches(kdf, Digest(kdf, password, salt), other) <==> kdf(other, salt) == kdf(password, salt)
  {
    ParseDigest(kdf, password, salt);
  }

  lemma DigestHead(tail: string)
    ensures "$argon2id$v=19$" + (PARAMS + ("$" + tail)) == "$argon2id$v=19$m=19456,t=2,p=1$" + tail
  {
  }

  /** What a printed digest looks like. */
  lemma DigestFormat(kdf: Kdf, password: Bytes, salt: Bytes)
    ensures Digest(kdf, password, salt) ==
      "$argon2id$v=19$m=19456,t=2,p=1$" + (Encode(salt) + ("$" + Encode(kdf(password, salt))))
  {
    DigestHead(Encode(salt) + ("$" + Encode(kdf(password, salt))));
  }

  function Decimal(n: nat): string {
    if n < 10 then ['0' + n as char] else Decimal(n / 10) + ['0' + (n % 10) as char]
  }

  lemma {:induction false} LeadingSnoc(s: string, d: char, sofar: nat)
    requires '0' <= d <= '9' && forall i :: 0 <= i < |s| ==> '0' <= s[i] <= '9'
    ensures LeadingNumber(s + [d], sofar) == LeadingNumber(s, sofar) * 10 + (d - '0') as nat
    decreases |s|
  {
    if s == "" {
      assert (s + [d])[1..] == "";
    } else {
      assert (s + [d])[1..] == s[1..] + [d];
      LeadingSnoc(s[1..], d, sofar * 10 + (s[0] - '0') as nat);
    }
  }

  lemma {:induction false} DecimalReadsBack(n: nat)
    ensures Decimal(n) != "" && forall i :: 0 <= i < |Decimal(n)| ==> '0' <= Decimal(n)[i] <= '9'
    ensures LeadingNumber(Decimal(n), 0) == n
    decreases n
  {
    if n < 10 {
      assert Decimal(n)[1..] == "";
    } else {
      DecimalReadsBack(n / 10);
      LeadingSnoc(Decimal(n / 10), '0' + (n % 10) as char, 0);
    }
  }

  /** A version is read off its decimal number. */
  lemma VersionReadsBack(n: nat)
    ensures ScanVersion("v=" + Decimal(n)) == Some(n)
  {
    DecimalReadsBack(n);
    var s := "v=" + Decimal(n);
    assert s[2..] == Decimal(n) && Decimal(n)[0] !in " \t\r+-";
  }

  /** A digest of another scheme or version, with other parameters, of another shape or with a
      key of another length matches no password. */
  lemma ForeignDigestNeverMatches(kdf: Kdf, digest: string, password: Bytes)
    requires var parts := Split(digest);
      !(&& |parts| == 6 && parts[1] == "argon2id" && ScanVersion(parts[2]) == Some(19)
        && parts[3] == "m=19456,t=2,p=1" && Decode(parts[5]).Some? && |Decode(parts[5]).value| == 32)
    ensures !Matches(kdf, digest, password)
  {
  }

  /** Two printed digests are the same only for the same salt and key. */
  lemma DigestIsInjective(kdf: Kdf, password: Bytes, salt: Bytes, password': Bytes, salt': Bytes)
    requires |kdf(password, salt)| == |kdf(password', salt')| == KEY_LENGTH
    requires Digest(kdf, password, salt) == Digest(kdf, password', salt')
    ensures salt == salt' && kdf(password, salt) == kdf(password', salt')
  {
    ParseDigest(kdf, password, salt);
    ParseDigest(kdf, password', salt');
  }
}
