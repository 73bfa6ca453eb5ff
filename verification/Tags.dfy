/** The base-64 hash of constructor tags: LtagHash and de_hash (runtime/runtime.c:208-253). */
module Tags {
  import opened Options

  const LOWER := "abcdefghijklmnopqrstuvwxyz"
  const UPPER := "ABCDEFGHIJKLMNOPQRSTUVWXYZ"
  const DIGITS := "0123456789"
  const CHARS := "_" + LOWER + UPPER + DIGITS + "'"
  const MAX_SEXP_TAGLEN: nat := 10

  lemma Ranges()
    ensures |LOWER| == 26 && forall i :: 0 <= i < 26 ==> LOWER[i] as int == 'a' as int + i
    ensures |UPPER| == 26 && forall i :: 0 <= i < 26 ==> UPPER[i] as int == 'A' as int + i
    ensures |DIGITS| == 10 && forall i :: 0 <= i < 10 ==> DIGITS[i] as int == '0' as int + i
  {}

  lemma Alphabet()
    ensures |CHARS| == 64 && CHARS[0] == '_' && forall i, j :: 0 <= i < j < 64 ==> CHARS[i] != CHARS[j]
  {
    Ranges();
  }

  /** The first position of a character from i on, or the length. */
  function Find(cs: string, c: char, i: nat): (d: nat)
    requires i <= |cs|
    ensures i <= d <= |cs| && (d < |cs| ==> cs[d] == c) && forall k :: i <= k < d ==> cs[k] != c
    decreases |cs| - i
  {
    if i == |cs| || cs[i] == c then i else Find(cs, c, i + 1)
  }

  /** The digit of a character; |CHARS| if it has none. */
  function Digit(c: char): (d: nat)
    ensures d <= |CHARS|
  {
    Find(CHARS, c, 0)
  }

  /** The number that the digits of a string denote. */
  function Number(s: string): nat {
    if s == [] then 0 else Number(s[..|s| - 1]) * 64 + Digit(s[|s| - 1])
  }

  function Prefix(s: string): (p: string)
    ensures |p| <= MAX_SEXP_TAGLEN
  {
    if |s| <= MAX_SEXP_TAGLEN then s else s[..MAX_SEXP_TAGLEN]
  }

  predicate InAlphabet(s: string) {
    forall i :: 0 <= i < |s| ==> Digit(s[i]) < |CHARS|
  }

  /** The digits of a number without leading zeros. */
  function DeHash(n: nat): string {
    if n == 0 then [] else
      Alphabet();
      DeHash(n / 64) + [CHARS[n % 64]]
  }

  lemma DigitOf(d: nat)
    requires d < 64
    ensures |CHARS| == 64 && Digit(CHARS[d]) == d
  {
    Alphabet();
  }

  lemma CharOf(c: char)
    requires Digit(c) < |CHARS|
    ensures |CHARS| == 64 && CHARS[Digit(c)] == c
  {
    Alphabet();
  }

  predicate IsCanonical(s: string) {
    InAlphabet(s) && (s == [] || s[0] != '_')
  }

  lemma {:induction false} NumberOfDeHash(n: nat)
    ensures Number(DeHash(n)) == n && IsCanonical(DeHash(n))
    decreases n
  {
    hide Digit;
    if n > 0 {
      Alphabet();
      NumberOfDeHash(n / 64);
      DigitOf(n % 64);
      var s := DeHash(n);
      assert s[..|s| - 1] == DeHash(n / 64);
      if n < 64 { DigitOf(0); }
    }
  }

  lemma {:induction false} NumberPositive(s: string)
    requires IsCanonical(s) && s != []
    ensures Number(s) > 0
    decreases |s|
  {
    hide Digit;
    if |s| == 1 {
      CharOf(s[0]);
      Alphabet();
      assert Digit(s[0]) != 0;
    } else {
      NumberPositive(s[..|s| - 1]);
    }
  }

  /** Without a leading zero digit, the digits come back. */
  lemma {:induction false} DeHashOfNumber(s: string)
    requires IsCanonical(s)
    ensures DeHash(Number(s)) == s
    decreases |s|
  {
    hide Digit;
    if s != [] {
      var t, d := s[..|s| - 1], Digit(s[|s| - 1]);
      Alphabet();
      NumberPositive(s);
      DeHashOfNumber(t);
      CharOf(s[|s| - 1]);
      assert Number(s) / 64 == Number(t) && Number(s) % 64 == d;
      assert s == t + [s[|s| - 1]];
    }
  }

  lemma {:induction false} NumberBelow(s: string)
    requires InAlphabet(s)
    ensures Number(s) < Power(|s|)
    decreases |s|
  {
    hide Digit;
    if s != [] {
      Alphabet();
      NumberBelow(s[..|s| - 1]);
    }
  }

  function Power(k: nat): nat {
    if k == 0 then 1 else 64 * Power(k - 1)
  }

  lemma {:induction false} DeHashLength(n: nat, k: nat)
    requires n < Power(k)
    ensures |DeHash(n)| <= k
    decreases k
  {
    hide Digit;
    if n > 0 { DeHashLength(n / 64, k - 1); }
  }

  /** LtagHash of a C string: None is its failure, over a character or over the comparison of
      the first characters with what de_hash makes of the result. */
  function TagHash(s: string): Option<nat> {
    if InAlphabet(Prefix(s)) && Prefix(DeHash(Number(Prefix(s)))) == Prefix(s)
    then Some(Number(Prefix(s))) else None
  }

  lemma CanonicalPrefix(s: string)
    requires IsCanonical(s)
    ensures IsCanonical(Prefix(s))
  {}

  /** Hashing works exactly for tags whose first ten characters are in the alphabet and do not
      begin with an underscore; de_hash gives these characters back; the hash has 60 bits. */
  lemma TagsRoundTrip(s: string)
    ensures TagHash(s).Some? <==> IsCanonical(Prefix(s))
    ensures TagHash(s).Some? ==> DeHash(TagHash(s).value) == Prefix(s) && TagHash(s).value < 0x1000_0000_0000_0000
  {
    hide Digit, InAlphabet;
    var p := Prefix(s);
    NumberOfDeHash(Number(p));
    CanonicalPrefix(DeHash(Number(p)));
    if IsCanonical(p) {
      DeHashOfNumber(p);
      NumberBelow(p);
      PowerGrows(|p|, 10);
      TenDigits();
    }
  }

  lemma {:induction false} PowerGrows(j: nat, k: nat)
    requires j <= k
    ensures Power(j) <= Power(k)
    decreases k
  {
    if j < k { PowerGrows(j, k - 1); }
  }

  /** Hashes agree exactly when the first ten characters do. */
  lemma HashesTellPrefixes(s: string, t: string)
    requires TagHash(s).Some? && TagHash(t).Some?
    ensures TagHash(s) == TagHash(t) <==> Prefix(s) == Prefix(t)
  {
    hide TagHash, DeHash;
    TagsRoundTrip(s);
    TagsRoundTrip(t);
    SamePrefixSameHash(s, t);
  }

  lemma SamePrefixSameHash(s: string, t: string)
    ensures Prefix(s) == Prefix(t) ==> TagHash(s) == TagHash(t)
  {}

  /** And every number of 60 bits is the hash of its digits. */
  lemma EveryHashIsATag(n: nat)
    requires n < 0x1000_0000_0000_0000
    ensures TagHash(DeHash(n)) == Some(n)
  {
    hide Digit, InAlphabet;
    TenDigits();
    DeHashLength(n, 10);
    NumberOfDeHash(n);
  }

  lemma TenDigits()
    ensures Power(10) == 0x1000_0000_0000_0000
  {}

  lemma DeHashStep(m: nat, p: nat)
    requires 0 < m < Power(p)
    ensures |CHARS| == 64 && 0 < p && m / 64 < Power(p - 1) && DeHash(m) == DeHash(m / 64) + [CHARS[m % 64]]
  {
    Alphabet();
  }

  lemma DeHashEnd()
    ensures DeHash(0) == []
  {}

  /** The digits: the underscore is zero, then the letters, small before capital, then the
      decimal digits, and the apostrophe last. */
  lemma DigitsAre(c: char)
    ensures Digit('_') == 0 && Digit('\'') == 63
    ensures 'a' <= c <= 'z' ==> Digit(c) == c as int - 'a' as int + 1
    ensures 'A' <= c <= 'Z' ==> Digit(c) == c as int - 'A' as int + 27
    ensures '0' <= c <= '9' ==> Digit(c) == c as int - '0' as int + 53
  {
    Ranges();
    Alphabet();
    DigitIs('_', 0);
    DigitIs('\'', 63);
    if 'a' <= c <= 'z' { DigitIs(c, c as int - 'a' as int + 1); }
    if 'A' <= c <= 'Z' { DigitIs(c, c as int - 'A' as int + 27); }
    if '0' <= c <= '9' { DigitIs(c, c as int - '0' as int + 53); }
  }

  lemma DigitIs(c: char, d: nat)
    requires d < 64 && CharAt(d) == c
    ensures Digit(c) == d
  {
    CharsAre(d);
    DigitOf(d);
  }

  function CharAt(d: nat): char
    requires d < 64
  {
    if d == 0 then '_'
    else if d < 27 then ('a' as int + d - 1) as char
    else if d < 53 then ('A' as int + d - 27) as char
    else if d < 63 then ('0' as int + d - 53) as char
    else '\''
  }

  lemma CharsAre(d: nat)
    requires d < 64
    ensures |CHARS| == 64 && CHARS[d] == CharAt(d)
  {
    Ranges();
    Alphabet();
  }

  lemma Shifted(a: nat, p: nat, b: nat, d: nat)
    ensures (a * p + b) * 64 + d == a * (64 * p) + (b * 64 + d)
  {}

  /** Strings are numbers to the base 64, the first character the most significant. */
  lemma {:induction false} NumberOfBoth(s: string, t: string)
    ensures Number(s + t) == Number(s) * Power(|t|) + Number(t)
    decreases |t|
  {
    hide Digit;
    if t == [] {
      assert s + t == s;
    } else {
      var n := |t| - 1;
      NumberOfBoth(s, t[..n]);
      assert (s + t)[..|s + t| - 1] == s + t[..n] && (s + t)[|s + t| - 1] == t[n];
      Shifted(Number(s), Power(n), Number(t[..n]), Digit(t[n]));
    }
  }

  /** A tag of one letter hashes to its place in the alphabet, and a tag of two to 64 times the
      first place and the second. */
  lemma SmallTags(c: char, d: char)
    requires 'a' <= c <= 'z' && 'a' <= d <= 'z'
    ensures TagHash([c]) == Some(c as int - 'a' as int + 1)
    ensures TagHash([c, d]) == Some(64 * (c as int - 'a' as int + 1) + d as int - 'a' as int + 1)
  {
    hide Digit, DeHash;
    DigitsAre(c);
    DigitsAre(d);
    Alphabet();
    assert [c, d] == [c] + [d] && [c][..0] == [] && [c, d][..1] == [c];
    TagsRoundTrip([c]);
    TagsRoundTrip([c, d]);
    ShortPrefix([c]);
    ShortPrefix([c, d]);
    assert Number([c]) == Digit(c) && Number([c, d]) == 64 * Digit(c) + Digit(d);
  }

  lemma ShortPrefix(s: string)
    requires |s| <= 10
    ensures Prefix(s) == s
  {}

  /** de_hash into its static buffer of eleven bytes; the result begins at p. */
  method DeHashInto(n: nat, buf: array<char>) returns (p: nat)
    requires buf.Length == MAX_SEXP_TAGLEN + 1 && n < 0x1000_0000_0000_0000
    modifies buf
    ensures p <= MAX_SEXP_TAGLEN && buf[p..MAX_SEXP_TAGLEN] == DeHash(n) && buf[MAX_SEXP_TAGLEN] == '\0'
  {
    hide Digit, DeHash, Power;
    Alphabet();
    TenDigits();
    buf[MAX_SEXP_TAGLEN] := '\0';
    p := MAX_SEXP_TAGLEN;
    var m: nat := n;
    while m != 0
      invariant 0 <= p <= MAX_SEXP_TAGLEN && buf[MAX_SEXP_TAGLEN] == '\0'
      invariant m < Power(p) && DeHash(m) + buf[p..MAX_SEXP_TAGLEN] == DeHash(n)
    {
      ghost var rest := buf[p..MAX_SEXP_TAGLEN];
      DeHashStep(m, p);
      p := p - 1;
      buf[p] := CHARS[m % 64];
      assert buf[p..MAX_SEXP_TAGLEN] == [CHARS[m % 64]] + rest;
      m := m / 64;
    }
    DeHashEnd();
  }

  /** LtagHash; the length of s bounds the loop where the code looks for the zero byte. */
  method LtagHash(s: string, buf: array<char>) returns (h: Option<nat>)
    requires buf.Length == MAX_SEXP_TAGLEN + 1
    modifies buf
    ensures h == TagHash(s)
  {
    hide Digit;
    var n, i := 0, 0;
    while i < |s| && i < MAX_SEXP_TAGLEN
      invariant 0 <= i <= |Prefix(s)| && InAlphabet(s[..i]) && n == Number(s[..i])
    {
      assert s[..i + 1][..i] == s[..i] && Prefix(s)[i] == s[i];
      var pos := Digit(s[i]);
      if pos == |CHARS| { return None; }
      n := n * 64 + pos;
      i := i + 1;
    }
    assert s[..i] == Prefix(s);
    SmallNumber(s);
    var p := DeHashInto(n, buf);
    h := if Prefix(s) == buf[p..MAX_SEXP_TAGLEN] then Some(n) else None;
    SmallDeHash(n);
  }

  lemma SmallNumber(s: string)
    requires InAlphabet(Prefix(s))
    ensures Number(Prefix(s)) < 0x1000_0000_0000_0000
  {
    hide Digit;
    NumberBelow(Prefix(s));
    PowerGrows(|Prefix(s)|, 10);
    TenDigits();
  }

  lemma SmallDeHash(n: nat)
    requires n < 0x1000_0000_0000_0000
    ensures Prefix(DeHash(n)) == DeHash(n)
  {
    TenDigits();
    DeHashLength(n, 10);
  }
}
