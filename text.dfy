/**
 * The few Python string operations the bookstore relies on, over `seq<char>`:
 * `str.isspace`/`str.strip`, `str.upper`/`str.lower`, `str.startswith`,
 * `str.split` on one separator character, substring search and `str(int)`.
 */
module Text {

  /** Python's `str.isspace()` on one character: what `str.strip()` removes. */
  predicate IsSpace(c: char) {
    || c == ' '
    || '\t' <= c <= '\r'
    || '\U{1C}' <= c <= '\U{1F}'
    || c == '\U{85}' || c == '\U{A0}' || c == '\U{1680}'
    || '\U{2000}' <= c <= '\U{200A}'
    || c == '\U{2028}' || c == '\U{2029}' || c == '\U{202F}'
    || c == '\U{205F}' || c == '\U{3000}'
  }

  predicate AllSpace(s: string) {
    forall i :: 0 <= i < |s| ==> IsSpace(s[i])
  }

  /** `q` occurs in `s` as a contiguous piece. */
  predicate IsInfix(q: string, s: string) {
    exists i | 0 <= i <= |s| - |q| :: OccursAt(q, s, i)
  }

  predicate OccursAt(q: string, s: string, i: nat)
    requires i + |q| <= |s|
  {
    s[i..i + |q|] == q
  }

  /** A whitespace character in front of a blank string gives a blank string. */
  lemma AllSpacePrepend(c: char, t: string)
    requires IsSpace(c) && AllSpace(t)
    ensures AllSpace([c] + t)
  {
    forall i | 0 <= i < |t| + 1 ensures IsSpace(([c] + t)[i]) {
      if i > 0 {
        assert ([c] + t)[i] == t[i - 1];
      }
    }
  }

  /** A blank string followed by a whitespace character is a blank string. */
  lemma AllSpaceAppend(t: string, c: char)
    requires AllSpace(t) && IsSpace(c)
    ensures AllSpace(t + [c])
  {
    forall i | 0 <= i < |t| + 1 ensures IsSpace((t + [c])[i]) {
      if i < |t| {
        assert (t + [c])[i] == t[i];
      }
    }
  }

  /** Python's `s.lstrip()`: `s` without its leading whitespace. */
  function TrimLeft(s: string): (r: string)
    ensures |r| <= |s| && r == s[|s| - |r|..] && AllSpace(s[..|s| - |r|])
    ensures r != [] ==> !IsSpace(r[0])
  {
    if |s| > 0 && IsSpace(s[0]) then
      var r := TrimLeft(s[1..]);
      TrimLeftStep(s, r);
      r
    else
      assert s[..0] == [];
      s
  }

  /** One more leading blank in front of what `TrimLeft(s[1..])` removed. */
  lemma TrimLeftStep(s: string, r: string)
    requires |s| > 0 && IsSpace(s[0])
    requires |r| <= |s| - 1 && r == s[1..][|s| - 1 - |r|..] && AllSpace(s[1..][..|s| - 1 - |r|])
    ensures r == s[|s| - |r|..] && AllSpace(s[..|s| - |r|])
  {
    var n := |s| - |r|;
    assert s[..n] == [s[0]] + s[1..][..n - 1];
    AllSpacePrepend(s[0], s[1..][..n - 1]);
  }

  /** Python's `s.rstrip()`: `s` without its trailing whitespace. */
  function TrimRight(s: string): (r: string)
    ensures |r| <= |s| && r == s[..|r|] && AllSpace(s[|r|..])
    ensures r != [] ==> !IsSpace(r[|r| - 1])
  {
    if |s| > 0 && IsSpace(s[|s| - 1]) then
      var r := TrimRight(s[..|s| - 1]);
      assert s[|r|..] == s[..|s| - 1][|r|..] + [s[|s| - 1]];
      AllSpaceAppend(s[..|s| - 1][|r|..], s[|s| - 1]);
      assert s[..|s| - 1][..|r|] == s[..|r|];
      r
    else
      assert s[|s|..] == [];
      s
  }

  /**
   * Python's `s.strip()`: `s` with its leading and trailing whitespace
   * removed; it neither starts nor ends with whitespace.
   */
  function Strip(s: string): (r: string)
    ensures r != [] ==> !IsSpace(r[0]) && !IsSpace(r[|r| - 1])
  {
    var t := TrimLeft(s);
    var r := TrimRight(t);
    if r == [] then r
    else
      assert r[0] == t[0];
      r
  }

  /** What `Strip` removes is whitespace around a contiguous piece of `s`. */
  lemma StripIsInfix(s: string) returns (i: nat)
    ensures i + |Strip(s)| <= |s| && s[i..i + |Strip(s)|] == Strip(s)
    ensures AllSpace(s[..i]) && AllSpace(s[i + |Strip(s)|..])
  {
    i := |s| - |TrimLeft(s)|;
    TrimmedAround(s, i, TrimLeft(s), Strip(s));
  }

  /** The two trims of `Strip` meet: `r` sits at `i` in `s` with blanks on both sides. */
  lemma TrimmedAround(s: string, i: nat, t: string, r: string)
    requires i <= |s| && t == s[i..] && AllSpace(s[..i])
    requires |r| <= |t| && r == t[..|r|] && AllSpace(t[|r|..])
    ensures i + |r| <= |s| && s[i..i + |r|] == r
    ensures AllSpace(s[..i]) && AllSpace(s[i + |r|..])
  {
    PrefixOfSuffix(s, i, r);
  }

  /** `Strip` gives the empty string exactly for a blank string. */
  lemma StripBlank(s: string)
    ensures Strip(s) == [] <==> AllSpace(s)
  {
    var r := Strip(s);
    var i := StripIsInfix(s);
    if r == [] {
      assert s == s[..i] + s[i..];
      AllSpaceConcat(s[..i], s[i..]);
    } else {
      assert s[i] == r[0];
    }
  }

  lemma AllSpaceConcat(a: string, b: string)
    requires AllSpace(a) && AllSpace(b)
    ensures AllSpace(a + b)
  {
    forall i | 0 <= i < |a| + |b| ensures IsSpace((a + b)[i]) {
      if i < |a| {
        assert (a + b)[i] == a[i];
      } else {
        assert (a + b)[i] == b[i - |a|];
      }
    }
  }

  /** A prefix `r` of the suffix `s[i..]` sits at `i` in `s`, and what follows it is the rest of that suffix. */
  lemma PrefixOfSuffix(s: string, i: nat, r: string)
    requires i <= |s| && |r| <= |s| - i && r == s[i..][..|r|]
    ensures s[i..i + |r|] == r && s[i + |r|..] == s[i..][|r|..]
  {
  }

  /** Python's `c.upper()` for the characters whose upper case is an ASCII letter. */
  function UpperChar(c: char): char {
    if 'a' <= c <= 'z' then (c as int - 32) as char
    else if c == '\U{131}' then 'I'   // dotless i
    else if c == '\U{17F}' then 'S'   // long s
    else c
  }

  /** Python's `c.lower()` for the characters whose lower case is an ASCII letter. */
  function LowerChar(c: char): char {
    if 'A' <= c <= 'Z' then (c as int + 32) as char
    else if c == '\U{212A}' then 'k'  // Kelvin sign
    else c
  }

  /**
   * Python's `s.upper()`, character by character: no lower-case ASCII letter
   * is left, each one becomes its capital, and every character other than
   * those and the dotless i and long s (which become I and S) stays.
   */
  function Upper(s: string): (r: string)
    ensures |r| == |s|
    ensures forall i :: 0 <= i < |r| ==> !('a' <= r[i] <= 'z')
    ensures forall i :: 0 <= i < |s| && 'a' <= s[i] <= 'z' ==> r[i] as int == s[i] as int - 32
    ensures forall i :: 0 <= i < |s| && !('a' <= s[i] <= 'z') && s[i] != '\U{131}' && s[i] != '\U{17F}' ==>
              r[i] == s[i]
  {
    seq(|s|, i requires 0 <= i < |s| => UpperChar(s[i]))
  }

  /** Upper-casing twice is upper-casing once. */
  lemma UpperIdempotent(s: string)
    ensures Upper(Upper(s)) == Upper(s)
  {
    var u := Upper(s);
    forall i | 0 <= i < |u| ensures UpperChar(u[i]) == u[i] {
      assert u[i] == UpperChar(s[i]);
    }
  }

  /**
   * Python's `s.lower()`, character by character: no upper-case ASCII letter
   * is left, each one becomes its small letter, and every character other
   * than those and the Kelvin sign (which becomes k) stays.
   */
  function Lower(s: string): (r: string)
    ensures |r| == |s|
    ensures forall i :: 0 <= i < |r| ==> !('A' <= r[i] <= 'Z')
    ensures forall i :: 0 <= i < |s| && 'A' <= s[i] <= 'Z' ==> r[i] as int == s[i] as int + 32
    ensures forall i :: 0 <= i < |s| && !('A' <= s[i] <= 'Z') && s[i] != '\U{212A}' ==> r[i] == s[i]
  {
    seq(|s|, i requires 0 <= i < |s| => LowerChar(s[i]))
  }

  /** Lower-casing twice is lower-casing once. */
  lemma LowerIdempotent(s: string)
    ensures Lower(Lower(s)) == Lower(s)
  {
    var l := Lower(s);
    forall i | 0 <= i < |l| ensures LowerChar(l[i]) == l[i] {
      assert l[i] == LowerChar(s[i]);
    }
  }

  /** Python's `s.startswith(p)`. */
  predicate StartsWith(s: string, p: string) {
    |p| <= |s| && s[..|p|] == p
  }

  /** Python's `s.upper().startswith(p)`, one character at a time. */
  predicate UpperStartsWith(s: string, p: string) {
    p == [] || (s != [] && UpperChar(s[0]) == p[0] && UpperStartsWith(s[1..], p[1..]))
  }

  /** Comparing character by character is comparing the upper-cased string's prefix. */
  lemma {:induction false} UpperStartsWithUpper(s: string, p: string)
    ensures UpperStartsWith(s, p) <==> StartsWith(Upper(s), p)
    decreases |p|
  {
    if p != [] && s != [] {
      UpperStartsWithUpper(s[1..], p[1..]);
      assert Upper(s[1..]) == Upper(s)[1..];
      assert Upper(s)[0] == UpperChar(s[0]);
      StartsWithFirst(Upper(s), p);
    }
  }

  /** A non-empty prefix test is a test of the first character and then of the rest. */
  lemma StartsWithFirst(u: string, p: string)
    requires u != [] && p != []
    ensures StartsWith(u, p) <==> u[0] == p[0] && StartsWith(u[1..], p[1..])
  {
    if StartsWith(u, p) {
      assert u[1..][..|p| - 1] == u[..|p|][1..];
    }
    if u[0] == p[0] && StartsWith(u[1..], p[1..]) {
      assert u[..|p|] == [u[0]] + u[1..][..|p| - 1];
      assert p == [p[0]] + p[1..];
    }
  }

  /** The pieces joined back together with `d` between neighbours. */
  function Join(pieces: seq<string>, d: char): string
    requires |pieces| >= 1
  {
    if |pieces| == 1 then pieces[0] else pieces[0] + [d] + Join(pieces[1..], d)
  }

  /**
   * Python's `s.split(d)` for a one-character separator: the maximal
   * `d`-free pieces between separators, one more than there are separators
   * (so `""` splits into `[""]`).
   */
  function Split(s: string, d: char): (pieces: seq<string>)
    ensures |pieces| >= 1
    ensures forall p :: p in pieces ==> d !in p
    decreases |s|
  {
    if |s| == 0 then [""]
    else
      var rest := Split(s[1..], d);
      if s[0] == d then
        assert [""] + rest == [""] + rest;
        [""] + rest
      else
        var pieces := [[s[0]] + rest[0]] + rest[1..];
        assert pieces[1..] == rest[1..];
        assert forall p :: p in pieces ==> p == pieces[0] || p in rest;
        pieces
  }

  /** Joining the pieces back with the separator gives the original string. */
  lemma {:induction false} JoinSplit(s: string, d: char)
    ensures Join(Split(s, d), d) == s
    decreases |s|
  {
    if |s| > 0 {
      JoinSplit(s[1..], d);
      var rest := Split(s[1..], d);
      if s[0] == d {
        assert Split(s, d) == [""] + rest;
        assert ([""] + rest)[1..] == rest;
      } else {
        var pieces := [[s[0]] + rest[0]] + rest[1..];
        assert Split(s, d) == pieces;
        if |rest| > 1 {
          assert pieces[1..] == rest[1..];
          assert Join(rest, d) == rest[0] + [d] + Join(rest[1..], d);
        }
        assert s == [s[0]] + s[1..];
      }
    }
  }

  /** Splitting a join of separator-free pieces gives those pieces back. */
  lemma {:induction false} SplitJoin(pieces: seq<string>, d: char)
    requires |pieces| >= 1
    requires forall p :: p in pieces ==> d !in p
    ensures Split(Join(pieces, d), d) == pieces
    decreases |pieces|, |pieces[0]|
  {
    if |pieces| == 1 {
      SplitNoSeparator(pieces[0], d);
    } else if pieces[0] == [] {
      var s := Join(pieces, d);
      assert s == [d] + Join(pieces[1..], d);
      assert s[1..] == Join(pieces[1..], d);
      SplitJoin(pieces[1..], d);
    } else {
      var p := pieces[0];
      assert p[0] in p;
      var shorter := [p[1..]] + pieces[1..];
      assert shorter[1..] == pieces[1..];
      assert forall c :: c in p[1..] ==> c in p;
      assert forall q :: q in shorter ==> q == p[1..] || q in pieces;
      SplitJoin(shorter, d);
      JoinFirstCharacter(pieces, d);
      var s := Join(pieces, d);
      assert s[0] == p[0] != d && s[1..] == Join(shorter, d);
      assert Split(s, d) == [[p[0]] + shorter[0]] + shorter[1..];
      assert [p[0]] + p[1..] == p;
      assert [p] + pieces[1..] == pieces;
    }
  }

  /** The first character of a join whose first piece is non-empty is that piece's first. */
  lemma JoinFirstCharacter(pieces: seq<string>, d: char)
    requires |pieces| >= 2 && pieces[0] != []
    ensures Join(pieces, d) == [pieces[0][0]] + Join([pieces[0][1..]] + pieces[1..], d)
  {
    var p := pieces[0];
    var shorter := [p[1..]] + pieces[1..];
    assert shorter[1..] == pieces[1..];
    assert p == [p[0]] + p[1..];
  }

  lemma {:induction false} SplitNoSeparator(s: string, d: char)
    requires d !in s
    ensures Split(s, d) == [s]
    decreases |s|
  {
    if |s| > 0 {
      assert s[0] != d;
      SplitNoSeparator(s[1..], d);
      assert [s[0]] + s[1..] == s;
    }
  }

  /** Splitting at a separator splits the two sides independently. */
  lemma {:induction false} SplitAppend(a: string, b: string, d: char)
    ensures Split(a + [d] + b, d) == Split(a, d) + Split(b, d)
    decreases |a|
  {
    if |a| == 0 {
      assert a + [d] + b == [d] + b;
      assert ([d] + b)[1..] == b;
    } else {
      assert (a + [d] + b)[1..] == a[1..] + [d] + b;
      SplitAppend(a[1..], b, d);
    }
  }

  function DigitChar(n: nat): char
    requires n < 10
  {
    ('0' as int + n) as char
  }

  predicate IsDigit(c: char) {
    '0' <= c <= '9'
  }

  /** Python's `str(n)` for a non-negative integer: its decimal digits. */
  function Decimal(n: nat): (s: string)
    ensures |s| >= 1 && forall i :: 0 <= i < |s| ==> IsDigit(s[i])
    ensures s[0] == '0' ==> n == 0
  {
    if n < 10 then [DigitChar(n)] else Decimal(n / 10) + [DigitChar(n % 10)]
  }

  /** Python's `str(i)` for any integer. */
  function IntString(i: int): string {
    if i >= 0 then Decimal(i) else "-" + Decimal(-i)
  }

  /** The number a string of decimal digits denotes (Python's `int(s)` on digits). */
  function DecimalValue(s: string): nat
    requires forall i :: 0 <= i < |s| ==> IsDigit(s[i])
  {
    if s == [] then 0
    else
      var last := s[|s| - 1];
      assert IsDigit(last);
      10 * DecimalValue(s[..|s| - 1]) + (last as int - '0' as int)
  }

  /** `int(str(n)) == n`: the decimal rendering loses nothing. */
  lemma {:induction false} DecimalRoundTrip(n: nat)
    ensures DecimalValue(Decimal(n)) == n
  {
    if n >= 10 {
      DecimalRoundTrip(n / 10);
      var s := Decimal(n);
      assert s[..|s| - 1] == Decimal(n / 10);
    }
  }

  /** Different numbers render differently. */
  lemma DecimalInjective(m: nat, n: nat)
    requires Decimal(m) == Decimal(n)
    ensures m == n
  {
    DecimalRoundTrip(m);
    DecimalRoundTrip(n);
  }
}
