/** The Python `str` operations the receiver relies on (`strip`, `split`,
    `upper`), over strings as sequences of characters; `startswith` is the
    sequence prefix operator `<=`. */
module Text {

  /** Python's `str.isspace()`: the characters `strip()` removes when it is
      called without arguments. */
  predicate IsSpace(c: char)
  {
    || c == ' '
    || ('\t' <= c <= '\r')
    || ('\U{1c}' <= c <= '\U{1f}')
    || c == '\U{85}' || c == '\U{a0}' || c == '\U{1680}'
    || ('\U{2000}' <= c <= '\U{200a}')
    || c == '\U{2028}' || c == '\U{2029}' || c == '\U{202f}'
    || c == '\U{205f}' || c == '\U{3000}'
  }

  predicate AllSpace(s: string)
  {
    forall i :: 0 <= i < |s| ==> IsSpace(s[i])
  }

  /** True of a string that neither starts nor ends with whitespace. */
  predicate Trimmed(s: string)
  {
    s == [] || (!IsSpace(s[0]) && !IsSpace(s[|s| - 1]))
  }

  /** `s.lstrip()`: the suffix left after the leading whitespace. */
  function TrimLeft(s: string): (r: string)
    ensures |r| <= |s| && r == s[|s| - |r|..]
    ensures AllSpace(s[..|s| - |r|])
    ensures r == [] || !IsSpace(r[0])
  {
    if |s| > 0 && IsSpace(s[0]) then
      var r := TrimLeft(s[1..]);
      assert s[..|s| - |r|] == [s[0]] + s[1..][..|s| - 1 - |r|];
      r
    else
      s
  }

  /** `s.rstrip()`: the prefix left before the trailing whitespace. */
  function TrimRight(s: string): (r: string)
    ensures |r| <= |s| && r == s[..|r|]
    ensures AllSpace(s[|r|..])
    ensures r == [] || !IsSpace(r[|r| - 1])
  {
    if |s| > 0 && IsSpace(s[|s| - 1]) then
      var r := TrimRight(s[..|s| - 1]);
      assert s[|r|..] == s[..|s| - 1][|r|..] + [s[|s| - 1]];
      r
    else
      s
  }

  /** `s.strip()`: `s` without its leading and trailing whitespace. */
  function Strip(s: string): (r: string)
    ensures Trimmed(r)
    ensures |r| <= |s|
    ensures r == [] <==> AllSpace(s)
  {
    var l := TrimLeft(s);
    assert l == [] ==> s == s[..|s|];
    TrimRight(l)
  }

  lemma {:induction false} TrimLeftSpaces(a: string, x: string)
    requires AllSpace(a)
    requires x == [] || !IsSpace(x[0])
    ensures TrimLeft(a + x) == x
  {
    if a != [] {
      assert (a + x)[1..] == a[1..] + x;
      TrimLeftSpaces(a[1..], x);
    }
  }

  lemma {:induction false} TrimRightSpaces(x: string, b: string)
    requires AllSpace(b)
    requires x == [] || !IsSpace(x[|x| - 1])
    ensures TrimRight(x + b) == x
  {
    if b != [] {
      assert (x + b)[..|x + b| - 1] == x + b[..|b| - 1];
      TrimRightSpaces(x, b[..|b| - 1]);
    }
  }

  /** The whitespace `strip()` removes is exactly the run at each end:
      whatever whitespace surrounds a trimmed string, stripping gives back
      that string. */
  lemma StripFrame(a: string, m: string, b: string)
    requires AllSpace(a) && AllSpace(b) && Trimmed(m)
    ensures Strip(a + m + b) == m
  {
    if m == [] {
      assert a + m + b == (a + b) + [];
      assert AllSpace(a + b);
      TrimLeftSpaces(a + b, []);
    } else {
      assert a + m + b == a + (m + b);
      TrimLeftSpaces(a, m + b);
      TrimRightSpaces(m, b);
    }
  }

  lemma TrimLeftSplits(s: string) returns (a: string)
    ensures AllSpace(a) && s == a + TrimLeft(s)
  {
    var k := |s| - |TrimLeft(s)|;
    a := s[..k];
    assert s == s[..k] + s[k..];
  }

  lemma TrimRightSplits(s: string) returns (b: string)
    ensures AllSpace(b) && s == TrimRight(s) + b
  {
    var k := |TrimRight(s)|;
    b := s[k..];
    assert s == s[..k] + s[k..];
  }

  /** Every string is its stripped text with whitespace on either side. */
  lemma StripSplits(s: string) returns (a: string, b: string)
    ensures AllSpace(a) && AllSpace(b)
    ensures s == a + Strip(s) + b
  {
    var l := TrimLeft(s);
    a := TrimLeftSplits(s);
    b := TrimRightSplits(l);
    Associative(a, TrimRight(l), b);
  }

  /** Stripping adds no character. */
  lemma StripOmits(s: string, c: char)
    requires c !in s
    ensures c !in Strip(s)
  {
    var a, b := StripSplits(s);
  }

  lemma Associative<T>(a: seq<T>, m: seq<T>, b: seq<T>)
    ensures a + (m + b) == a + m + b
  {
  }

  lemma Regroup(w: string, key: string, a: string, m: string, b: string)
    ensures w + key + (a + m + b) == w + (key + a + m) + b
  {
  }

  lemma TrimmedJoin(key: string, a: string, m: string)
    requires key != [] && Trimmed(key) && m != [] && Trimmed(m)
    ensures Trimmed(key + a + m)
  {
    var core := key + a + m;
    assert core[0] == key[0];
    assert core[|core| - 1] == m[|m| - 1];
  }

  lemma StripKeyedValue(w: string, key: string, a: string, m: string, b: string)
    requires AllSpace(w) && AllSpace(a) && AllSpace(b)
    requires key != [] && Trimmed(key) && m != [] && Trimmed(m)
    ensures Strip(w + key + (a + m + b)) == key + a + m
  {
    TrimmedJoin(key, a, m);
    Regroup(w, key, a, m, b);
    StripFrame(w, key + a + m, b);
  }

  lemma StripKeyedBlank(w: string, key: string, v: string)
    requires AllSpace(w) && AllSpace(v) && Trimmed(key)
    ensures Strip(w + key + v) == key + [] + []
  {
    StripFrame(w, key, v);
    assert key + [] + [] == key;
  }

  /** Stripping a trimmed key followed by a value keeps the key and whatever
      whitespace separates it from the value. */
  lemma StripKeyed(w: string, key: string, v: string) returns (a: string)
    requires AllSpace(w) && key != [] && Trimmed(key)
    ensures AllSpace(a) && Strip(w + key + v) == key + a + Strip(v)
  {
    var a0, b := StripSplits(v);
    var m := Strip(v);
    if m == [] {
      a := [];
      StripKeyedBlank(w, key, v);
    } else {
      a := a0;
      StripKeyedValue(w, key, a, m, b);
    }
  }

  /** A string without surrounding whitespace is left alone by `strip()`. */
  lemma StripTrimmed(s: string)
    requires Trimmed(s)
    ensures Strip(s) == s
  {
    StripFrame([], s, []);
    assert [] + s + [] == s;
  }

  lemma StripIdempotent(s: string)
    ensures Strip(Strip(s)) == Strip(s)
  {
    StripTrimmed(Strip(s));
  }

  /** `s.count(c)` */
  function Count(s: string, c: char): nat
  {
    if s == [] then 0 else (if s[0] == c then 1 else 0) + Count(s[1..], c)
  }

  /** `sep.join(parts)` */
  function Join(parts: seq<string>, sep: char): string
    requires |parts| > 0
  {
    if |parts| == 1 then parts[0] else parts[0] + [sep] + Join(parts[1..], sep)
  }

  /** `s.split(sep)`: the pieces of `s` between the occurrences of `sep`,
      in order, one more piece than there are separators. */
  function Split(s: string, sep: char): (r: seq<string>)
    ensures |r| == Count(s, sep) + 1
    ensures forall i :: 0 <= i < |r| ==> sep !in r[i]
    ensures Join(r, sep) == s
  {
    if s == [] then [[]]
    else
      var rest := Split(s[1..], sep);
      if s[0] == sep then
        [[]] + rest
      else
        var r := [[s[0]] + rest[0]] + rest[1..];
        assert |rest| > 1 ==> Join(rest, sep) == rest[0] + [sep] + Join(rest[1..], sep);
        assert r[1..] == rest[1..];
        assert s == [s[0]] + s[1..];
        r
  }

  lemma {:induction false} SplitPrefix(p: string, t: string, sep: char)
    requires sep !in p
    ensures Split(p + t, sep) == [p + Split(t, sep)[0]] + Split(t, sep)[1..]
  {
    var st := Split(t, sep);
    if p == [] {
      assert p + t == t;
      assert p + st[0] == st[0];
      assert st == [st[0]] + st[1..];
    } else {
      var s := p + t;
      assert s[0] == p[0] && s[0] != sep;
      assert s[1..] == p[1..] + t;
      SplitPrefix(p[1..], t, sep);
      var rest := Split(s[1..], sep);
      assert rest == [p[1..] + st[0]] + st[1..];
      assert Split(s, sep) == [[s[0]] + rest[0]] + rest[1..];
      assert [s[0]] + rest[0] == p + st[0];
      assert rest[1..] == st[1..];
    }
  }

  /** `split` undoes `join` when no piece contains the separator. */
  lemma {:induction false} SplitJoin(parts: seq<string>, sep: char)
    requires |parts| > 0
    requires forall i :: 0 <= i < |parts| ==> sep !in parts[i]
    ensures Split(Join(parts, sep), sep) == parts
  {
    if |parts| == 1 {
      SplitPrefix(parts[0], [], sep);
      assert parts[0] + [] == parts[0];
      assert Split([], sep) == [[]];
    } else {
      var t := Join(parts[1..], sep);
      SplitJoin(parts[1..], sep);
      var u := [sep] + t;
      assert u[0] == sep && u[1..] == t;
      assert Split(u, sep) == [[]] + Split(t, sep);
      assert Join(parts, sep) == parts[0] + u;
      SplitPrefix(parts[0], u, sep);
      assert parts[0] + [] == parts[0];
      assert parts == [parts[0]] + parts[1..];
    }
  }

  /** Splitting three comma-free pieces joined by one separator each gives the
      pieces back. */
  lemma SplitThree(a: string, b: string, c: string, sep: char)
    requires sep !in a && sep !in b && sep !in c
    ensures Split(a + [sep] + b + [sep] + c, sep) == [a, b, c]
  {
    var parts := [a, b, c];
    assert parts[1..] == [b, c] && parts[1..][1..] == [c];
    assert Join([c], sep) == c;
    assert Join([b, c], sep) == b + [sep] + c;
    assert Join(parts, sep) == a + [sep] + (b + [sep] + c);
    assert a + [sep] + (b + [sep] + c) == a + [sep] + b + [sep] + c;
    SplitJoin(parts, sep);
  }

  predicate IsLower(c: char)
  {
    'a' <= c <= 'z'
  }

  /** `c.upper()` restricted to ASCII letters: a lower-case letter becomes
      its capital, every other character is kept. */
  function UpperChar(c: char): (u: char)
    ensures IsLower(c) ==> 'A' <= u <= 'Z' && u as int + 32 == c as int
    ensures !IsLower(c) ==> u == c
    ensures !IsLower(u)
  {
    if IsLower(c) then (c as int - 32) as char else c
  }

  /** `s.upper()` restricted to ASCII letters: same length, each character
      upper-cased in place, so no lower-case letter is left and every other
      character is kept. */
  function Upper(s: string): (u: string)
    ensures |u| == |s|
    ensures forall i :: 0 <= i < |s| ==> u[i] == UpperChar(s[i])
    ensures forall i :: 0 <= i < |u| ==> !IsLower(u[i])
    ensures forall i :: 0 <= i < |s| && !IsLower(s[i]) ==> u[i] == s[i]
  {
    seq(|s|, i requires 0 <= i < |s| => UpperChar(s[i]))
  }
}
