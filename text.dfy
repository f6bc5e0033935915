/** The Python string builtins the core relies on: `str.strip()`, `str.startswith`,
    `str.split(sep)`, `sep.join(parts)` and `str.split(':', 1)[1]`. */
module Text {
  import opened Wrappers

  /** The characters for which Python's `str.isspace()` holds; `strip()` removes exactly these. */
  const Whitespace: set<char> := {
    ' ', '\t', '\n', '\r', '\U{0B}', '\U{0C}', '\U{1C}', '\U{1D}', '\U{1E}', '\U{1F}',
    '\U{85}', '\U{A0}', '\U{1680}', '\U{2000}', '\U{2001}', '\U{2002}', '\U{2003}',
    '\U{2004}', '\U{2005}', '\U{2006}', '\U{2007}', '\U{2008}', '\U{2009}', '\U{200A}',
    '\U{2028}', '\U{2029}', '\U{202F}', '\U{205F}', '\U{3000}'
  }

  predicate IsSpace(c: char) {
    c in Whitespace
  }

  predicate AllSpace(s: string) {
    forall i | 0 <= i < |s| :: IsSpace(s[i])
  }

  /** Neither end of `s` is whitespace: what `strip()` leaves behind. */
  predicate Stripped(s: string) {
    s == [] || (!IsSpace(s[0]) && !IsSpace(s[|s| - 1]))
  }

  /** `s.strip()`: drops whitespace from both ends. */
  function Trim(s: string): (r: string)
    ensures |r| <= |s|
    decreases |s|
  {
    if |s| > 0 && IsSpace(s[0]) then Trim(s[1..])
    else if |s| > 0 && IsSpace(s[|s| - 1]) then Trim(s[..|s| - 1])
    else s
  }

  /** What `strip()` leaves is `s` without a run of whitespace at each end, and it
      begins and ends with a non-whitespace character (or is empty). */
  lemma {:induction false} TrimSpec(s: string)
    ensures Stripped(Trim(s))
    ensures exists a, b | AllSpace(a) && AllSpace(b) :: s == a + Trim(s) + b
    decreases |s|
  {
    var r := Trim(s);
    if |s| > 0 && IsSpace(s[0]) {
      TrimSpec(s[1..]);
      var a, b :| AllSpace(a) && AllSpace(b) && s[1..] == a + r + b;
      AllSpaceConcat([s[0]], a);
      assert s == ([s[0]] + a) + r + b;
    } else if |s| > 0 && IsSpace(s[|s| - 1]) {
      TrimSpec(s[..|s| - 1]);
      var a, b :| AllSpace(a) && AllSpace(b) && s[..|s| - 1] == a + r + b;
      AllSpaceConcat(b, [s[|s| - 1]]);
      assert s == a + r + (b + [s[|s| - 1]]);
    } else {
      var e: string := [];
      assert AllSpace(e);
      assert s == e + r + e;
    }
  }

  lemma AllSpaceConcat(x: string, y: string)
    requires AllSpace(x) && AllSpace(y)
    ensures AllSpace(x + y)
  {
    assert forall i | |x| <= i < |x + y| :: (x + y)[i] == y[i - |x|];
  }

  /** Any framing of `m` by whitespace, with `m` stripped, is undone by `Trim`:
      `strip()` is determined by the properties of `TrimSpec`. */
  lemma {:induction false} TrimFramed(a: string, m: string, b: string)
    requires AllSpace(a) && AllSpace(b) && Stripped(m)
    ensures Trim(a + m + b) == m
    decreases |a| + |b|
  {
    var s := a + m + b;
    if a != [] {
      assert s[0] == a[0];
      assert s[1..] == a[1..] + m + b;
      TrimFramed(a[1..], m, b);
    } else if b != [] {
      assert s == m + b;
      assert s[|s| - 1] == b[|b| - 1];
      if m != [] {
        assert s[0] == m[0];
      } else {
        assert s[0] == b[0];
        assert s[1..] == a + m + b[1..];
        TrimFramed(a, m, b[1..]);
        return;
      }
      assert s[..|s| - 1] == a + m + b[..|b| - 1];
      TrimFramed(a, m, b[..|b| - 1]);
    } else {
      assert s == m;
    }
  }

  /** Stripping twice is stripping once. */
  lemma TrimIdempotent(s: string)
    ensures Trim(Trim(s)) == Trim(s)
  {
    var r := Trim(s);
    TrimSpec(s);
    TrimFramed([], r, []);
    assert [] + r + [] == r;
  }

  /** The decimal digits of `n`; the prompt's requested count is a field written this
      way, which generalises the literal 3 of the template. */
  function NatToString(n: nat): string
    decreases n
  {
    var d := "0123456789"[n % 10];
    if n < 10 then [d] else NatToString(n / 10) + [d]
  }

  /** `s.startswith(p)`: case-sensitive, and leading whitespace in `s` counts. */
  predicate StartsWith(s: string, p: string)
    ensures StartsWith(s, p) <==> p <= s
  {
    |p| <= |s| && s[..|p|] == p
  }

  /** `s.endswith(q)`. */
  predicate EndsWith(s: string, q: string) {
    |q| <= |s| && s[|s| - |q|..] == q
  }

  lemma StartsWithConcat(a: string, b: string)
    ensures StartsWith(a + b, a)
  {
    assert (a + b)[..|a|] == a;
  }

  lemma EndsWithConcat(a: string, b: string)
    ensures EndsWith(a + b, b)
  {
    assert (a + b)[|a + b| - |b|..] == b;
  }

  lemma EndsWithTransitive(s: string, t: string, u: string)
    requires EndsWith(s, t) && EndsWith(t, u)
    ensures EndsWith(s, u)
  {
    assert s[|s| - |u|..] == s[|s| - |t|..][|t| - |u|..];
  }

  /** The position of the first `c` in `s` (`s.find(c)`), or `None` if there is none. */
  function FirstIndexOf(s: string, c: char): (r: Option<nat>)
    ensures r.None? <==> c !in s
    ensures r.Some? ==> r.value < |s| && s[r.value] == c
  {
    if |s| == 0 then None
    else if s[0] == c then Some(0)
    else
      match FirstIndexOf(s[1..], c)
      case None => None
      case Some(i) => Some(i + 1)
  }

  /** `FirstIndexOf` finds the first occurrence: none comes before it. */
  lemma {:induction false} FirstIndexIsFirst(s: string, c: char)
    requires FirstIndexOf(s, c).Some?
    ensures c !in s[..FirstIndexOf(s, c).value]
  {
    if s[0] != c {
      FirstIndexIsFirst(s[1..], c);
      assert s[..FirstIndexOf(s, c).value] == [s[0]] + s[1..][..FirstIndexOf(s[1..], c).value];
    }
  }

  /** `s.split(sep)` for a one-character separator: never empty, no piece holds `sep`,
      and joining the pieces back with `sep` gives `s`. */
  function Split(s: string, sep: char): (r: seq<string>)
    ensures |r| >= 1
    ensures forall i | 0 <= i < |r| :: sep !in r[i]
    ensures Join(r, sep) == s
    decreases |s|
  {
    match FirstIndexOf(s, sep)
    case None => [s]
    case Some(i) =>
      FirstIndexIsFirst(s, sep);
      var rest := Split(s[i + 1..], sep);
      assert s == s[..i] + [sep] + s[i + 1..];
      [s[..i]] + rest
  }

  /** `sep.join(parts)`: it begins with the first part, and the separator shows up
      as soon as there are two parts. */
  function Join(parts: seq<string>, sep: char): (r: string)
    ensures parts != [] ==> parts[0] <= r
    ensures |parts| >= 2 ==> sep in r
  {
    if |parts| == 0 then []
    else if |parts| == 1 then parts[0]
    else parts[0] + [sep] + Join(parts[1..], sep)
  }

  /** Splitting a join gives the pieces back, provided no piece holds the separator. */
  lemma {:induction false} SplitJoin(parts: seq<string>, sep: char)
    requires |parts| >= 1
    requires forall i | 0 <= i < |parts| :: sep !in parts[i]
    ensures Split(Join(parts, sep), sep) == parts
  {
    if |parts| == 1 {
      assert FirstIndexOf(parts[0], sep).None?;
    } else {
      var s := Join(parts, sep);
      var p := parts[0];
      assert s == p + [sep] + Join(parts[1..], sep);
      assert s[..|p|] == p;
      FirstIndexIsAfter(p, sep, Join(parts[1..], sep));
      assert s[|p| + 1..] == Join(parts[1..], sep);
      SplitJoin(parts[1..], sep);
    }
  }

  lemma FirstIndexIsAfter(p: string, c: char, t: string)
    requires c !in p
    ensures FirstIndexOf(p + [c] + t, c) == Some(|p|)
  {
    var s := p + [c] + t;
    assert s[..|p|] == p;
    assert s[|p|] == c;
    FirstIndexIsFirst(s, c);
  }

  /** `line.split(':', 1)[1]`: everything after the first colon, or `None` where
      Python raises `IndexError` because the line holds no colon. */
  function AfterFirstColon(line: string): (r: Option<string>)
    ensures r.None? <==> ':' !in line
  {
    match FirstIndexOf(line, ':')
    case None => None
    case Some(i) => Some(line[i + 1..])
  }

  /** The value is exactly what follows the first colon. */
  lemma AfterFirstColonSpec(line: string)
    requires ':' in line
    ensures exists i | 0 <= i < |line| ::
      line[i] == ':' && ':' !in line[..i] && AfterFirstColon(line).value == line[i + 1..]
  {
    FirstIndexIsFirst(line, ':');
    var i := FirstIndexOf(line, ':').value;
    assert line[i] == ':' && ':' !in line[..i] && AfterFirstColon(line).value == line[i + 1..];
  }

  /** A value after the first colon keeps every later colon. */
  lemma {:induction false} AfterFirstColonKeepsLaterColons(head: string, value: string)
    requires ':' !in head
    ensures AfterFirstColon(head + ":" + value) == Some(value)
  {
    FirstIndexIsAfter(head, ':', value);
    assert head + ":" + value == head + [':'] + value;
    assert (head + [':'] + value)[|head| + 1..] == value;
  }
}
