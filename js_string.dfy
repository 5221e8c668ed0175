/** The JavaScript string built-ins the site script relies on, as functions on
    `seq<char>`: `String.prototype.trim`, `String.prototype.split` with a
    one-character separator, and the comparison behind `localeCompare`
    (approximated by lexicographic order on code points). */
module JsString {

  /** The characters `trim` removes: ECMAScript WhiteSpace (tab, vertical tab,
      form feed, space, no-break space, byte order mark and every Unicode
      space separator) and LineTerminator (LF, CR, U+2028, U+2029). */
  predicate IsTrimmable(c: char) {
    c == '\t' || c == '\n' || c == '\U{B}' || c == '\U{C}' || c == '\r' || c == ' '
    || c == '\U{A0}' || c == '\U{1680}' || ('\U{2000}' <= c <= '\U{200A}')
    || c == '\U{2028}' || c == '\U{2029}' || c == '\U{202F}' || c == '\U{205F}'
    || c == '\U{3000}' || c == '\U{FEFF}'
  }

  predicate AllTrimmable(s: string) {
    forall i :: 0 <= i < |s| ==> IsTrimmable(s[i])
  }

  /** Neither end of `s` is a trimmable character. */
  predicate IsTrimmed(s: string) {
    s == [] || (!IsTrimmable(s[0]) && !IsTrimmable(s[|s| - 1]))
  }

  /** `s` is `core` at offset `k` with only trimmable characters around it. */
  predicate PaddedAt(s: string, core: string, k: int) {
    0 <= k <= k + |core| <= |s| && s[k..k + |core|] == core
    && AllTrimmable(s[..k]) && AllTrimmable(s[k + |core|..])
  }

  /** Drops the leading trimmable characters. */
  function TrimStart(s: string): (r: string)
    ensures |r| <= |s| && r == s[|s| - |r|..]
    ensures AllTrimmable(s[..|s| - |r|])
    ensures r == [] || !IsTrimmable(r[0])
  {
    if s != [] && IsTrimmable(s[0]) then TrimStart(s[1..]) else s
  }

  /** Drops the trailing trimmable characters. */
  function TrimEnd(s: string): (r: string)
    ensures |r| <= |s| && r == s[..|r|]
    ensures AllTrimmable(s[|r|..])
    ensures r == [] || !IsTrimmable(r[|r| - 1])
  {
    if s != [] && IsTrimmable(s[|s| - 1]) then TrimEnd(s[..|s| - 1]) else s
  }

  /** `s.trim()`: neither end of the result is trimmable. */
  function Trim(s: string): (r: string)
    ensures IsTrimmed(r)
  {
    TrimEnd(TrimStart(s))
  }

  /** What `trim` removes is white space around a piece of `s`. */
  lemma TrimPadded(s: string)
    ensures exists k :: PaddedAt(s, Trim(s), k)
  {
    var t := TrimStart(s);
    var r := TrimEnd(t);
    assert r == Trim(s);
    var k := |s| - |t|;
    assert s[k..k + |r|] == r;
    assert s[k + |r|..] == t[|r|..];
    assert PaddedAt(s, r, k);
  }

  lemma {:induction false} TrimStartOfPadded(lead: string, core: string, trail: string)
    requires AllTrimmable(lead) && AllTrimmable(trail)
    requires core != [] && !IsTrimmable(core[0])
    ensures TrimStart(lead + core + trail) == core + trail
  {
    if lead != [] {
      assert (lead + core + trail)[1..] == lead[1..] + core + trail;
      TrimStartOfPadded(lead[1..], core, trail);
    } else {
      assert lead + core + trail == core + trail;
    }
  }

  lemma {:induction false} TrimEndOfPadded(core: string, trail: string)
    requires AllTrimmable(trail)
    requires core != [] && !IsTrimmable(core[|core| - 1])
    ensures TrimEnd(core + trail) == core
  {
    if trail != [] {
      var s := core + trail;
      assert s[..|s| - 1] == core + trail[..|trail| - 1];
      TrimEndOfPadded(core, trail[..|trail| - 1]);
    } else {
      assert core + trail == core;
    }
  }

  lemma {:induction false} TrimStartOfBlank(s: string)
    requires AllTrimmable(s)
    ensures TrimStart(s) == []
  {
    if s != [] {
      TrimStartOfBlank(s[1..]);
    }
  }

  /** `trim` is characterised by what it keeps: whenever `s` is a trimmed core
      with only trimmable characters on either side, `Trim(s)` is that core. */
  lemma TrimUnique(lead: string, core: string, trail: string)
    requires AllTrimmable(lead) && AllTrimmable(trail) && IsTrimmed(core)
    ensures Trim(lead + core + trail) == core
  {
    if core == [] {
      assert AllTrimmable(lead + core + trail);
      TrimStartOfBlank(lead + core + trail);
    } else {
      TrimStartOfPadded(lead, core, trail);
      TrimEndOfPadded(core, trail);
    }
  }

  /** Trimming twice is trimming once. */
  lemma TrimIdempotent(s: string)
    ensures Trim(Trim(s)) == Trim(s)
  {
    var r := Trim(s);
    assert r == [] + r + [];
    TrimUnique([], r, []);
  }

  /** Inverse of `Split`: the pieces glued back together with the separator. */
  function Join(parts: seq<string>, sep: char): (s: string)
    requires |parts| >= 1
  {
    if |parts| == 1 then parts[0] else parts[0] + [sep] + Join(parts[1..], sep)
  }

  /** `s.split(sep)` for a one-character separator: at least one piece, no
      piece contains the separator, and the pieces joined by it give back `s`. */
  function Split(s: string, sep: char): (parts: seq<string>)
    ensures |parts| >= 1
    ensures forall i :: 0 <= i < |parts| ==> sep !in parts[i]
    ensures Join(parts, sep) == s
  {
    if s == [] then [""]
    else
      var rest := Split(s[1..], sep);
      if s[0] == sep then
        assert ([""] + rest)[1..] == rest;
        [""] + rest
      else
        var parts := [[s[0]] + rest[0]] + rest[1..];
        assert parts[1..] == rest[1..];
        parts
  }

  lemma {:induction false} JoinPrefix(parts: seq<string>, sep: char)
    requires |parts| >= 1
    requires forall i :: 0 <= i < |parts| ==> sep !in parts[i]
    ensures |parts[0]| <= |Join(parts, sep)|
    ensures Join(parts, sep)[..|parts[0]|] == parts[0]
    ensures |parts| == 1 <==> sep !in Join(parts, sep)
    ensures |parts| > 1 ==>
              Join(parts, sep)[|parts[0]|] == sep && Join(parts, sep)[|parts[0]| + 1..] == Join(parts[1..], sep)
  {
    if |parts| > 1 {
      var rest := Join(parts[1..], sep);
      assert Join(parts, sep) == parts[0] + [sep] + rest;
      assert Join(parts, sep)[|parts[0]|] == sep;
      assert Join(parts, sep)[|parts[0]| + 1..] == rest;
      assert sep in Join(parts, sep);
    }
  }

  /** Joining is one-to-one on separator-free pieces. */
  lemma {:induction false} JoinInjective(p: seq<string>, q: seq<string>, sep: char)
    requires |p| >= 1 && |q| >= 1
    requires forall i :: 0 <= i < |p| ==> sep !in p[i]
    requires forall i :: 0 <= i < |q| ==> sep !in q[i]
    requires Join(p, sep) == Join(q, sep)
    ensures p == q
  {
    var s := Join(p, sep);
    JoinPrefix(p, sep);
    JoinPrefix(q, sep);
    if |p| == 1 {
    } else {
      assert |p[0]| == |q[0]|;
      assert p[0] == s[..|p[0]|] == q[0];
      JoinInjective(p[1..], q[1..], sep);
      assert p == [p[0]] + p[1..];
      assert q == [q[0]] + q[1..];
    }
  }

  /** The other round trip: splitting separator-free pieces joined by the
      separator gives the pieces back. */
  lemma SplitJoin(parts: seq<string>, sep: char)
    requires |parts| >= 1
    requires forall i :: 0 <= i < |parts| ==> sep !in parts[i]
    ensures Split(Join(parts, sep), sep) == parts
  {
    JoinInjective(Split(Join(parts, sep), sep), parts, sep);
  }

  /** Lexicographic `a <= b` on code points, the order this model uses for
      `a.localeCompare(b) <= 0`. */
  predicate LexLe(a: string, b: string) {
    a == [] || (b != [] && (a[0] < b[0] || (a[0] == b[0] && LexLe(a[1..], b[1..]))))
  }

  lemma {:induction false} LexLeTotal(a: string, b: string)
    ensures LexLe(a, b) || LexLe(b, a)
  {
    if a != [] && b != [] && a[0] == b[0] {
      LexLeTotal(a[1..], b[1..]);
    }
  }

  lemma {:induction false} LexLeTransitive(a: string, b: string, c: string)
    requires LexLe(a, b) && LexLe(b, c)
    ensures LexLe(a, c)
  {
    if a != [] && b != [] && c != [] && a[0] == b[0] == c[0] {
      LexLeTransitive(a[1..], b[1..], c[1..]);
    }
  }

  lemma {:induction false} LexLeAntisymmetric(a: string, b: string)
    requires LexLe(a, b) && LexLe(b, a)
    ensures a == b
  {
    if a != [] && b != [] {
      LexLeAntisymmetric(a[1..], b[1..]);
      assert a == [a[0]] + a[1..];
      assert b == [b[0]] + b[1..];
    }
  }

  /** The empty string comes first: only the empty string is at or below it. */
  lemma LexLeEmpty(a: string)
    ensures LexLe("", a)
    ensures LexLe(a, "") <==> a == ""
  {
  }
}
