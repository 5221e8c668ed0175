/** `escapeHtml`: one pass over the text that replaces each of the five
    characters `&`, `<`, `>`, `"` and `'` by its HTML entity. The global
    regular-expression replace never rescans what it inserted, so the model
    maps each input character independently. */
module HtmlEscaper {

  predicate IsReserved(c: char) {
    c == '&' || c == '<' || c == '>' || c == '"' || c == '\''
  }

  /** The replacement for one character. */
  function EscapeChar(c: char): (r: string)
    ensures IsReserved(c) ==> |r| > 1 && r[0] == '&' && r[|r| - 1] == ';'
    ensures !IsReserved(c) ==> r == [c]
  {
    match c
    case '&' => "&amp;"
    case '<' => "&lt;"
    case '>' => "&gt;"
    case '"' => "&quot;"
    case '\'' => "&#39;"
    case _ => [c]
  }

  /** `escapeHtml(s)`: each character replaced by `EscapeChar`; the result is
      at least as long as the input. */
  function EscapeHtml(s: string): (r: string)
    ensures |r| >= |s|
  {
    if s == [] then [] else EscapeChar(s[0]) + EscapeHtml(s[1..])
  }

  /** The escaped text holds none of `<`, `>`, `"` and `'`, so it cannot open
      a tag or close an attribute value. */
  lemma {:induction false} EscapedIsSafe(s: string)
    ensures forall c :: c in EscapeHtml(s) ==> c != '<' && c != '>' && c != '"' && c != '\''
  {
    if s != [] {
      EscapedIsSafe(s[1..]);
      var head := EscapeChar(s[0]);
      assert forall c :: c in head ==> c != '<' && c != '>' && c != '"' && c != '\'';
    }
  }

  /** Decodes the five entities `EscapeHtml` produces; any other text is kept. */
  function UnescapeHtml(s: string): (r: string)
  {
    if s == [] then []
    else if |s| >= 5 && s[..5] == "&amp;" then "&" + UnescapeHtml(s[5..])
    else if |s| >= 4 && s[..4] == "&lt;" then "<" + UnescapeHtml(s[4..])
    else if |s| >= 4 && s[..4] == "&gt;" then ">" + UnescapeHtml(s[4..])
    else if |s| >= 6 && s[..6] == "&quot;" then "\"" + UnescapeHtml(s[6..])
    else if |s| >= 5 && s[..5] == "&#39;" then "'" + UnescapeHtml(s[5..])
    else [s[0]] + UnescapeHtml(s[1..])
  }

  lemma UnescapeChar(c: char, rest: string)
    ensures UnescapeHtml(EscapeChar(c) + rest) == [c] + UnescapeHtml(rest)
  {
    var e := EscapeChar(c);
    var s := e + rest;
    assert s[..|e|] == e;
    assert s[|e|..] == rest;
    if !IsReserved(c) {
      assert s[0] == c && s[1..] == rest;
      assert |s| >= 4 ==> s[..4][0] == c;
      assert |s| >= 5 ==> s[..5][0] == c;
      assert |s| >= 6 ==> s[..6][0] == c;
    } else if c == '<' || c == '>' {
      assert s[..4] == e;
      assert |s| >= 5 ==> s[..5][1] == e[1];
    } else if c == '"' {
      assert s[..6] == e;
      assert s[..5][1] == 'q' && s[..4][1] == 'q';
    } else {
      assert s[..5] == e;
    }
  }

  /** Escaping loses nothing: decoding the escaped text gives back the input. */
  lemma {:induction false} UnescapeEscape(s: string)
    ensures UnescapeHtml(EscapeHtml(s)) == s
  {
    if s != [] {
      UnescapeEscape(s[1..]);
      UnescapeChar(s[0], EscapeHtml(s[1..]));
      assert s == [s[0]] + s[1..];
    }
  }

  /** Every character other than the five is left unchanged: text without
      them is its own escape, and text with one of them is changed. */
  lemma {:induction false} EscapeIdentity(s: string)
    ensures EscapeHtml(s) == s <==> forall i :: 0 <= i < |s| ==> !IsReserved(s[i])
  {
    if s != [] {
      EscapeIdentity(s[1..]);
      var head := EscapeChar(s[0]);
      var tail := EscapeHtml(s[1..]);
      if IsReserved(s[0]) {
        assert |head + tail| > |s|;
      } else {
        assert s == [s[0]] + s[1..];
        if head + tail == s {
          assert tail == s[1..];
        }
        assert (forall i :: 0 <= i < |s| ==> !IsReserved(s[i]))
           <==> (forall i :: 0 <= i < |s[1..]| ==> !IsReserved(s[1..][i]));
      }
    }
  }

  /** Escaping works piece by piece. */
  lemma {:induction false} EscapeAppend(a: string, b: string)
    ensures EscapeHtml(a + b) == EscapeHtml(a) + EscapeHtml(b)
  {
    if a == [] {
      assert a + b == b;
    } else {
      assert (a + b)[1..] == a[1..] + b;
      EscapeAppend(a[1..], b);
    }
  }
}
