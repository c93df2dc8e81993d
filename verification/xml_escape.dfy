/**
 * `xmlEscape` of api/rss.js: five global single-character replacements applied
 * in sequence, ampersand first. The module proves that the sequence equals
 * escaping each character on its own (so nothing is escaped twice), gives the
 * inverse `Unescape`, and characterises the escaped strings.
 */
module XmlEscape {
  import opened Wrappers

  /** The five characters XML text must not carry raw */
  predicate IsSpecial(c: char) {
    c == '&' || c == '<' || c == '>' || c == '"' || c == '\''
  }

  predicate NoSpecials(s: string) {
    forall i :: 0 <= i < |s| ==> !IsSpecial(s[i])
  }

  /** `s.replace(/c/g, rep)` */
  function ReplaceAll(s: string, c: char, rep: string): string
    decreases |s|
  {
    if |s| == 0 then ""
    else (if s[0] == c then rep else [s[0]]) + ReplaceAll(s[1..], c, rep)
  }

  /** `xmlEscape(s)` for a string `s`, in the order the source applies the passes */
  function Escape(s: string): (r: string)
    ensures '<' !in r && '>' !in r && '"' !in r && '\'' !in r
  {
    var s1 := ReplaceAll(s, '&', "&amp;");
    var s2 := ReplaceAll(s1, '<', "&lt;");
    var s3 := ReplaceAll(s2, '>', "&gt;");
    var s4 := ReplaceAll(s3, '"', "&quot;");
    ReplaceAllChars(s1, '<', "&lt;");
    ReplaceAllChars(s2, '>', "&gt;");
    ReplaceAllChars(s3, '"', "&quot;");
    ReplaceAllChars(s4, '\'', "&apos;");
    ReplaceAll(s4, '\'', "&apos;")
  }

  /** Every character of `s.replace(/c/g, rep)` is a character of `s` other than `c`, or
      comes from the replacement. */
  lemma {:induction false} ReplaceAllChars(s: string, c: char, rep: string)
    ensures forall x :: x in ReplaceAll(s, c, rep) ==> (x in s && x != c) || x in rep
    decreases |s|
  {
    if |s| > 0 {
      ReplaceAllChars(s[1..], c, rep);
      assert forall x :: x in s[1..] ==> x in s;
    }
  }

  /** `xmlEscape(s)` including `s ?? ""` for an absent value */
  function EscapeOpt(s: Option<string>): (r: string)
    ensures s.None? ==> r == ""
    ensures s.Some? && NoSpecials(s.value) ==> r == s.value
  {
    EscapeKeepsPlainText(s.GetOr(""));
    Escape(s.GetOr(""))
  }

  /** Reference definition: the entity for one character */
  function EscapeChar(c: char): string {
    if c == '&' then "&amp;"
    else if c == '<' then "&lt;"
    else if c == '>' then "&gt;"
    else if c == '"' then "&quot;"
    else if c == '\'' then "&apos;"
    else [c]
  }

  /** Reference definition: every character replaced by its entity independently */
  function EscapePerChar(s: string): string
    decreases |s|
  {
    if |s| == 0 then "" else EscapeChar(s[0]) + EscapePerChar(s[1..])
  }

  /** Decoding of the five entities; any other text is kept as it is */
  function Unescape(r: string): string
    decreases |r|
  {
    if |r| == 0 then ""
    else if StartsWith(r, "&amp;") then "&" + Unescape(r[5..])
    else if StartsWith(r, "&lt;") then "<" + Unescape(r[4..])
    else if StartsWith(r, "&gt;") then ">" + Unescape(r[4..])
    else if StartsWith(r, "&quot;") then "\"" + Unescape(r[6..])
    else if StartsWith(r, "&apos;") then "'" + Unescape(r[6..])
    else [r[0]] + Unescape(r[1..])
  }

  predicate StartsWith(s: string, p: string) {
    |p| <= |s| && s[..|p|] == p
  }

  /** Some entity starts at the front of `s` */
  predicate StartsWithEntity(s: string) {
    StartsWith(s, "&amp;") || StartsWith(s, "&lt;") || StartsWith(s, "&gt;")
    || StartsWith(s, "&quot;") || StartsWith(s, "&apos;")
  }

  /** The shape of escaped text: no raw `< > " '`, and every `&` begins an entity */
  predicate WellEscaped(r: string) {
    && (forall i :: 0 <= i < |r| ==> r[i] != '<' && r[i] != '>' && r[i] != '"' && r[i] != '\'')
    && (forall i :: 0 <= i < |r| && r[i] == '&' ==> StartsWithEntity(r[i..]))
  }

  // ---------- ReplaceAll ----------

  lemma {:induction false} ReplaceAllAppend(a: string, b: string, c: char, rep: string)
    ensures ReplaceAll(a + b, c, rep) == ReplaceAll(a, c, rep) + ReplaceAll(b, c, rep)
    decreases |a|
  {
    if |a| == 0 {
      assert a + b == b;
    } else {
      assert (a + b)[1..] == a[1..] + b;
      ReplaceAllAppend(a[1..], b, c, rep);
    }
  }

  lemma {:induction false} ReplaceAllAbsent(s: string, c: char, rep: string)
    requires c !in s
    ensures ReplaceAll(s, c, rep) == s
    decreases |s|
  {
    if |s| > 0 {
      assert s == [s[0]] + s[1..];
      ReplaceAllAbsent(s[1..], c, rep);
    }
  }

  lemma ReplaceAllOne(c: char, rep: string)
    ensures ReplaceAll([c], c, rep) == rep
  {
    assert [c][1..] == [];
  }

  // ---------- the sequential passes equal per-character escaping ----------

  lemma EscapeAppend(a: string, b: string)
    ensures Escape(a + b) == Escape(a) + Escape(b)
  {
    var a1, b1 := ReplaceAll(a, '&', "&amp;"), ReplaceAll(b, '&', "&amp;");
    ReplaceAllAppend(a, b, '&', "&amp;");
    var a2, b2 := ReplaceAll(a1, '<', "&lt;"), ReplaceAll(b1, '<', "&lt;");
    ReplaceAllAppend(a1, b1, '<', "&lt;");
    var a3, b3 := ReplaceAll(a2, '>', "&gt;"), ReplaceAll(b2, '>', "&gt;");
    ReplaceAllAppend(a2, b2, '>', "&gt;");
    var a4, b4 := ReplaceAll(a3, '"', "&quot;"), ReplaceAll(b3, '"', "&quot;");
    ReplaceAllAppend(a3, b3, '"', "&quot;");
    ReplaceAllAppend(a4, b4, '\'', "&apos;");
  }

  /** Passes after the first leave an entity produced by an earlier pass alone. */
  lemma EscapeOneChar(c: char)
    ensures Escape([c]) == EscapeChar(c)
  {
    if c == '&' {
      ReplaceAllOne(c, "&amp;");
      LaterPassesKeep("&amp;", 1);
    } else if c == '<' {
      ReplaceAllAbsent([c], '&', "&amp;");
      ReplaceAllOne(c, "&lt;");
      LaterPassesKeep("&lt;", 2);
    } else if c == '>' {
      ReplaceAllAbsent([c], '&', "&amp;");
      ReplaceAllAbsent([c], '<', "&lt;");
      ReplaceAllOne(c, "&gt;");
      LaterPassesKeep("&gt;", 3);
    } else if c == '"' {
      ReplaceAllAbsent([c], '&', "&amp;");
      ReplaceAllAbsent([c], '<', "&lt;");
      ReplaceAllAbsent([c], '>', "&gt;");
      ReplaceAllOne(c, "&quot;");
      ReplaceAllAbsent("&quot;", '\'', "&apos;");
    } else if c == '\'' {
      ReplaceAllAbsent([c], '&', "&amp;");
      ReplaceAllAbsent([c], '<', "&lt;");
      ReplaceAllAbsent([c], '>', "&gt;");
      ReplaceAllAbsent([c], '"', "&quot;");
      ReplaceAllOne(c, "&apos;");
    } else {
      LaterPassesKeep([c], 0);
    }
  }

  /** The passes from number `k` on (0-based) do not touch a text free of their characters. */
  lemma LaterPassesKeep(e: string, k: nat)
    requires k <= 3
    requires '<' !in e
    requires '&' !in e || k >= 1
    requires '>' !in e && '"' !in e && '\'' !in e
    ensures k == 0 ==> Escape(e) == e
    ensures k == 1 ==> ReplaceAll(ReplaceAll(ReplaceAll(ReplaceAll(e, '<', "&lt;"), '>', "&gt;"), '"', "&quot;"), '\'', "&apos;") == e
    ensures k == 2 ==> ReplaceAll(ReplaceAll(ReplaceAll(e, '>', "&gt;"), '"', "&quot;"), '\'', "&apos;") == e
    ensures k == 3 ==> ReplaceAll(ReplaceAll(e, '"', "&quot;"), '\'', "&apos;") == e
  {
    if k == 0 { ReplaceAllAbsent(e, '&', "&amp;"); }
    if k <= 1 { ReplaceAllAbsent(e, '<', "&lt;"); }
    if k <= 2 { ReplaceAllAbsent(e, '>', "&gt;"); }
    ReplaceAllAbsent(e, '"', "&quot;");
    ReplaceAllAbsent(e, '\'', "&apos;");
  }

  /** Because `&` is replaced first, the five passes never escape an entity a
      previous pass produced: the result is per-character escaping. */
  lemma {:induction false} EscapeIsPerChar(s: string)
    ensures Escape(s) == EscapePerChar(s)
    decreases |s|
  {
    if |s| == 0 {
      assert ReplaceAll("", '&', "&amp;") == "";
    } else {
      assert s == [s[0]] + s[1..];
      EscapeAppend([s[0]], s[1..]);
      EscapeOneChar(s[0]);
      EscapeIsPerChar(s[1..]);
    }
  }

  // ---------- properties of per-character escaping ----------

  lemma {:induction false} PerCharIdentity(s: string)
    requires NoSpecials(s)
    ensures EscapePerChar(s) == s
    decreases |s|
  {
    if |s| > 0 {
      PerCharIdentity(s[1..]);
      assert s == [s[0]] + s[1..];
    }
  }

  lemma StartsWithAppend(p: string, q: string, t: string)
    requires StartsWith(q, p)
    ensures StartsWith(q + t, p)
  {
    assert (q + t)[..|p|] == q[..|p|];
  }

  /** Decoding the entity of `c` followed by any text yields `c` and decodes the text. */
  lemma UnescapeEntity(c: char, rest: string)
    ensures Unescape(EscapeChar(c) + rest) == [c] + Unescape(rest)
  {
    var r := EscapeChar(c) + rest;
    if c == '&' {
      assert r[..5] == "&amp;" && r[5..] == rest;
    } else if c == '<' {
      assert r[..4] == "&lt;" && r[4..] == rest;
      assert !StartsWith(r, "&amp;") by { assert r[1] == 'l'; }
    } else if c == '>' {
      assert r[..4] == "&gt;" && r[4..] == rest;
      assert !StartsWith(r, "&amp;") by { assert r[1] == 'g'; }
      assert !StartsWith(r, "&lt;") by { assert r[1] == 'g'; }
    } else if c == '"' {
      assert r[..6] == "&quot;" && r[6..] == rest;
      assert r[1] == 'q';
      assert !StartsWith(r, "&amp;") && !StartsWith(r, "&lt;") && !StartsWith(r, "&gt;");
    } else if c == '\'' {
      assert r[..6] == "&apos;" && r[6..] == rest;
      assert r[1] == 'a' && r[2] == 'p';
      assert !StartsWith(r, "&amp;") && !StartsWith(r, "&lt;") && !StartsWith(r, "&gt;");
      assert !StartsWith(r, "&quot;");
    } else {
      assert r[0] == c && r[1..] == rest;
      assert !StartsWithEntity(r);
    }
  }

  lemma {:induction false} UnescapePerChar(s: string)
    ensures Unescape(EscapePerChar(s)) == s
    decreases |s|
  {
    if |s| > 0 {
      UnescapeEntity(s[0], EscapePerChar(s[1..]));
      UnescapePerChar(s[1..]);
      assert s == [s[0]] + s[1..];
    }
  }

  lemma WellEscapedAppend(e: string, t: string)
    requires WellEscaped(e) && WellEscaped(t)
    ensures WellEscaped(e + t)
  {
    var r := e + t;
    forall i | 0 <= i < |r| && r[i] == '&'
      ensures StartsWithEntity(r[i..])
    {
      if i < |e| {
        assert r[i..] == e[i..] + t;
        assert StartsWithEntity(e[i..]);
        if StartsWith(e[i..], "&amp;") { StartsWithAppend("&amp;", e[i..], t); }
        else if StartsWith(e[i..], "&lt;") { StartsWithAppend("&lt;", e[i..], t); }
        else if StartsWith(e[i..], "&gt;") { StartsWithAppend("&gt;", e[i..], t); }
        else if StartsWith(e[i..], "&quot;") { StartsWithAppend("&quot;", e[i..], t); }
        else { StartsWithAppend("&apos;", e[i..], t); }
      } else {
        assert r[i..] == t[i - |e|..];
      }
    }
  }

  lemma EscapeCharWellEscaped(c: char)
    ensures WellEscaped(EscapeChar(c))
  {
    var e := EscapeChar(c);
    if IsSpecial(c) {
      assert e[0..] == e;
      forall i | 0 <= i < |e| && e[i] == '&' ensures i == 0 { }
    }
  }

  lemma {:induction false} PerCharWellEscaped(s: string)
    ensures WellEscaped(EscapePerChar(s))
    decreases |s|
  {
    if |s| > 0 {
      EscapeCharWellEscaped(s[0]);
      PerCharWellEscaped(s[1..]);
      WellEscapedAppend(EscapeChar(s[0]), EscapePerChar(s[1..]));
    }
  }

  lemma WellEscapedSuffix(r: string, k: nat)
    requires WellEscaped(r) && k <= |r|
    ensures WellEscaped(r[k..])
  {
    forall i | 0 <= i < |r[k..]| && r[k..][i] == '&'
      ensures StartsWithEntity(r[k..][i..])
    {
      assert r[k..][i..] == r[k + i..];
    }
  }

  // ---------- properties of `xmlEscape` ----------

  /** Escaped text carries no raw `< > " '`, and each `&` in it begins one of the five entities. */
  lemma EscapeIsWellEscaped(s: string)
    ensures WellEscaped(Escape(s))
  {
    EscapeIsPerChar(s);
    PerCharWellEscaped(s);
  }

  /** Unescaping recovers the original text. */
  lemma EscapeRoundTrip(s: string)
    ensures Unescape(Escape(s)) == s
  {
    EscapeIsPerChar(s);
    UnescapePerChar(s);
  }

  /** Text without any of the five special characters passes through unchanged. */
  lemma EscapeKeepsPlainText(s: string)
    ensures NoSpecials(s) <==> Escape(s) == s
  {
    EscapeIsPerChar(s);
    if NoSpecials(s) {
      PerCharIdentity(s);
    } else {
      var i :| 0 <= i < |s| && IsSpecial(s[i]);
      EscapeIsWellEscaped(s);
      if Escape(s) == s {
        assert s[i] == '&';
        assert StartsWithEntity(s[i..]);
        PerCharLonger(s);
        assert false;
      }
    }
  }

  /** Escaping a text with a special character makes it strictly longer. */
  lemma {:induction false} PerCharLonger(s: string)
    ensures |EscapePerChar(s)| >= |s|
    ensures !NoSpecials(s) ==> |EscapePerChar(s)| > |s|
    decreases |s|
  {
    if |s| > 0 {
      PerCharLonger(s[1..]);
      if !NoSpecials(s) && !IsSpecial(s[0]) {
        var i :| 0 <= i < |s| && IsSpecial(s[i]);
        assert s[1..][i - 1] == s[i];
      }
    }
  }

  /** Every well-escaped text is the escape of its decoding: `Escape` is a bijection
      between all strings and the well-escaped ones. */
  lemma UnescapeThenEscape(r: string)
    requires WellEscaped(r)
    ensures Escape(Unescape(r)) == r
  {
    EscapeIsPerChar(Unescape(r));
    UnescapeThenEscapePerChar(r);
  }

  lemma {:induction false} UnescapeThenEscapePerChar(r: string)
    requires WellEscaped(r)
    ensures EscapePerChar(Unescape(r)) == r
    decreases |r|
  {
    if |r| > 0 {
      var c, k := FirstToken(r);
      WellEscapedSuffix(r, k);
      UnescapeThenEscapePerChar(r[k..]);
      assert ([c] + Unescape(r[k..]))[1..] == Unescape(r[k..]);
      assert r == r[..k] + r[k..];
    }
  }

  /** Well-escaped text opens with one token, an entity or a plain character, that decodes
      to a single character `c`. */
  lemma FirstToken(r: string) returns (c: char, k: nat)
    requires WellEscaped(r) && |r| > 0
    ensures 0 < k <= |r| && r[..k] == EscapeChar(c)
    ensures Unescape(r) == [c] + Unescape(r[k..])
  {
    if r[0] == '&' {
      assert r[0..] == r;
      assert StartsWithEntity(r);
      if StartsWith(r, "&amp;") { c, k := '&', 5; }
      else if StartsWith(r, "&lt;") { c, k := '<', 4; }
      else if StartsWith(r, "&gt;") { c, k := '>', 4; }
      else if StartsWith(r, "&quot;") { c, k := '"', 6; }
      else { c, k := '\'', 6; }
    } else {
      c, k := r[0], 1;
      assert !StartsWithEntity(r);
      assert !IsSpecial(c);
      assert r[..1] == [c];
    }
  }

  /** The worked example `A & B <tag>` → `A &amp; B &lt;tag&gt;`, for any plain texts in
      place of `A `, ` B ` and `tag`. */
  lemma EscapeExample(a: string, c: string, e: string)
    requires NoSpecials(a) && NoSpecials(c) && NoSpecials(e)
    ensures Escape(a + "&" + c + "<" + e + ">") == a + "&amp;" + c + "&lt;" + e + "&gt;"
  {
    EscapeKeepsPlainText(a);
    EscapeKeepsPlainText(c);
    EscapeKeepsPlainText(e);
    var amp, lt, gt := ['&'], ['<'], ['>'];
    EscapeOneChar('&');
    EscapeOneChar('<');
    EscapeOneChar('>');
    var s1 := a + amp;
    EscapeAppend(a, amp);
    var s2 := s1 + c;
    EscapeAppend(s1, c);
    var s3 := s2 + lt;
    EscapeAppend(s2, lt);
    var s4 := s3 + e;
    EscapeAppend(s3, e);
    EscapeAppend(s4, gt);
    assert a + "&" + c + "<" + e + ">" == s4 + gt;
  }
}
