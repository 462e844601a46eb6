/** The HTML escaper `escape(html, encode)` of src/escape.ts.

    Encode mode rewrites every character of `& < > " '` through the
    replacement table. No-encode mode rewrites `< > " '` the same way but
    keeps an `&` that already starts a character reference `&#?\w+;`.
    Both modes first test whether any character needs rewriting and
    return the input itself when none does. */
module Escape {
  import opened Strings

  /** The characters of the replacement table, `[&<>"']`. */
  predicate IsSpecial(c: char) {
    c == '&' || c == '<' || c == '>' || c == '"' || c == '\''
  }

  /** The characters no escaped output may contain raw. */
  predicate IsMarkup(c: char) {
    c == '<' || c == '>' || c == '"' || c == '\''
  }

  /** The replacement table; any other character stands for itself. */
  function Entity(c: char): (r: string)
    ensures |r| > 0
  {
    match c
    case '&' => "&amp;"
    case '<' => "&lt;"
    case '>' => "&gt;"
    case '"' => "&quot;"
    case '\'' => "&#39;"
    case _ => [c]
  }

  /** The regular-expression class `\w`. */
  predicate IsWordChar(c: char) {
    ('a' <= c <= 'z') || ('A' <= c <= 'Z') || ('0' <= c <= '9') || c == '_'
  }

  /** `\w*;` matched at the start of `u`. */
  predicate WordsThenSemi(u: string)
    decreases |u|
  {
    |u| > 0 && (u[0] == ';' || (IsWordChar(u[0]) && WordsThenSemi(u[1..])))
  }

  /** `#?\w+;` matched at the start of `u`: the look-ahead that tells an
      `&` starting a reference from a bare one. */
  predicate EntityAhead(u: string) {
    || (|u| > 0 && IsWordChar(u[0]) && WordsThenSemi(u[1..]))
    || (|u| > 1 && u[0] == '#' && IsWordChar(u[1]) && WordsThenSemi(u[2..]))
  }

  /** Position `i` is a match of `escapeReplace`. */
  predicate MatchesEncode(s: string, i: int)
    requires 0 <= i < |s|
  {
    IsSpecial(s[i])
  }

  /** Position `i` is a match of `escapeReplaceNoEncode`,
      `[<>"']|&(?!#?\w+;)`. */
  predicate MatchesNoEncode(s: string, i: int)
    requires 0 <= i < |s|
  {
    IsMarkup(s[i]) || (s[i] == '&' && !EntityAhead(s[i + 1..]))
  }

  /** `escapeTest.test(html)` */
  predicate EncodeTest(s: string) {
    exists i :: 0 <= i < |s| && MatchesEncode(s, i)
  }

  /** `escapeTestNoEncode.test(html)` */
  predicate NoEncodeTest(s: string) {
    exists i :: 0 <= i < |s| && MatchesNoEncode(s, i)
  }

  /** `html.replace(escapeReplace, ...)`: every character through the table. */
  function ReplaceEncode(s: string): string {
    if |s| == 0 then "" else Entity(s[0]) + ReplaceEncode(s[1..])
  }

  /** The replacement of the first character in no-encode mode. */
  function NoEncodePiece(s: string): string
    requires |s| > 0
  {
    if s[0] == '&' && EntityAhead(s[1..]) then "&" else Entity(s[0])
  }

  /** `html.replace(escapeReplaceNoEncode, ...)`; the look-ahead reads the
      input, so each position is rewritten independently. */
  function ReplaceNoEncode(s: string): string {
    if |s| == 0 then "" else NoEncodePiece(s) + ReplaceNoEncode(s[1..])
  }

  /** One of the five replacement entities starts at position `i` of `t`. */
  predicate EntityAt(t: string, i: int)
    requires 0 <= i <= |t|
  {
    var u := t[i..];
    StartsWith(u, "&amp;") || StartsWith(u, "&lt;") || StartsWith(u, "&gt;")
    || StartsWith(u, "&quot;") || StartsWith(u, "&#39;")
  }

  predicate NoMarkupChars(t: string) {
    forall i :: 0 <= i < |t| ==> !IsMarkup(t[i])
  }

  /** Every `&` of `t` begins one of the five replacement entities. */
  predicate AmpsBeginEntities(t: string) {
    forall i :: 0 <= i < |t| && t[i] == '&' ==> EntityAt(t, i)
  }

  /** Every `&` of `t` is followed by `#?\w+;`. */
  predicate AmpsBeginReferences(t: string) {
    forall i :: 0 <= i < |t| && t[i] == '&' ==> EntityAhead(t[i + 1..])
  }

  /** `escape(html, encode)` */
  function Escape(html: string, encode: bool): (r: string)
    ensures NoMarkupChars(r)
    ensures encode ==> AmpsBeginEntities(r)
    ensures !encode ==> AmpsBeginReferences(r)
    ensures encode && !EncodeTest(html) ==> r == html
    ensures !encode && !NoEncodeTest(html) ==> r == html
  {
    if encode then
      if EncodeTest(html) then
        ReplaceEncodeOutput(html);
        ReplaceEncode(html)
      else
        NoMatchNoMarkup(html);
        html
    else
      if NoEncodeTest(html) then
        ReplaceNoEncodeOutput(html);
        ReplaceNoEncode(html)
      else
        NoEncodeMatchClean(html);
        html
  }

  lemma NoEncodeMatchClean(s: string)
    requires !NoEncodeTest(s)
    ensures NoMarkupChars(s) && AmpsBeginReferences(s)
  {
    forall i | 0 <= i < |s|
      ensures !IsMarkup(s[i]) && (s[i] == '&' ==> EntityAhead(s[i + 1..]))
    {
      assert !MatchesNoEncode(s, i);
    }
  }

  lemma NoMatchNoMarkup(s: string)
    requires !EncodeTest(s)
    ensures NoMarkupChars(s) && AmpsBeginEntities(s)
  {
    forall i | 0 <= i < |s|
      ensures !IsMarkup(s[i]) && s[i] != '&'
    {
      assert !MatchesEncode(s, i);
    }
  }

  // ---------------------------------------------------------------------
  // Encode mode

  lemma AmpsConcat(a: string, b: string)
    requires AmpsBeginEntities(a) && AmpsBeginEntities(b)
    ensures AmpsBeginEntities(a + b)
  {
    var t := a + b;
    forall i | 0 <= i < |t| && t[i] == '&'
      ensures EntityAt(t, i)
    {
      if i < |a| {
        assert a[i] == '&' && EntityAt(a, i);
        var u := a[i..];
        var v := t[i..];
        forall p: string | StartsWith(u, p)
          ensures StartsWith(v, p)
        {
          assert v[..|p|] == u[..|p|];
        }
      } else {
        assert t[i..] == b[i - |a|..];
        assert b[i - |a|] == '&';
      }
    }
  }

  lemma EntityOutput(c: char)
    ensures NoMarkupChars(Entity(c)) && AmpsBeginEntities(Entity(c))
  {
    var e := Entity(c);
    if IsSpecial(c) {
      assert e[0..] == e;
      assert EntityAt(e, 0);
      EntityChars(c);
      RefChars(e);
    } else {
      assert e == [c];
    }
  }

  /** After its `&`, an entity holds only reference characters. */
  lemma EntityChars(c: char)
    requires IsSpecial(c)
    ensures var e := Entity(c);
            && e[0] == '&'
            && forall i :: 1 <= i < |e| ==> IsWordChar(e[i]) || e[i] == '#' || e[i] == ';'
  {
  }

  /** A string that starts with an entity and continues with reference
      characters only has no markup and one `&`, at its start. */
  lemma RefChars(e: string)
    requires |e| > 0 && EntityAt(e, 0)
    requires forall i :: 1 <= i < |e| ==> IsWordChar(e[i]) || e[i] == '#' || e[i] == ';'
    ensures NoMarkupChars(e) && AmpsBeginEntities(e)
  {
    assert e[0] == '&';
  }

  /** Encode mode leaves no raw markup character and every `&` of its
      output begins one of the five entities. */
  lemma {:induction false} ReplaceEncodeOutput(s: string)
    ensures NoMarkupChars(ReplaceEncode(s)) && AmpsBeginEntities(ReplaceEncode(s))
  {
    if |s| > 0 {
      ReplaceEncodeOutput(s[1..]);
      EntityOutput(s[0]);
      AmpsConcat(Entity(s[0]), ReplaceEncode(s[1..]));
    }
  }

  /** The five entities read back as the characters they stand for; the
      inverse of encode mode, used to state what that mode preserves. */
  function DecodeEntities(t: string): string
    decreases |t|
  {
    if |t| == 0 then ""
    else if StartsWith(t, "&amp;") then "&" + DecodeEntities(t[5..])
    else if StartsWith(t, "&lt;") then "<" + DecodeEntities(t[4..])
    else if StartsWith(t, "&gt;") then ">" + DecodeEntities(t[4..])
    else if StartsWith(t, "&quot;") then "\"" + DecodeEntities(t[6..])
    else if StartsWith(t, "&#39;") then "'" + DecodeEntities(t[5..])
    else [t[0]] + DecodeEntities(t[1..])
  }

  lemma DecodeEntity(c: char, rest: string)
    ensures DecodeEntities(Entity(c) + rest) == [c] + DecodeEntities(rest)
  {
    var e := Entity(c);
    var t := e + rest;
    assert t[..|e|] == e && t[|e|..] == rest;
    assert t[0] == e[0];
    if c == '&' {
      assert StartsWith(t, "&amp;");
    } else if c == '<' {
      assert t[1] == 'l';
      Mismatch(t, "&amp;", 1);
      assert StartsWith(t, "&lt;");
    } else if c == '>' {
      assert t[1] == 'g';
      Mismatch(t, "&amp;", 1);
      Mismatch(t, "&lt;", 1);
      assert StartsWith(t, "&gt;");
    } else if c == '"' {
      assert t[1] == 'q';
      Mismatch(t, "&amp;", 1);
      Mismatch(t, "&lt;", 1);
      Mismatch(t, "&gt;", 1);
      assert StartsWith(t, "&quot;");
    } else if c == '\'' {
      assert t[1] == '#';
      Mismatch(t, "&amp;", 1);
      Mismatch(t, "&lt;", 1);
      Mismatch(t, "&gt;", 1);
      Mismatch(t, "&quot;", 1);
      assert StartsWith(t, "&#39;");
    } else {
      assert t[0] == c && t[1..] == rest;
      Mismatch(t, "&amp;", 0);
      Mismatch(t, "&lt;", 0);
      Mismatch(t, "&gt;", 0);
      Mismatch(t, "&quot;", 0);
      Mismatch(t, "&#39;", 0);
    }
  }

  /** Encode mode loses nothing: decoding its output gives the input back,
      so every character other than the five is copied unchanged and in
      order. */
  lemma {:induction false} EncodeRoundTrip(s: string)
    ensures DecodeEntities(Escape(s, true)) == s
  {
    ReplaceEncodeRoundTrip(s);
    if !EncodeTest(s) {
      NoMatchIdentity(s);
    }
  }

  lemma {:induction false} ReplaceEncodeRoundTrip(s: string)
    ensures DecodeEntities(ReplaceEncode(s)) == s
  {
    if |s| > 0 {
      DecodeEntity(s[0], ReplaceEncode(s[1..]));
      ReplaceEncodeRoundTrip(s[1..]);
    }
  }

  /** The test in encode mode is only a shortcut: where it fails, the
      replacement would have returned the input anyway. */
  lemma {:induction false} NoMatchIdentity(s: string)
    requires !EncodeTest(s)
    ensures ReplaceEncode(s) == s
  {
    if |s| > 0 {
      assert !MatchesEncode(s, 0);
      assert !EncodeTest(s[1..]) by {
        if EncodeTest(s[1..]) {
          var i :| 0 <= i < |s[1..]| && MatchesEncode(s[1..], i);
          assert MatchesEncode(s, i + 1);
        }
      }
      NoMatchIdentity(s[1..]);
    }
  }

  /** Encode mode's output is the only text of its kind that reads back
      as the input: a text free of raw markup whose every `&` begins one
      of the five entities, and that decodes to `s`, is `Escape(s, true)`. */
  lemma EncodedUnique(t: string, s: string)
    requires NoMarkupChars(t) && AmpsBeginEntities(t) && DecodeEntities(t) == s
    ensures t == Escape(s, true)
  {
    ReEncodeDecoded(t);
    if !EncodeTest(s) {
      NoMatchIdentity(s);
    }
  }

  lemma {:induction false} ReEncodeDecoded(t: string)
    requires NoMarkupChars(t) && AmpsBeginEntities(t)
    ensures ReplaceEncode(DecodeEntities(t)) == t
    decreases |t|
  {
    if |t| > 0 {
      var c, n := HeadEntity(t);
      CleanSuffix(t, n);
      ReEncodeDecoded(t[n..]);
      var d := DecodeEntities(t[n..]);
      assert ([c] + d)[0] == c && ([c] + d)[1..] == d;
      assert t == t[..n] + t[n..];
    }
  }

  /** A clean text starts with the entry of the table for the first
      character it decodes to. */
  lemma HeadEntity(t: string) returns (c: char, n: nat)
    requires |t| > 0 && NoMarkupChars(t) && AmpsBeginEntities(t)
    ensures 0 < n <= |t| && t[..n] == Entity(c)
    ensures DecodeEntities(t) == [c] + DecodeEntities(t[n..])
  {
    if StartsWith(t, "&amp;") {
      c, n := '&', 5;
    } else if StartsWith(t, "&lt;") {
      c, n := '<', 4;
    } else if StartsWith(t, "&gt;") {
      c, n := '>', 4;
    } else if StartsWith(t, "&quot;") {
      c, n := '"', 6;
    } else if StartsWith(t, "&#39;") {
      c, n := '\'', 5;
    } else {
      assert t[0..] == t;
      assert t[0] != '&' && !IsMarkup(t[0]);
      c, n := t[0], 1;
    }
  }

  /** Every suffix of a clean text is clean. */
  lemma CleanSuffix(t: string, k: nat)
    requires k <= |t| && NoMarkupChars(t) && AmpsBeginEntities(t)
    ensures NoMarkupChars(t[k..]) && AmpsBeginEntities(t[k..])
  {
    var u := t[k..];
    forall i | 0 <= i < |u| && u[i] == '&'
      ensures EntityAt(u, i)
    {
      assert t[k + i] == '&';
      assert u[i..] == t[k + i..];
    }
  }

  // ---------------------------------------------------------------------
  // No-encode mode

  lemma {:induction false} WordsThenSemiKept(u: string)
    requires WordsThenSemi(u)
    ensures WordsThenSemi(ReplaceNoEncode(u))
    decreases |u|
  {
    var r := ReplaceNoEncode(u);
    assert r == NoEncodePiece(u) + ReplaceNoEncode(u[1..]);
    if u[0] != ';' {
      WordsThenSemiKept(u[1..]);
      assert r[1..] == ReplaceNoEncode(u[1..]);
    }
  }

  /** The characters of a reference are not rewritten, so a reference
      stays a reference. */
  lemma EntityAheadKept(u: string)
    requires EntityAhead(u)
    ensures EntityAhead(ReplaceNoEncode(u))
  {
    var r := ReplaceNoEncode(u);
    assert r == NoEncodePiece(u) + ReplaceNoEncode(u[1..]);
    if |u| > 0 && IsWordChar(u[0]) && WordsThenSemi(u[1..]) {
      WordsThenSemiKept(u[1..]);
      assert r[1..] == ReplaceNoEncode(u[1..]);
    } else {
      var r1 := ReplaceNoEncode(u[1..]);
      assert r1 == NoEncodePiece(u[1..]) + ReplaceNoEncode(u[2..]);
      assert u[1..][1..] == u[2..];
      WordsThenSemiKept(u[2..]);
      assert r[2..] == ReplaceNoEncode(u[2..]);
    }
  }

  lemma {:induction false} WordsThenSemiOf(w: string, x: string)
    requires forall i :: 0 <= i < |w| ==> IsWordChar(w[i])
    ensures WordsThenSemi(w + ";" + x)
    decreases |w|
  {
    var u := w + ";" + x;
    if |w| > 0 {
      assert u[1..] == w[1..] + ";" + x;
      WordsThenSemiOf(w[1..], x);
    } else {
      assert u[0] == ';';
    }
  }

  /** The text after the `&` of each entity is a reference body. */
  lemma PieceTail(c: char, x: string)
    requires IsSpecial(c)
    ensures EntityAhead(Entity(c)[1..] + x)
  {
    var u := Entity(c)[1..] + x;
    if c == '&' {
      assert u == "amp" + ";" + x;
      NameRef("amp", x);
    } else if c == '<' {
      assert u == "lt" + ";" + x;
      NameRef("lt", x);
    } else if c == '>' {
      assert u == "gt" + ";" + x;
      NameRef("gt", x);
    } else if c == '"' {
      assert u == "quot" + ";" + x;
      NameRef("quot", x);
    } else {
      assert u == "#" + "39" + ";" + x;
      NumberRef("39", x);
    }
  }

  lemma NameRef(w: string, x: string)
    requires |w| > 0 && forall i :: 0 <= i < |w| ==> IsWordChar(w[i])
    ensures EntityAhead(w + ";" + x)
  {
    var u := w + ";" + x;
    assert u[1..] == w[1..] + ";" + x;
    WordsThenSemiOf(w[1..], x);
  }

  lemma NumberRef(w: string, x: string)
    requires |w| > 0 && forall i :: 0 <= i < |w| ==> IsWordChar(w[i])
    ensures EntityAhead("#" + w + ";" + x)
  {
    var u := "#" + w + ";" + x;
    assert u[2..] == w[1..] + ";" + x;
    WordsThenSemiOf(w[1..], x);
  }

  /** No-encode mode leaves no raw markup character and every `&` of its
      output is followed by `#?\w+;`. */
  lemma {:induction false} ReplaceNoEncodeOutput(s: string)
    ensures NoMarkupChars(ReplaceNoEncode(s)) && AmpsBeginReferences(ReplaceNoEncode(s))
    decreases |s|
  {
    if |s| > 0 {
      ReplaceNoEncodeOutput(s[1..]);
      PieceHead(s);
      RefsJoin(NoEncodePiece(s), ReplaceNoEncode(s[1..]));
    }
  }

  /** The piece written for the first character has no markup and at most
      one `&`, at its start, which the rest of the output continues as a
      reference. */
  lemma PieceHead(s: string)
    requires |s| > 0
    ensures var p := NoEncodePiece(s);
            && |p| > 0 && NoMarkupChars(p)
            && (forall i :: 1 <= i < |p| ==> p[i] != '&')
            && (p[0] == '&' ==> EntityAhead(p[1..] + ReplaceNoEncode(s[1..])))
  {
    var p := NoEncodePiece(s);
    var x := ReplaceNoEncode(s[1..]);
    if s[0] == '&' && EntityAhead(s[1..]) {
      assert p[1..] + x == x;
      EntityAheadKept(s[1..]);
    } else if IsSpecial(s[0]) {
      EntityChars(s[0]);
      PieceTail(s[0], x);
    } else {
      assert p == [s[0]];
    }
  }

  lemma RefsJoin(p: string, x: string)
    requires |p| > 0 && NoMarkupChars(p) && (forall i :: 1 <= i < |p| ==> p[i] != '&')
    requires p[0] == '&' ==> EntityAhead(p[1..] + x)
    requires NoMarkupChars(x) && AmpsBeginReferences(x)
    ensures NoMarkupChars(p + x) && AmpsBeginReferences(p + x)
  {
    var t := p + x;
    forall i | 0 <= i < |t|
      ensures !IsMarkup(t[i]) && (t[i] == '&' ==> EntityAhead(t[i + 1..]))
    {
      if i == 0 {
        assert t[1..] == p[1..] + x;
      } else if i >= |p| {
        assert t[i] == x[i - |p|];
        assert t[i + 1..] == x[i - |p| + 1..];
      }
    }
  }

  lemma NoEncodeClean(t: string)
    requires NoMarkupChars(t) && AmpsBeginReferences(t)
    ensures !NoEncodeTest(t)
  {
    forall i | 0 <= i < |t|
      ensures !MatchesNoEncode(t, i)
    {
    }
  }

  /** No-encode mode is idempotent: escaping its output again changes
      nothing, because every entity it emits is itself a reference. */
  lemma NoEncodeIdempotent(s: string)
    ensures Escape(Escape(s, false), false) == Escape(s, false)
  {
    NoEncodeClean(Escape(s, false));
  }

  /** On text without `&` the two modes agree. */
  lemma {:induction false} ModesAgreeWithoutAmp(s: string)
    requires forall i :: 0 <= i < |s| ==> s[i] != '&'
    ensures Escape(s, true) == Escape(s, false)
  {
    ReplaceModesAgree(s);
    assert EncodeTest(s) <==> NoEncodeTest(s) by {
      if EncodeTest(s) {
        var i :| 0 <= i < |s| && MatchesEncode(s, i);
        assert MatchesNoEncode(s, i);
      }
      if NoEncodeTest(s) {
        var i :| 0 <= i < |s| && MatchesNoEncode(s, i);
        assert MatchesEncode(s, i);
      }
    }
  }

  lemma {:induction false} ReplaceModesAgree(s: string)
    requires forall i :: 0 <= i < |s| ==> s[i] != '&'
    ensures ReplaceEncode(s) == ReplaceNoEncode(s)
  {
    if |s| > 0 {
      assert forall i :: 0 <= i < |s[1..]| ==> s[1..][i] == s[i + 1];
      ReplaceModesAgree(s[1..]);
    }
  }

  // ---------------------------------------------------------------------
  // Both modes as position-by-position rewrites

  /** Encode mode rewrites each character of the input through the table,
      independently of its neighbours; where the test finds nothing to
      rewrite the rewrite is the identity, so the result is the same. */
  lemma EncodeRewrite(s: string)
    ensures Escape(s, true) == Concat(seq(|s|, i requires 0 <= i < |s| => Entity(s[i])))
  {
    ReplaceEncodePieces(s);
    if !EncodeTest(s) {
      NoMatchIdentity(s);
    }
  }

  /** No-encode mode rewrites each position of the input independently: an
      `&` that the input continues with `#?\w+;` stays, any other
      character goes through the table. */
  lemma NoEncodeRewrite(s: string)
    ensures Escape(s, false) == Concat(seq(|s|, i requires 0 <= i < |s| => NoEncodePiece(s[i..])))
  {
    ReplaceNoEncodePieces(s);
    if !NoEncodeTest(s) {
      NoEncodeNoMatchIdentity(s);
    }
  }

  lemma {:induction false} ReplaceEncodePieces(s: string)
    ensures ReplaceEncode(s) == Concat(seq(|s|, i requires 0 <= i < |s| => Entity(s[i])))
    decreases |s|
  {
    var ps := seq(|s|, i requires 0 <= i < |s| => Entity(s[i]));
    if |s| > 0 {
      assert ps[1..] == seq(|s| - 1, i requires 0 <= i < |s| - 1 => Entity(s[1..][i]));
      ReplaceEncodePieces(s[1..]);
    } else {
      assert ps == [];
    }
  }

  lemma {:induction false} ReplaceNoEncodePieces(s: string)
    ensures ReplaceNoEncode(s) == Concat(seq(|s|, i requires 0 <= i < |s| => NoEncodePiece(s[i..])))
    decreases |s|
  {
    var ps := seq(|s|, i requires 0 <= i < |s| => NoEncodePiece(s[i..]));
    if |s| > 0 {
      assert forall i :: 0 <= i < |s| - 1 ==> s[1..][i..] == s[i + 1..];
      assert ps[1..] == seq(|s| - 1, i requires 0 <= i < |s| - 1 => NoEncodePiece(s[1..][i..]));
      assert ps[0] == NoEncodePiece(s);
      ReplaceNoEncodePieces(s[1..]);
    } else {
      assert ps == [];
    }
  }

  /** The test in no-encode mode is only a shortcut too. */
  lemma {:induction false} NoEncodeNoMatchIdentity(s: string)
    requires !NoEncodeTest(s)
    ensures ReplaceNoEncode(s) == s
    decreases |s|
  {
    if |s| > 0 {
      assert !MatchesNoEncode(s, 0);
      assert !NoEncodeTest(s[1..]) by {
        if NoEncodeTest(s[1..]) {
          var i :| 0 <= i < |s[1..]| && MatchesNoEncode(s[1..], i);
          assert s[1..][i + 1..] == s[i + 2..];
          assert MatchesNoEncode(s, i + 1);
        }
      }
      NoEncodeNoMatchIdentity(s[1..]);
      assert NoEncodePiece(s) == [s[0]];
    }
  }
}
