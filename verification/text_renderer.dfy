/** The text renderer of src/textRenderer.ts: the span templates of the
    HTML renderer overridden to return only the text. Block templates are
    inherited unchanged, so they are not repeated here.

    The partner of both renderers is `TextOf`, the characters of an HTML
    string that lie outside its tags: each span template of the HTML
    renderer adds only tags around its text, so the HTML renderer and the
    text renderer show the same text. */
module TextRenderer {
  import opened Results
  import opened Strings
  import Escape
  import Renderer

  /** `strong(text)` */
  function Strong(text: string): (r: string)
    ensures TextOf(r) == TextOf(Renderer.Strong(text))
  {
    WrapText("<strong>", text, "</strong>");
    text
  }

  /** `em(text)` */
  function Em(text: string): (r: string)
    ensures TextOf(r) == TextOf(Renderer.Em(text))
  {
    WrapText("<em>", text, "</em>");
    text
  }

  /** `codespan(text)` */
  function Codespan(text: string): (r: string)
    ensures TextOf(r) == TextOf(Renderer.Codespan(text))
  {
    WrapText("<code>", text, "</code>");
    text
  }

  /** `del(text)` */
  function Del(text: string): (r: string)
    ensures TextOf(r) == TextOf(Renderer.Del(text))
  {
    WrapText("<del>", text, "</del>");
    text
  }

  /** `text(text)` */
  function Text(text: string): (r: string)
    ensures r == Renderer.Text(text)
  {
    text
  }

  /** `br()`: a line break has no text. */
  function Br(opts: Renderer.Options): (r: string)
    ensures r == TextOf(Renderer.Br(opts))
  {
    var x := if opts.xhtml then "br/" else "br";
    assert Renderer.Br(opts) == "<" + x + ">";
    TagText(x, false);
    ""
  }

  /** `link(href, title, text)`: the text. The anchor the HTML renderer
      writes around it is one tag when the title holds no `>`. */
  function Link(clean: Renderer.UrlCleaner, href: string, title: Option<string>, text: string): (r: string)
    ensures (title.None? || NoCloser(title.value)) ==> TextOf(r) == TextOf(Renderer.Link(clean, href, title, text))
  {
    LinkText(clean, href, title, text);
    text
  }

  lemma LinkText(clean: Renderer.UrlCleaner, href: string, title: Option<string>, text: string)
    ensures (title.None? || NoCloser(title.value)) ==> TextOf(Renderer.Link(clean, href, title, text)) == TextOf(text)
  {
    if clean(href).Some? && (title.None? || NoCloser(title.value)) {
      var attr := Escape.Escape(clean(href).value, false);
      AnchorTag(attr, title);
      var open := "<a href=\"" + attr + "\"" + Renderer.TitleAttr(title) + ">";
      assert "</a>"[1..3] == "/a";
      WrapText(open, text, "</a>");
    }
  }

  /** The opening tag of an anchor is one tag when neither the escaped
      URL nor the title holds a `>`. */
  lemma AnchorTag(attr: string, title: Option<string>)
    requires NoCloser(attr)
    requires title.None? || NoCloser(title.value)
    ensures var open := "<a href=\"" + attr + "\"" + Renderer.TitleAttr(title) + ">";
            && |open| >= 2 && open[0] == '<' && open[|open| - 1] == '>' && NoCloser(open[1..|open| - 1])
  {
    var t := Renderer.TitleAttr(title);
    var pre := "<a href=\"" + attr + "\"" + t;
    NoCloserJoin("<a href=\"", attr);
    NoCloserJoin("<a href=\"" + attr, "\"");
    if Renderer.Truthy(title) {
      NoCloserJoin(" title=\"", title.value);
      NoCloserJoin(" title=\"" + title.value, "\"");
    }
    NoCloserJoin("<a href=\"" + attr + "\"", t);
    var open := pre + ">";
    assert forall i :: 0 <= i < |pre| ==> open[i] == pre[i];
    assert NoCloser(open[1..|open| - 1]);
  }

  /** `image(href, title, text)`: the text, which the HTML renderer writes
      as the `alt` attribute. */
  function Image(opts: Renderer.Options, clean: Renderer.UrlCleaner, href: string, title: Option<string>,
                 text: string): (r: string)
    ensures r == text
    ensures clean(href).Some? ==>
              var pre := "<img src=\"" + clean(href).value + "\" alt=\"";
              StartsWith(Renderer.Image(opts, clean, href, title, text)[|pre|..], r + "\"")
    ensures clean(href).None? ==> r == Renderer.Image(opts, clean, href, title, text)
  {
    ImageAlt(opts, clean, href, title, text);
    text
  }

  lemma ImageAlt(opts: Renderer.Options, clean: Renderer.UrlCleaner, href: string, title: Option<string>,
                 text: string)
    ensures clean(href).Some? ==>
              var pre := "<img src=\"" + clean(href).value + "\" alt=\"";
              StartsWith(Renderer.Image(opts, clean, href, title, text)[|pre|..], text + "\"")
  {
    Renderer.ImageShape(opts, clean, href, title, text);
    if clean(href).Some? {
      var pre := "<img src=\"" + clean(href).value + "\" alt=\"";
      assert pre + text + "\"" == pre + (text + "\"");
      StartsAfter(Renderer.Image(opts, clean, href, title, text), pre, text + "\"");
    }
  }

  // ---------------------------------------------------------------------
  // The text outside tags

  predicate NoCloser(x: string) {
    forall i :: 0 <= i < |x| ==> x[i] != '>'
  }

  lemma NoCloserJoin(a: string, b: string)
    requires NoCloser(a) && NoCloser(b)
    ensures NoCloser(a + b)
  {
    assert forall i :: |a| <= i < |a + b| ==> (a + b)[i] == b[i - |a|];
  }

  /** The characters of `s` outside tags, `inTag` saying whether `s` starts
      inside a tag: `<` opens a tag, `>` closes it, and neither is text. */
  function Visible(s: string, inTag: bool): string
    decreases |s|
  {
    if |s| == 0 then ""
    else if inTag then Visible(s[1..], s[0] != '>')
    else if s[0] == '<' then Visible(s[1..], true)
    else [s[0]] + Visible(s[1..], false)
  }

  /** Whether reading `s` from `inTag` ends inside a tag. */
  function InTagAfter(s: string, inTag: bool): bool
    decreases |s|
  {
    if |s| == 0 then inTag
    else if inTag then InTagAfter(s[1..], s[0] != '>')
    else InTagAfter(s[1..], s[0] == '<')
  }

  /** The text an HTML string shows. */
  function TextOf(s: string): string {
    Visible(s, false)
  }

  lemma {:induction false} VisibleConcat(a: string, b: string, inTag: bool)
    ensures Visible(a + b, inTag) == Visible(a, inTag) + Visible(b, InTagAfter(a, inTag))
    ensures InTagAfter(a + b, inTag) == InTagAfter(b, InTagAfter(a, inTag))
    decreases |a|
  {
    if |a| == 0 {
      assert a + b == b;
    } else {
      assert (a + b)[1..] == a[1..] + b;
      var next := if inTag then a[0] != '>' else a[0] == '<';
      VisibleConcat(a[1..], b, next);
    }
  }

  /** Text of no `>` read inside a tag shows nothing and stays inside. */
  lemma {:induction false} InsideTag(x: string)
    requires NoCloser(x)
    ensures Visible(x, true) == "" && InTagAfter(x, true)
    decreases |x|
  {
    if |x| > 0 {
      InsideTag(x[1..]);
    }
  }

  /** A whole tag `<x>` shows nothing and ends outside any tag, whatever
      state it is read in. */
  lemma TagText(x: string, inTag: bool)
    requires NoCloser(x)
    ensures Visible("<" + x + ">", inTag) == "" && !InTagAfter("<" + x + ">", inTag)
  {
    var t := "<" + x + ">";
    assert t[1..] == x + ">";
    InsideTag(x);
    VisibleConcat(x, ">", true);
    assert ">"[1..] == "";
  }

  /** Text between two tags shows exactly its own text. */
  lemma WrapText(open: string, inner: string, close: string)
    requires |open| >= 2 && open[0] == '<' && open[|open| - 1] == '>' && NoCloser(open[1..|open| - 1])
    requires |close| >= 2 && close[0] == '<' && close[|close| - 1] == '>' && NoCloser(close[1..|close| - 1])
    ensures TextOf(open + inner + close) == TextOf(inner)
  {
    assert open == "<" + open[1..|open| - 1] + ">";
    assert close == "<" + close[1..|close| - 1] + ">";
    TagText(open[1..|open| - 1], false);
    TagText(close[1..|close| - 1], InTagAfter(inner, false));
    VisibleConcat(open, inner, false);
    VisibleConcat(open + inner, close, false);
  }

  // ---------------------------------------------------------------------
  // Nested spans

  /** A span template applied to the rendering of what it contains. */
  datatype Span =
    | StrongSpan
    | EmSpan
    | CodespanSpan
    | DelSpan
    | LinkSpan(clean: Renderer.UrlCleaner, href: string, title: Option<string>)

  function Apply(span: Span, text: string): string {
    match span
    case StrongSpan => Strong(text)
    case EmSpan => Em(text)
    case CodespanSpan => Codespan(text)
    case DelSpan => Del(text)
    case LinkSpan(clean, href, title) => Link(clean, href, title, text)
  }

  /** Spans nested outermost first around `text`. */
  function Nest(spans: seq<Span>, text: string): string
    decreases |spans|
  {
    if |spans| == 0 then text else Apply(spans[0], Nest(spans[1..], text))
  }

  /** However deeply spans are nested, the text renderer gives back the
      text they enclose. */
  lemma {:induction false} NestedText(spans: seq<Span>, text: string)
    ensures Nest(spans, text) == text
    decreases |spans|
  {
    if |spans| > 0 {
      NestedText(spans[1..], text);
    }
  }

  /** An image inside nested spans: the text renderer gives back the
      image's alternative text, which the HTML renderer writes as the
      `alt` attribute. */
  lemma {:induction false} NestedImage(spans: seq<Span>, opts: Renderer.Options, clean: Renderer.UrlCleaner, href: string,
                    title: Option<string>, alt: string)
    ensures Nest(spans, Image(opts, clean, href, title, alt)) == alt
  {
    NestedText(spans, Image(opts, clean, href, title, alt));
  }
}
