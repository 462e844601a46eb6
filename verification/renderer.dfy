/** The default HTML renderer of src/renderer.ts: one string template per
    block and span, over an immutable options record.

    The collaborators the renderer calls but that are not part of this
    model are parameters: the `highlight` option, and `cleanUrl` with the
    `sanitize` and `baseUrl` options already applied. */
module Renderer {
  import opened Results
  import opened Strings
  import opened Tokens
  import Escape
  import Slugger

  /** The options the renderer and the parser read. */
  datatype Options = Options(
    xhtml: bool,
    headerIds: bool,
    headerPrefix: string,
    langPrefix: string,
    silent: bool)

  /** The values `getDefaults` gives these options. */
  const Defaults: Options := Options(false, true, "", "language-", false)

  /** `options.highlight(code, lang)`; `None` stands for `null` or
      `undefined`. */
  type Highlighter = (string, string) -> Option<string>

  /** `cleanUrl(options.sanitize, options.baseUrl, href)`; `None` stands for
      `null`. */
  type UrlCleaner = string -> Option<string>

  /** The longest prefix of `s` without whitespace. */
  function LeadingWord(s: string): (r: string)
    ensures |r| <= |s| && r == s[..|r|]
    ensures NoSpace(r)
    ensures |r| < |s| ==> IsSpace(s[|r|])
  {
    if |s| == 0 || IsSpace(s[0]) then "" else [s[0]] + LeadingWord(s[1..])
  }

  // The language of a fenced block: the run of non-whitespace the info
  // string starts with (a match of `\S*` at its start), possibly empty.
  function LangOf(info: Option<string>): (lang: string)
    ensures NoSpace(lang)
    ensures info.None? ==> lang == ""
    ensures info.Some? ==> StartsWith(info.value, lang)
    ensures info.Some? && |lang| < |info.value| ==> IsSpace(info.value[|lang|])
  {
    match info
    case None => ""
    case Some(s) => LeadingWord(s)
  }

  /** The `highlight` step of `code`: a result that is neither `null` nor
      the code itself replaces the code and marks it escaped; otherwise the
      code and the caller's flag are kept. */
  function Highlight(highlight: Option<Highlighter>, code: string, lang: string, escaped: bool): (r: (string, bool))
    ensures highlight.None? ==> r == (code, escaped)
    ensures highlight.Some? && highlight.value(code, lang).Some? && highlight.value(code, lang).value != code ==>
              r == (highlight.value(code, lang).value, true)
    ensures r == (code, escaped) || (r.1 && r.0 != code && highlight.Some? && highlight.value(code, lang) == Some(r.0))
  {
    match highlight
    case None => (code, escaped)
    case Some(h) =>
      match h(code, lang)
      case Some(out) => if out != code then (out, true) else (code, escaped)
      case None => (code, escaped)
  }

  /** `code(code, infostring, escaped)` */
  function Code(opts: Options, highlight: Option<Highlighter>, code: string, info: Option<string>,
                escaped: bool): string
  {
    var lang := LangOf(info);
    CodeOpen(opts, lang) + CodeText(highlight, code, lang, escaped) + CodeClose(lang)
  }

  /** The text between the tags of a code block: the highlight step's
      output, escaped unless that step or the caller marked it escaped. */
  function CodeText(highlight: Option<Highlighter>, code: string, lang: string, escaped: bool): string {
    var (text, escaped') := Highlight(highlight, code, lang, escaped);
    if escaped' then text else Escape.Escape(text, true)
  }

  /** What a code block holds between its tags, given the outcome `h` of
      the highlight step: text that the highlighter produced or the caller
      escaped is written as given; otherwise it is the code escaped in
      encode mode, which reads back as the code, holds no markup character,
      and has every `&` begin one of the five entities. */
  predicate CodeBody(h: (string, bool), code: string, body: string) {
    && (h.1 ==> body == h.0)
    && (!h.1 ==> && h.0 == code && Escape.DecodeEntities(body) == code && Escape.NoMarkupChars(body)
                 && Escape.AmpsBeginEntities(body))
  }

  /** The opening tags of a code block: a class attribute, the language
      prefix followed by the language escaped, exactly when there is a
      language. */
  function CodeOpen(opts: Options, lang: string): string {
    if lang == "" then "<pre><code>" else "<pre><code class=\"" + opts.langPrefix + Escape.Escape(lang, true) + "\">"
  }

  function CodeClose(lang: string): string {
    if lang == "" then "</code></pre>" else "</code></pre>\n"
  }

  /** A fenced block gets a class attribute, and a trailing newline, exactly
      when its info string starts with a language; the class value is the
      language prefix and the escaped language; between the tags is the
      body `CodeBody` describes. */
  lemma CodeShape(opts: Options, highlight: Option<Highlighter>, code: string, info: Option<string>, escaped: bool)
    ensures var r := Code(opts, highlight, code, info, escaped);
            && StartsWith(r, "<pre><code")
            && (LangOf(info) != "" <==> StartsWith(r, "<pre><code class=\""))
            && (LangOf(info) != "" <==> EndsWith(r, "\n"))
    ensures var r := Code(opts, highlight, code, info, escaped);
            var lang := LangOf(info);
            var open := CodeOpen(opts, lang);
            var close := CodeClose(lang);
            && |open| + |close| <= |r|
            && StartsWith(r, open) && EndsWith(r, close)
            && CodeBody(Highlight(highlight, code, lang, escaped), code, r[|open|..|r| - |close|])
  {
    CodeTags(opts, highlight, code, info, escaped);
    CodeFrame(opts, highlight, code, info, escaped);
  }

  lemma CodeTags(opts: Options, highlight: Option<Highlighter>, code: string, info: Option<string>, escaped: bool)
    ensures var r := Code(opts, highlight, code, info, escaped);
            && StartsWith(r, "<pre><code")
            && (LangOf(info) != "" <==> StartsWith(r, "<pre><code class=\""))
            && (LangOf(info) != "" <==> EndsWith(r, "\n"))
  {
    if LangOf(info) == "" {
      CodePlain(opts, highlight, code, info, escaped);
    } else {
      CodeClassed(opts, highlight, code, info, escaped);
    }
    TagsOf(Code(opts, highlight, code, info, escaped), LangOf(info) != "");
  }

  lemma TagsOf(r: string, classed: bool)
    requires classed ==> StartsWith(r, "<pre><code class=\"") && EndsWith(r, "\n")
    requires !classed ==> StartsWith(r, "<pre><code>") && !StartsWith(r, "<pre><code class=\"") && !EndsWith(r, "\n")
    ensures StartsWith(r, "<pre><code")
    ensures classed <==> StartsWith(r, "<pre><code class=\"")
    ensures classed <==> EndsWith(r, "\n")
  {
    if classed {
      StartsPrefix(r, "<pre><code class=\"", "<pre><code");
    } else {
      StartsPrefix(r, "<pre><code>", "<pre><code");
    }
  }

  lemma CodeFrame(opts: Options, highlight: Option<Highlighter>, code: string, info: Option<string>, escaped: bool)
    ensures var r := Code(opts, highlight, code, info, escaped);
            var lang := LangOf(info);
            var open := CodeOpen(opts, lang);
            var close := CodeClose(lang);
            && |open| + |close| <= |r|
            && StartsWith(r, open) && EndsWith(r, close)
            && CodeBody(Highlight(highlight, code, lang, escaped), code, r[|open|..|r| - |close|])
  {
    var lang := LangOf(info);
    Between(CodeOpen(opts, lang), CodeText(highlight, code, lang, escaped), CodeClose(lang));
    BodyOf(highlight, code, lang, escaped);
  }

  /** The body written between the tags satisfies `CodeBody`. */
  lemma BodyOf(highlight: Option<Highlighter>, code: string, lang: string, escaped: bool)
    ensures CodeBody(Highlight(highlight, code, lang, escaped), code, CodeText(highlight, code, lang, escaped))
  {
    var h := Highlight(highlight, code, lang, escaped);
    if !h.1 {
      Escape.EncodeRoundTrip(code);
    }
  }

  /** `CodeBody` leaves no freedom: the one body it admits is the given
      text when it is marked escaped and the code escaped in encode mode
      otherwise. */
  lemma BodyDetermined(h: (string, bool), code: string, body: string)
    requires CodeBody(h, code, body)
    ensures body == if h.1 then h.0 else Escape.Escape(code, true)
  {
    if !h.1 {
      Escape.EncodedUnique(body, code);
    }
  }

  /** `open + body + close` starts with `open`, ends with `close`, and
      holds `body` between them. */
  lemma Between(open: string, body: string, close: string)
    ensures var r := open + body + close;
            && |open| + |close| <= |r|
            && StartsWith(r, open) && EndsWith(r, close)
            && r[|open|..|r| - |close|] == body
  {
    Starts(open, body);
    StartsMore(open + body, open, close);
    Ends(open + body, close);
    assert (open + body + close)[|open|..|open| + |body|] == body;
  }

  /** A block without a class attribute has no trailing newline. */
  lemma PlainFrame(body: string)
    ensures var r := "<pre><code>" + body + "</code></pre>";
            && !StartsWith(r, "<pre><code class=\"")
            && !EndsWith(r, "\n")
  {
    var r := "<pre><code>" + body + "</code></pre>";
    Between("<pre><code>", body, "</code></pre>");
    assert r[10] == '>';
    Mismatch(r, "<pre><code class=\"", 10);
    assert r[|r| - 1] == '>';
  }

  lemma CodePlain(opts: Options, highlight: Option<Highlighter>, code: string, info: Option<string>, escaped: bool)
    requires LangOf(info) == ""
    ensures var r := Code(opts, highlight, code, info, escaped);
            && |r| >= 24
            && StartsWith(r, "<pre><code>")
            && !StartsWith(r, "<pre><code class=\"")
            && EndsWith(r, "</code></pre>")
            && !EndsWith(r, "\n")
            && CodeBody(Highlight(highlight, code, "", escaped), code, r[11..|r| - 13])
  {
    var body := CodeText(highlight, code, "", escaped);
    Between("<pre><code>", body, "</code></pre>");
    PlainFrame(body);
    BodyOf(highlight, code, "", escaped);
  }

  lemma CodeClassed(opts: Options, highlight: Option<Highlighter>, code: string, info: Option<string>, escaped: bool)
    requires LangOf(info) != ""
    ensures var r := Code(opts, highlight, code, info, escaped);
            var lang := LangOf(info);
            var open := "<pre><code class=\"" + opts.langPrefix + Escape.Escape(lang, true) + "\">";
            && |open| + 14 <= |r|
            && StartsWith(r, open)
            && StartsWith(r, "<pre><code class=\"")
            && EndsWith(r, "</code></pre>\n")
            && EndsWith(r, "\n")
            && CodeBody(Highlight(highlight, code, lang, escaped), code, r[|open|..|r| - 14])
            && Escape.NoMarkupChars(Escape.Escape(lang, true))
  {
    var r := Code(opts, highlight, code, info, escaped);
    var lang := LangOf(info);
    var body := CodeText(highlight, code, lang, escaped);
    var p := "<pre><code class=\"";
    var open := p + opts.langPrefix + Escape.Escape(lang, true) + "\">";
    Between(open, body, "</code></pre>\n");
    Starts(p, opts.langPrefix + Escape.Escape(lang, true) + "\">");
    assert p + (opts.langPrefix + Escape.Escape(lang, true) + "\">") == open;
    StartsPrefix(r, open, p);
    assert r == open + body + "</code></pre>" + "\n";
    Ends(open + body + "</code></pre>", "\n");
    BodyOf(highlight, code, lang, escaped);
  }

  /** `blockquote(quote)` */
  function Blockquote(quote: string): string {
    "<blockquote>\n" + quote + "</blockquote>\n"
  }

  /** `html(html)`: raw HTML passes through. */
  function Html(html: string): (r: string)
    ensures r == html
  {
    html
  }

  /** The opening tag of a heading of the given level. */
  function HeadingOpen(level: nat, id: Option<string>): string {
    "<h" + NatToString(level) + (if id.Some? then " id=\"" + id.value + "\"" else "") + ">"
  }

  function HeadingClose(level: nat): string {
    "</h" + NatToString(level) + ">\n"
  }

  /** `heading(text, level, raw, slugger)` */
  function Heading(opts: Options, text: string, level: nat, raw: string, seen: Slugger.Seen): (string, Slugger.Seen) {
    if opts.headerIds then
      var slug := Slugger.Slug(seen, raw);
      (HeadingOpen(level, Some(opts.headerPrefix + slug.0)) + text + HeadingClose(level), slug.1)
    else
      (HeadingOpen(level, None) + text + HeadingClose(level), seen)
  }

  /** The opening tag carries an `id` attribute exactly with `headerIds`;
      the id is the prefix followed by the slug of `raw`, and the slugger
      is consulted exactly then. The text follows in a closing tag of the
      same level. */
  lemma HeadingShape(opts: Options, text: string, level: nat, raw: string, seen: Slugger.Seen)
    ensures var r := Heading(opts, text, level, raw, seen);
            var n := "<h" + NatToString(level);
            && (opts.headerIds <==> StartsWith(r.0, n + " id=\""))
            && (!opts.headerIds ==> StartsWith(r.0, n + ">") && r.1 == seen)
            && (opts.headerIds ==>
                  var slug := Slugger.Slug(seen, raw);
                  && StartsWith(r.0, n + " id=\"" + opts.headerPrefix + slug.0 + "\">")
                  && r.1 == slug.1)
            && EndsWith(r.0, text + HeadingClose(level))
  {
    var n := "<h" + NatToString(level);
    if opts.headerIds {
      var slug := Slugger.Slug(seen, raw);
      var id := opts.headerPrefix + slug.0;
      assert HeadingOpen(level, Some(id)) == n + (" id=\"" + id + "\"") + ">";
      IdTag(n, opts.headerPrefix, slug.0, text, HeadingClose(level));
    } else {
      assert HeadingOpen(level, None) == n + "" + ">";
      PlainTag(n, text, HeadingClose(level));
    }
  }

  /** With `headerIds`, the heading's output holds the attribute
      `id="<prefix><slug>"` at the end of its opening tag. */
  lemma HeadingIdAttr(opts: Options, text: string, level: nat, raw: string, seen: Slugger.Seen)
    requires opts.headerIds
    ensures InOrder(Heading(opts, text, level, raw, seen).0,
                    [" id=\"" + opts.headerPrefix + Slugger.Slug(seen, raw).0 + "\">"])
  {
    var n := "<h" + NatToString(level);
    var slug := Slugger.Slug(seen, raw);
    var id := opts.headerPrefix + slug.0;
    assert HeadingOpen(level, Some(id)) == n + (" id=\"" + id + "\"") + ">";
    IdTagAttr(n, opts.headerPrefix, slug.0, text, HeadingClose(level));
  }

  lemma IdTagAttr(n: string, prefix: string, slug: string, text: string, close: string)
    ensures InOrder(n + (" id=\"" + (prefix + slug) + "\"") + ">" + text + close,
                    [" id=\"" + prefix + slug + "\">"])
  {
    var a := " id=\"" + prefix + slug + "\">";
    assert n + (" id=\"" + (prefix + slug) + "\"") + ">" + text + close == n + a + (text + close);
    InOrderOne(n, a, text + close);
  }

  /** An opening tag with an id attribute, then text and a closing tag. */
  lemma IdTag(n: string, prefix: string, slug: string, text: string, close: string)
    ensures var r := n + (" id=\"" + (prefix + slug) + "\"") + ">" + text + close;
            && StartsWith(r, n + " id=\"" + prefix + slug + "\">")
            && StartsWith(r, n + " id=\"")
            && EndsWith(r, text + close)
  {
    var r := n + (" id=\"" + (prefix + slug) + "\"") + ">" + text + close;
    var p := n + " id=\"" + prefix + slug + "\">";
    assert r == p + text + close;
    Starts(p, text);
    StartsMore(p + text, p, close);
    Starts(n + " id=\"", prefix + slug + "\">");
    assert n + " id=\"" + (prefix + slug + "\">") == p;
    StartsPrefix(r, p, n + " id=\"");
    EndsJoin(p, text, close);
  }

  /** An opening tag without attributes, then text and a closing tag. */
  lemma PlainTag(n: string, text: string, close: string)
    ensures var r := n + "" + ">" + text + close;
            && StartsWith(r, n + ">")
            && !StartsWith(r, n + " id=\"")
            && EndsWith(r, text + close)
  {
    var r := n + "" + ">" + text + close;
    var p := n + ">";
    assert r == p + text + close;
    Starts(p, text);
    StartsMore(p + text, p, close);
    assert r[|n|] == '>';
    Mismatch(r, n + " id=\"", |n|);
    EndsJoin(p, text, close);
  }

  /** `hr()` */
  function Hr(opts: Options): string {
    if opts.xhtml then "<hr/>\n" else "<hr>\n"
  }

  /** The opening tag of `list(body, ordered, start)`: `ol` or `ul`, with
      a `start` attribute unless the ordered list starts at 1. */
  function ListOpen(ordered: bool, start: int): string {
    if !ordered then "<ul>\n"
    else if start == 1 then "<ol>\n"
    else "<ol start=\"" + IntToString(start) + "\">\n"
  }

  /** `list(body, ordered, start)` */
  function List(body: string, ordered: bool, start: int): string {
    ListOpen(ordered, start) + body + (if ordered then "</ol>\n" else "</ul>\n")
  }

  /** `ol` exactly for an ordered list, and a `start` attribute exactly
      when an ordered list does not start at 1. */
  lemma ListShape(body: string, ordered: bool, start: int)
    ensures var r := List(body, ordered, start);
            && (ordered <==> StartsWith(r, "<ol"))
            && (!ordered <==> StartsWith(r, "<ul>\n"))
            && (ordered && start != 1 <==> StartsWith(r, "<ol start=\"" + IntToString(start) + "\">\n"))
            && (ordered && start == 1 ==> StartsWith(r, "<ol>\n"))
            && EndsWith(r, if ordered then "</ol>\n" else "</ul>\n")
  {
    var r := List(body, ordered, start);
    var n := IntToString(start);
    ListFrame(body, ordered, start);
    if !ordered {
      UlTags(r, n);
    } else if start == 1 {
      OlTags(r, n);
    } else {
      OlStartTags(r, n);
    }
  }

  /** A list is its opening tag, the body and the closing tag. */
  lemma ListFrame(body: string, ordered: bool, start: int)
    ensures StartsWith(List(body, ordered, start), ListOpen(ordered, start))
    ensures EndsWith(List(body, ordered, start), if ordered then "</ol>\n" else "</ul>\n")
  {
    var open := ListOpen(ordered, start);
    var close := if ordered then "</ol>\n" else "</ul>\n";
    Starts(open, body);
    StartsMore(open + body, open, close);
    Ends(open + body, close);
  }

  lemma UlTags(r: string, n: string)
    requires StartsWith(r, "<ul>\n")
    ensures !StartsWith(r, "<ol") && !StartsWith(r, "<ol start=\"" + n + "\">\n")
  {
    assert r[1] == 'u';
    Mismatch(r, "<ol", 1);
    Mismatch(r, "<ol start=\"" + n + "\">\n", 1);
  }

  lemma OlTags(r: string, n: string)
    requires StartsWith(r, "<ol>\n")
    ensures StartsWith(r, "<ol") && !StartsWith(r, "<ul>\n") && !StartsWith(r, "<ol start=\"" + n + "\">\n")
  {
    assert r[1] == 'o' && r[3] == '>';
    Mismatch(r, "<ol start=\"" + n + "\">\n", 3);
    StartsPrefix(r, "<ol>\n", "<ol");
    Mismatch(r, "<ul>\n", 1);
  }

  lemma OlStartTags(r: string, n: string)
    requires StartsWith(r, "<ol start=\"" + n + "\">\n")
    ensures StartsWith(r, "<ol") && !StartsWith(r, "<ul>\n")
  {
    var open := "<ol start=\"" + n + "\">\n";
    assert open[..3] == "<ol";
    StartsPrefix(r, open, "<ol");
    assert r[1] == 'o';
    Mismatch(r, "<ul>\n", 1);
  }

  /** `listitem(text)`. The parser also passes the task and checked flags;
      the template ignores them. */
  function ListItem(text: string, task: bool, checked: bool): string {
    "<li>" + text + "</li>\n"
  }

  /** The item's output is its text in `li` tags, whatever the task and
      checked flags. */
  lemma ListItemFlags(text: string, task: bool, checked: bool)
    ensures ListItem(text, task, checked) == ListItem(text, false, false)
    ensures StartsWith(ListItem(text, task, checked), "<li>" + text)
    ensures EndsWith(ListItem(text, task, checked), text + "</li>\n")
  {
    Starts("<li>" + text, "</li>\n");
    EndsJoin("<li>", text, "</li>\n");
  }

  function CheckedAttr(checked: bool): string {
    if checked then "checked=\"\" " else ""
  }

  function SelfClose(opts: Options): string {
    if opts.xhtml then " /" else ""
  }

  /** `checkbox(checked)` */
  function Checkbox(opts: Options, checked: bool): string {
    "<input " + CheckedAttr(checked) + "disabled=\"\" type=\"checkbox\"" + SelfClose(opts) + "> "
  }

  /** The box carries `checked` exactly when the item is checked. */
  lemma CheckboxChecked(opts: Options, checked: bool)
    ensures checked <==> StartsWith(Checkbox(opts, checked), "<input checked=\"\" ")
  {
    var r := Checkbox(opts, checked);
    var a := "<input " + CheckedAttr(checked);
    var b := a + "disabled=\"\" type=\"checkbox\"";
    var c := b + SelfClose(opts);
    assert r == c + "> ";
    if checked {
      var p := "<input checked=\"\" ";
      assert a == p;
      StartsMore(b, p, SelfClose(opts));
      StartsMore(c, p, "> ");
      StartsMore(a, p, "disabled=\"\" type=\"checkbox\"");
    } else {
      assert a == "<input ";
      assert b[7] == 'd';
      Starts(b, SelfClose(opts));
      Starts(c, "> ");
      assert r[7] == 'd';
      Mismatch(r, "<input checked=\"\" ", 7);
    }
  }

  /** The box closes with a slash exactly in XHTML mode. */
  lemma CheckboxClose(opts: Options, checked: bool)
    ensures opts.xhtml <==> EndsWith(Checkbox(opts, checked), " /> ")
    ensures EndsWith(Checkbox(opts, checked), "> ")
  {
    var r := Checkbox(opts, checked);
    var b := "<input " + CheckedAttr(checked) + "disabled=\"\" type=\"checkbox\"";
    Ends(b + SelfClose(opts), "> ");
    Ends("<input " + CheckedAttr(checked), "disabled=\"\" type=\"checkbox\"");
    assert b[|b| - 1] == '"';
    if opts.xhtml {
      assert r == b + " /> ";
      Ends(b, " /> ");
    } else {
      assert r == b + "> ";
      assert r[|r| - 3] == '"';
    }
  }

  /** `paragraph(text)` */
  function Paragraph(text: string): string {
    "<p>" + text + "</p>\n"
  }

  /** `table(header, body)` */
  function Table(header: string, body: string): string {
    TableHead(header) + TableBody(body) + "</table>\n"
  }

  function TableHead(header: string): string {
    "<table>\n<thead>\n" + header + "</thead>\n"
  }

  function TableBody(body: string): string {
    if body != "" then "<tbody>" + body + "</tbody>" else ""
  }

  /** The header always sits in `<thead>`; `<tbody>` appears exactly around
      a non-empty body, which follows the head and is followed by the
      closing tags. */
  lemma TableShape(header: string, body: string)
    ensures var r := Table(header, body);
            var head := "<table>\n<thead>\n" + header + "</thead>\n";
            && StartsWith(r, head)
            && EndsWith(r, "</table>\n")
            && (body != "" <==> StartsWith(r[|head|..], "<tbody>"))
            && (body != "" ==> r[|head|..] == "<tbody>" + body + "</tbody></table>\n")
            && (body == "" ==> r == head + "</table>\n")
  {
    var head := TableHead(header);
    Between(head, TableBody(body), "</table>\n");
    if body != "" {
      FullBody(head, body);
    } else {
      EmptyBody(head);
    }
  }

  lemma FullBody(head: string, body: string)
    ensures var r := head + ("<tbody>" + body + "</tbody>") + "</table>\n";
            && StartsWith(r[|head|..], "<tbody>")
            && r[|head|..] == "<tbody>" + body + "</tbody></table>\n"
  {
    var r := head + ("<tbody>" + body + "</tbody>") + "</table>\n";
    assert r == head + ("<tbody>" + (body + "</tbody></table>\n"));
    assert r[|head|..] == "<tbody>" + (body + "</tbody></table>\n");
    Starts("<tbody>", body + "</tbody></table>\n");
  }

  lemma EmptyBody(head: string)
    ensures var r := head + "" + "</table>\n";
            && !StartsWith(r[|head|..], "<tbody>")
            && r == head + "</table>\n"
  {
    var r := head + "" + "</table>\n";
    assert r[|head|..] == "</table>\n";
    Mismatch(r[|head|..], "<tbody>", 1);
  }

  /** `tablerow(content)` */
  function TableRow(content: string): string {
    "<tr>\n" + content + "</tr>\n"
  }

  /** The flags `tablecell` receives. */
  datatype CellFlags = CellFlags(header: bool, align: Align)

  function AlignName(a: Align): string
    requires a != NoAlign
  {
    match a
    case Left => "left"
    case Center => "center"
    case Right => "right"
  }

  function CellTag(flags: CellFlags): string {
    if flags.header then "th" else "td"
  }

  function AlignAttr(a: Align): string {
    if a != NoAlign then " align=\"" + AlignName(a) + "\"" else ""
  }

  /** `tablecell(content, flags)` */
  function TableCell(content: string, flags: CellFlags): string {
    "<" + CellTag(flags) + AlignAttr(flags.align) + ">" + content + "</" + CellTag(flags) + ">\n"
  }

  /** `th` exactly for a header cell, and an `align` attribute exactly when
      the column has an alignment. */
  lemma TableCellShape(content: string, flags: CellFlags)
    ensures var r := TableCell(content, flags);
            && (flags.header <==> StartsWith(r, "<th"))
            && (!flags.header <==> StartsWith(r, "<td"))
            && (flags.align != NoAlign <==> StartsWith(r[3..], " align=\""))
            && (flags.align != NoAlign ==> StartsWith(r[3..], " align=\"" + AlignName(flags.align)))
  {
    var r := TableCell(content, flags);
    var tag := CellTag(flags);
    var attr := AlignAttr(flags.align);
    var a := "<" + tag;
    var b := a + attr;
    var c := b + ">";
    var d := c + content;
    var e := d + "</";
    var f := e + tag;
    assert r == f + ">\n";
    Starts(a, attr);
    StartsMore(b, a, ">");
    StartsMore(c, a, content);
    StartsMore(d, a, "</");
    StartsMore(e, a, tag);
    StartsMore(f, a, ">\n");
    Starts(b, ">");
    StartsMore(c, b, content);
    StartsMore(d, b, "</");
    StartsMore(e, b, tag);
    StartsMore(f, b, ">\n");
    StartsAfter(r, a, attr);
    assert r[3] == c[3];
    if flags.align != NoAlign {
      Starts(" align=\"" + AlignName(flags.align), "\"");
      StartsPrefix(r[3..], attr, " align=\"" + AlignName(flags.align));
      Starts(" align=\"", AlignName(flags.align));
      StartsPrefix(r[3..], " align=\"" + AlignName(flags.align), " align=\"");
    } else {
      assert r[3] == '>';
      Mismatch(r[3..], " align=\"", 0);
    }
    assert r[2] == a[2];
    if flags.header {
      Mismatch(r, "<td", 2);
    } else {
      Mismatch(r, "<th", 2);
    }
  }

  // ---------------------------------------------------------------------
  // Span templates

  /** `strong(text)` */
  function Strong(text: string): string {
    "<strong>" + text + "</strong>"
  }

  /** `em(text)` */
  function Em(text: string): string {
    "<em>" + text + "</em>"
  }

  /** `codespan(text)` */
  function Codespan(text: string): string {
    "<code>" + text + "</code>"
  }

  /** `br()` */
  function Br(opts: Options): string {
    if opts.xhtml then "<br/>" else "<br>"
  }

  /** The `xhtml` option closes the empty elements with `/>`: `hr` and
      `br` here, the checkbox in `CheckboxClose`. */
  lemma SelfClosing(opts: Options)
    ensures opts.xhtml <==> EndsWith(Hr(opts), "/>\n")
    ensures opts.xhtml <==> EndsWith(Br(opts), "/>")
  {
    if !opts.xhtml {
      assert Hr(opts)[|Hr(opts)| - 3] == 'r';
      assert Br(opts)[|Br(opts)| - 2] == 'r';
    }
  }

  /** `del(text)` */
  function Del(text: string): string {
    "<del>" + text + "</del>"
  }

  /** A title attribute is written only for a truthy title: present and
      not empty. */
  predicate Truthy(title: Option<string>) {
    title.Some? && title.value != ""
  }

  function TitleAttr(title: Option<string>): string {
    if Truthy(title) then " title=\"" + title.value + "\"" else ""
  }

  /** `link(href, title, text)` */
  function Link(clean: UrlCleaner, href: string, title: Option<string>, text: string): string {
    match clean(href)
    case None => text
    case Some(url) => "<a href=\"" + Escape.Escape(url, false) + "\"" + TitleAttr(title) + ">" + text + "</a>"
  }

  /** The bare text when `cleanUrl` refuses the URL; otherwise an anchor
      whose `href` is escaped in no-encode mode, so that it cannot close
      its attribute, and whose title attribute is there exactly for a
      truthy title. */
  lemma LinkShape(clean: UrlCleaner, href: string, title: Option<string>, text: string)
    ensures clean(href).None? ==> Link(clean, href, title, text) == text
    ensures clean(href).Some? ==>
              var r := Link(clean, href, title, text);
              var attr := Escape.Escape(clean(href).value, false);
              var open := "<a href=\"" + attr + "\"";
              && Escape.NoMarkupChars(attr)
              && StartsWith(r, open)
              && (Truthy(title) <==> StartsWith(r[|open|..], " title=\""))
              && EndsWith(r, text + "</a>")
  {
    if clean(href).Some? {
      var r := Link(clean, href, title, text);
      var attr := Escape.Escape(clean(href).value, false);
      var open := "<a href=\"" + attr + "\"";
      var t := TitleAttr(title);
      var a := open + t;
      var b := a + ">";
      var c := b + text;
      assert r == c + "</a>";
      Starts(open, t);
      StartsMore(a, open, ">");
      StartsMore(b, open, text);
      StartsMore(c, open, "</a>");
      Starts(a, ">");
      StartsMore(b, a, text);
      StartsMore(c, a, "</a>");
      StartsAfter(r, open, t);
      if Truthy(title) {
        Starts(" title=\"", title.value);
        StartsMore(" title=\"" + title.value, " title=\"", "\"");
        StartsPrefix(r[|open|..], t, " title=\"");
      } else {
        Starts(b, text);
        StartsMore(c, b, "</a>");
        assert r[|open|] == b[|open|] == '>';
        Mismatch(r[|open|..], " title=\"", 0);
      }
      EndsJoin(b, text, "</a>");
    }
  }

  /** `image(href, title, text)` */
  function Image(opts: Options, clean: UrlCleaner, href: string, title: Option<string>, text: string): string {
    match clean(href)
    case None => text
    case Some(url) =>
      "<img src=\"" + url + "\" alt=\"" + text + "\"" + TitleAttr(title) + (if opts.xhtml then "/>" else ">")
  }

  /** The bare text when `cleanUrl` refuses the URL; otherwise an `img`
      whose `alt` is the text, with a title attribute exactly for a truthy
      title and the self-closing slash exactly in XHTML mode. */
  lemma ImageShape(opts: Options, clean: UrlCleaner, href: string, title: Option<string>, text: string)
    ensures clean(href).None? ==> Image(opts, clean, href, title, text) == text
    ensures clean(href).Some? ==>
              var r := Image(opts, clean, href, title, text);
              var open := "<img src=\"" + clean(href).value + "\" alt=\"" + text + "\"";
              && StartsWith(r, open)
              && (Truthy(title) <==> StartsWith(r[|open|..], " title=\""))
              && (opts.xhtml <==> EndsWith(r, "/>"))
  {
    if clean(href).Some? {
      var r := Image(opts, clean, href, title, text);
      var open := "<img src=\"" + clean(href).value + "\" alt=\"" + text + "\"";
      var t := TitleAttr(title);
      var close := if opts.xhtml then "/>" else ">";
      var a := open + t;
      assert r == a + close;
      Starts(open, t);
      StartsMore(a, open, close);
      Starts(a, close);
      StartsAfter(r, open, t);
      if Truthy(title) {
        Starts(" title=\"", title.value);
        StartsMore(" title=\"" + title.value, " title=\"", "\"");
        StartsPrefix(r[|open|..], t, " title=\"");
      } else {
        assert r[|open|] == close[0];
        Mismatch(r[|open|..], " title=\"", 0);
      }
      Ends(a, close);
      assert a[|a| - 1] == '"' by {
        Ends(open, t);
        if Truthy(title) {
          Ends(" title=\"" + title.value, "\"");
        } else {
          Ends("<img src=\"" + clean(href).value + "\" alt=\"" + text, "\"");
        }
      }
      if !opts.xhtml {
        assert r[|r| - 2] == '"';
      }
    }
  }

  /** `text(text)` */
  function Text(text: string): (r: string)
    ensures r == text
  {
    text
  }
}
