/** The parser of src/parser.ts: it walks the block tokens front to back
    and joins what the renderer makes of each.

    The source keeps the remaining tokens in a reversed array and pops
    them; here the remaining tokens are a sequence whose head is the next
    token, and every step returns the output together with the tokens it
    left and the slugger table. The inline lexers, `unescape` and the
    `highlight` option are parameters (`Env`). Running out of tokens
    inside a block, where the source reads the `type` of `undefined` and
    throws a `TypeError`, is the error `Truncated`. */
module Parser {
  import opened Results
  import opened Strings
  import opened Tokens
  import Renderer
  import Slugger

  /** What the parser works with besides the tokens. */
  datatype Env = Env(
    opts: Renderer.Options,
    inline: string -> string,      // the inline parser's output
    inlineText: string -> string,  // the inline parser's text output, the lexer with the text renderer
    unescape: string -> string,    // `unescape` of the lexer's helpers
    highlight: Option<Renderer.Highlighter>)

  datatype ParseError =
    | Unrecognized(typeName: string)  // the `Error` thrown for an unknown token type
    | Truncated                       // the `TypeError` of reading past the last token

  /** The message of the error thrown for a token type the parser has no
      case for. */
  function Message(e: ParseError): string {
    match e
    case Unrecognized(name) => "Token with \"" + name + "\" type was not found."
    case Truncated => "Cannot read property 'type' of undefined"
  }

  /** The output of a step, the tokens it left, and the slugger table. */
  datatype Step = Step(out: string, rest: seq<Token>, seen: Slugger.Seen)

  predicate IsSuffix(a: seq<Token>, b: seq<Token>) {
    |a| <= |b| && a == b[|b| - |a|..]
  }

  lemma SuffixTrans(a: seq<Token>, b: seq<Token>, c: seq<Token>)
    requires IsSuffix(a, b) && IsSuffix(b, c)
    ensures IsSuffix(a, c)
  {
    assert c[|c| - |b|..][|b| - |a|..] == c[|c| - |a|..];
  }

  // ---------------------------------------------------------------------
  // Termination measure: a list item's start token weighs two, because a
  // loose task item may put a text token in front of what follows it.

  function Weight(t: Token): nat {
    if t.ListItemStart? then 2 else 1
  }

  function W(s: seq<Token>): nat
    decreases |s|
  {
    if |s| == 0 then 0 else Weight(s[0]) + W(s[1..])
  }

  lemma {:induction false} WDrop(b: seq<Token>, k: nat)
    requires k <= |b|
    ensures W(b[k..]) <= W(b)
    ensures k > 0 ==> W(b[k..]) < W(b)
    decreases k
  {
    if k > 0 {
      assert b[k..] == b[1..][k - 1..];
      WDrop(b[1..], k - 1);
    }
  }

  lemma WSuffix(a: seq<Token>, b: seq<Token>)
    requires IsSuffix(a, b)
    ensures W(a) <= W(b)
    ensures |a| < |b| ==> W(a) < W(b)
  {
    WDrop(b, |b| - |a|);
  }

  // ---------------------------------------------------------------------
  // Text runs

  /** The text of a text token. */
  function TextOf(t: Token): string {
    if t.Text? then t.text else ""
  }

  /** `'\n' + text` for each of the first `m` tokens of `s`. */
  function Lines(s: seq<Token>, m: nat): seq<string>
    requires m <= |s|
  {
    seq(m, i requires 0 <= i < m => "\n" + TextOf(s[i]))
  }

  lemma LinesCons(s: seq<Token>, m: nat)
    requires 1 <= m <= |s|
    ensures Concat(Lines(s, m)) == "\n" + TextOf(s[0]) + Concat(Lines(s[1..], m - 1))
  {
    var lines := Lines(s, m);
    assert lines[1..] == Lines(s[1..], m - 1);
  }

  /** The loop of `parseText` that keeps reading while the next token is
      text: `body` with `'\n' + text` appended for each text token at the head
      of `s`, and the tokens after them. */
  function JoinText(body: string, s: seq<Token>): (r: (string, seq<Token>))
    ensures IsSuffix(r.1, s)
    ensures |r.1| == 0 || !r.1[0].Text?
    decreases |s|
  {
    if |s| > 0 && s[0].Text? then
      var r := JoinText(body + "\n" + s[0].text, s[1..]);
      assert s[1..][|s| - 1 - |r.1|..] == s[|s| - |r.1|..];
      r
    else
      (body, s)
  }

  /** The run `JoinText` takes is exactly the text tokens at the head of
      the stream, and the body gains one line per token, in order. */
  lemma {:induction false} JoinTextLines(body: string, s: seq<Token>)
    ensures var r := JoinText(body, s);
            && (forall i :: 0 <= i < |s| - |r.1| ==> s[i].Text?)
            && r.0 == body + Concat(Lines(s, |s| - |r.1|))
    decreases |s|
  {
    var r := JoinText(body, s);
    if |s| > 0 && s[0].Text? {
      var body' := body + "\n" + s[0].text;
      var r' := JoinText(body', s[1..]);
      assert r == r';
      JoinTextLines(body', s[1..]);
      var m := |s| - |r.1|;
      assert m - 1 == |s[1..]| - |r'.1|;
      LinesCons(s, m);
      var c := Concat(Lines(s[1..], m - 1));
      assert body' + c == body + ("\n" + s[0].text + c);
    } else {
      assert r == (body, s);
      assert Lines(s, 0) == [];
      assert body + Concat([]) == body;
    }
  }

  /** `parseText()` after `text` was read: the run of text tokens that
      follows, joined by newlines and run through the inline lexer. */
  function ParseText(env: Env, text: string, s: seq<Token>): (r: (string, seq<Token>))
    ensures IsSuffix(r.1, s)
    ensures |r.1| == 0 || !r.1[0].Text?
    ensures r.0 == env.inline(JoinText(text, s).0)
  {
    var (body, rest) := JoinText(text, s);
    (env.inline(body), rest)
  }

  // ---------------------------------------------------------------------
  // Tables

  /** The alignment of column `j`, with an index past the end reading
      `undefined`, which renders like no alignment. */
  function AlignAt(align: seq<Align>, j: nat): Align {
    if j < |align| then align[j] else NoAlign
  }

  /** The cells of one table row, each through the inline lexer. */
  function CellList(env: Env, row: seq<string>, align: seq<Align>, header: bool): (r: seq<string>)
    ensures |r| == |row|
  {
    seq(|row|, j requires 0 <= j < |row| =>
      Renderer.TableCell(env.inline(row[j]), Renderer.CellFlags(header, AlignAt(align, j))))
  }

  /** The `for (j = ...)` loop gathering the cells of a row, from `j` on. */
  function RowCells(env: Env, row: seq<string>, align: seq<Align>, header: bool, j: nat): (r: string)
    requires j <= |row|
    ensures r == Concat(CellList(env, row, align, header)[j..])
    decreases |row| - j
  {
    if j == |row| then ""
    else
      var cells := CellList(env, row, align, header);
      assert cells[j..][1..] == cells[j + 1..];
      cells[j] + RowCells(env, row, align, header, j + 1)
  }

  /** The body rows of a table, from row `i` on. */
  function BodyRows(env: Env, cells: seq<seq<string>>, align: seq<Align>, i: nat): (r: string)
    requires i <= |cells|
    ensures r == Concat(seq(|cells| - i, k requires 0 <= k < |cells| - i =>
                   Renderer.TableRow(Concat(CellList(env, cells[i + k], align, false)))))
    decreases |cells| - i
  {
    var rows := seq(|cells| - i, k requires 0 <= k < |cells| - i =>
                  Renderer.TableRow(Concat(CellList(env, cells[i + k], align, false))));
    if i == |cells| then
      assert rows == [];
      ""
    else
      var more := seq(|cells| - (i + 1), k requires 0 <= k < |cells| - (i + 1) =>
                    Renderer.TableRow(Concat(CellList(env, cells[i + 1 + k], align, false))));
      assert rows[1..] == more;
      Renderer.TableRow(RowCells(env, cells[i], align, false, 0)) + BodyRows(env, cells, align, i + 1)
  }

  /** The `'table'` case: the header row with header cells, then one row
      per body row, each cell aligned as its column. */
  function TableOut(env: Env, header: seq<string>, align: seq<Align>, cells: seq<seq<string>>): string {
    Renderer.Table(Renderer.TableRow(RowCells(env, header, align, true, 0)), BodyRows(env, cells, align, 0))
  }

  /** The layout of a table: a header row of one header cell per header
      text, then one row of body cells per body row, each cell aligned as
      its column. */
  lemma TableLayout(env: Env, header: seq<string>, align: seq<Align>, cells: seq<seq<string>>)
    ensures var head := CellList(env, header, align, true);
            var rows := seq(|cells|, i requires 0 <= i < |cells| =>
                          Renderer.TableRow(Concat(CellList(env, cells[i], align, false))));
            && |head| == |header| && |rows| == |cells|
            && TableOut(env, header, align, cells) == Renderer.Table(Renderer.TableRow(Concat(head)), Concat(rows))
  {
    var rows := seq(|cells|, i requires 0 <= i < |cells| =>
                  Renderer.TableRow(Concat(CellList(env, cells[i], align, false))));
    var rows0 := seq(|cells| - 0, k requires 0 <= k < |cells| - 0 =>
                   Renderer.TableRow(Concat(CellList(env, cells[0 + k], align, false))));
    assert rows0 == rows;
    assert CellList(env, header, align, true)[0..] == CellList(env, header, align, true);
  }

  // ---------------------------------------------------------------------
  // List items

  /** What a task item puts in front of its content: in a tight item the
      checkbox goes straight into the body; in a loose one it goes into
      the text token that follows, or into a new text token when none
      does. Returns the body prefix and the stream the item reads. */
  function TaskStart(opts: Renderer.Options, task: bool, checked: bool, loose: bool, rest: seq<Token>)
    : (r: (string, seq<Token>))
    ensures W(r.1) <= W(rest) + 1
    ensures !task ==> r == ("", rest)
    ensures task && !loose ==> r == (Renderer.Checkbox(opts, checked), rest)
    ensures task && loose ==> r.0 == "" && |r.1| > 0 && r.1[0].Text? && |r.1| - 1 <= |rest| && r.1[1..] == rest[|rest| - (|r.1| - 1)..]
    ensures task && loose && |rest| > 0 && rest[0].Text? ==>
              r.1 == [Text(Renderer.Checkbox(opts, checked) + " " + rest[0].text)] + rest[1..]
    ensures task && loose && (|rest| == 0 || !rest[0].Text?) ==>
              r.1 == [Text(Renderer.Checkbox(opts, checked))] + rest
  {
    var box := Renderer.Checkbox(opts, checked);
    if !task then ("", rest)
    else if !loose then (box, rest)
    else if |rest| > 0 && rest[0].Text? then
      var s := [Text(box + " " + rest[0].text)] + rest[1..];
      assert s[1..] == rest[1..];
      assert W(s) == W(rest);
      ("", s)
    else
      var s := [Text(box)] + rest;
      assert s[1..] == rest;
      ("", s)
  }

  // ---------------------------------------------------------------------
  // The token loop

  /** The `default` case: in silent mode the message goes to the console
      and `tok` returns `undefined`, which the caller's `+=` writes out as
      the text `undefined`; otherwise the error is thrown. */
  function Unknown(env: Env, t: Token, rest: seq<Token>, seen: Slugger.Seen): (r: Result<Step, ParseError>)
    ensures r.Err? <==> !env.opts.silent
    ensures r.Err? ==> r.error.Unrecognized?
    ensures r.Ok? ==> r.value.rest == rest && r.value.seen == seen
  {
    if env.opts.silent then Ok(Step("undefined", rest, seen)) else Err(Unrecognized(TypeName(t)))
  }

  /** `tok()` for a token that is not a start token: every case but the
      three block cases. */
  function Single(env: Env, t: Token, rest: seq<Token>, seen: Slugger.Seen): (r: Result<Step, ParseError>)
    requires !IsStart(t)
    ensures r.Ok? ==> IsSuffix(r.value.rest, rest) && seen.Keys <= r.value.seen.Keys
    ensures r.Ok? && !t.Heading? ==> r.value.seen == seen
    ensures env.opts.silent ==> !(r.Err? && r.error.Unrecognized?)
  {
    assert IsSuffix(rest, rest);
    match t
    case Space => Ok(Step("", rest, seen))
    case Hr => Ok(Step(Renderer.Hr(env.opts), rest, seen))
    case Heading(depth, text) =>
      var (h, seen') := Renderer.Heading(env.opts, env.inline(text), depth, env.unescape(env.inlineText(text)), seen);
      Ok(Step(h, rest, seen'))
    case Code(text, lang, escaped) =>
      Ok(Step(Renderer.Code(env.opts, env.highlight, text, lang, escaped), rest, seen))
    case Table(header, align, cells) =>
      Ok(Step(TableOut(env, header, align, cells), rest, seen))
    case Html(text) => Ok(Step(Renderer.Html(text), rest, seen))
    case Paragraph(text) => Ok(Step(Renderer.Paragraph(env.inline(text)), rest, seen))
    case Text(text) =>
      var (body, rest') := ParseText(env, text, rest);
      Ok(Step(Renderer.Paragraph(body), rest', seen))
    case _ => Unknown(env, t, rest, seen)
  }

  /** `tok()` for the token `t`, with `rest` the tokens after it. */
  function Tok(env: Env, t: Token, rest: seq<Token>, seen: Slugger.Seen): (r: Result<Step, ParseError>)
    ensures r.Ok? ==> IsSuffix(r.value.rest, rest) && seen.Keys <= r.value.seen.Keys
    ensures env.opts.silent ==> !(r.Err? && r.error.Unrecognized?)
    decreases W(rest) + Weight(t), 1
  {
    match t
    case BlockquoteStart =>
      var b :- Run(env, false, Some(BlockquoteEnd), rest, seen);
      Ok(Step(Renderer.Blockquote(b.out), b.rest, b.seen))
    case ListStart(ordered, start) =>
      var b :- Run(env, false, Some(ListEnd), rest, seen);
      Ok(Step(Renderer.List(b.out, ordered, start), b.rest, b.seen))
    case ListItemStart(task, checked, loose) => Item(env, task, checked, loose, rest, seen)
    case _ => Single(env, t, rest, seen)
  }

  /** What an item's loop leaves is a suffix of the tokens after the start
      token, also when a checkbox token was put in front of them. */
  lemma SpliceSuffix(a: seq<Token>, s: seq<Token>, rest: seq<Token>)
    requires IsSuffix(a, s) && |a| < |s|
    requires s == rest || (|s| - 1 <= |rest| && s[1..] == rest[|rest| - (|s| - 1)..])
    ensures IsSuffix(a, rest)
  {
    if s != rest {
      assert s[1..][|s| - 1 - |a|..] == s[|s| - |a|..];
      SuffixTrans(a, s[1..], rest);
    }
  }

  /** The `'list_item_start'` case. */
  function Item(env: Env, task: bool, checked: bool, loose: bool, rest: seq<Token>, seen: Slugger.Seen)
    : (r: Result<Step, ParseError>)
    ensures r.Ok? ==> IsSuffix(r.value.rest, rest) && seen.Keys <= r.value.seen.Keys
    ensures env.opts.silent ==> !(r.Err? && r.error.Unrecognized?)
    decreases W(rest) + 2, 0
  {
    var (prefix, s) := TaskStart(env.opts, task, checked, loose, rest);
    var b :- Run(env, !loose, Some(ListItemEnd), s, seen);
    SpliceSuffix(b.rest, s, rest);
    Ok(Step(Renderer.ListItem(prefix + b.out, task, checked), b.rest, b.seen))
  }

  /** One turn of the loops below at the head of `s`: in a tight list
      item a text run is gathered without a paragraph; everything else goes
      through `tok()`. */
  function First(env: Env, tight: bool, s: seq<Token>, seen: Slugger.Seen): (r: Result<Step, ParseError>)
    requires |s| > 0
    ensures r.Ok? ==> IsSuffix(r.value.rest, s[1..]) && seen.Keys <= r.value.seen.Keys
    ensures env.opts.silent ==> !(r.Err? && r.error.Unrecognized?)
    decreases W(s), 2
  {
    if tight && s[0].Text? then
      var (body, rest) := ParseText(env, s[0].text, s[1..]);
      Ok(Step(body, rest, seen))
    else
      Tok(env, s[0], s[1..], seen)
  }

  /** The loops of `parse` and of the block cases: step through `s` until
      the token `stop` (consumed, not rendered) or, with no `stop`, until
      the tokens run out. `tight` is the loop of a tight list item. */
  function Run(env: Env, tight: bool, stop: Option<Token>, s: seq<Token>, seen: Slugger.Seen): (r: Result<Step, ParseError>)
    ensures r.Ok? ==> IsSuffix(r.value.rest, s) && seen.Keys <= r.value.seen.Keys
    ensures r.Ok? && stop.Some? ==> |r.value.rest| < |s|
    ensures r.Ok? && stop.None? ==> r.value.rest == []
    ensures env.opts.silent ==> !(r.Err? && r.error.Unrecognized?)
    decreases W(s), 3
  {
    if |s| == 0 then
      if stop.None? then Ok(Step("", [], seen)) else Err(Truncated)
    else if stop == Some(s[0]) then
      Ok(Step("", s[1..], seen))
    else
      var first :- First(env, tight, s, seen);
      TurnShrinks(s, first.rest);
      var more :- Run(env, tight, stop, first.rest, first.seen);
      TurnSuffix(s, first.rest, more.rest);
      Ok(Step(first.out + more.out, more.rest, more.seen))
  }

  /** What a turn leaves weighs less than the stream it started on. */
  lemma TurnShrinks(s: seq<Token>, a: seq<Token>)
    requires |s| > 0 && IsSuffix(a, s[1..])
    ensures W(a) < W(s)
  {
    WSuffix(a, s[1..]);
  }

  /** What the loop leaves after a turn is a proper suffix of the stream. */
  lemma TurnSuffix(s: seq<Token>, a: seq<Token>, b: seq<Token>)
    requires |s| > 0 && IsSuffix(a, s[1..]) && IsSuffix(b, a)
    ensures IsSuffix(b, s) && |b| < |s|
  {
    SuffixTrans(b, a, s[1..]);
    SuffixTrans(b, s[1..], s);
  }

  /** `Parser.parse(tokens, options)`: a fresh slugger, then `tok()` for
      every token of the stream. */
  function Parse(env: Env, tokens: seq<Token>): (r: Result<string, ParseError>)
    ensures env.opts.silent ==> !(r.Err? && r.error.Unrecognized?)
  {
    var done :- Run(env, false, None, tokens, map[]);
    Ok(done.out)
  }
}
