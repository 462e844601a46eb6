/** The parser read against the nesting of its input.

    `Forest` renders a forest of blocks by structural recursion: a nest is
    its wrapper around the rendering of its children, a run of text leaves
    is one text block, and every other leaf is rendered on its own. The
    main theorem, `ParseForest`, says that the parser, which walks the flat
    token stream, computes exactly this for the stream of any forest. */
module BlockTree {
  import opened Results
  import opened Strings
  import opened Tokens
  import Renderer
  import Slugger
  import opened Parser

  /** What rendering a part of the document gives: its output and the
      slugger table after it. */
  datatype Rendered = Rendered(out: string, seen: Slugger.Seen)

  // ---------------------------------------------------------------------
  // The structural renderer

  function LeafText(n: Node): string {
    if n.Leaf? && n.token.Text? then n.token.text else ""
  }

  predicate IsTextLeaf(n: Node) {
    n.Leaf? && n.token.Text?
  }

  /** The number of text leaves a forest starts with. */
  function LeadingTexts(f: seq<Node>): (m: nat)
    ensures m <= |f|
    decreases |f|
  {
    if |f| > 0 && IsTextLeaf(f[0]) then 1 + LeadingTexts(f[1..]) else 0
  }

  /** How many nodes the block at the head of `f` takes: a text leaf takes
      the text leaves that follow it too. */
  function Next(f: seq<Node>): (k: nat)
    requires |f| > 0
    ensures 1 <= k <= |f|
  {
    if IsTextLeaf(f[0]) then 1 + LeadingTexts(f[1..]) else 1
  }

  /** `'\n' + text` for each node of `g`. */
  function TextLines(g: seq<Node>): seq<string> {
    seq(|g|, i requires 0 <= i < |g| => "\n" + LeafText(g[i]))
  }

  /** Whether the content of a block is read by the loop of a tight item. */
  predicate Tight(o: Opener) {
    o.Item? && !o.loose
  }

  /** The template a block's rendered content goes into. */
  function Wrap(o: Opener, body: string): string {
    match o
    case Quote => Renderer.Blockquote(body)
    case List(ordered, start) => Renderer.List(body, ordered, start)
    case Item(task, checked, _) => Renderer.ListItem(body, task, checked)
  }

  /** A block's content as its loop reads it, with what goes in front of
      its rendering. A tight task item puts the checkbox in front; a loose
      one puts it into its first text leaf, or into a new text leaf when
      the item does not start with one. */
  function Inner(opts: Renderer.Options, o: Opener, kids: seq<Node>): (r: (string, seq<Node>))
    requires ValidForest(kids)
    ensures ValidForest(r.1)
    ensures ForestSize(r.1) <= ForestSize(kids) + 1
  {
    if o.Item? && o.task then
      var box := Renderer.Checkbox(opts, o.checked);
      if !o.loose then (box, kids)
      else if |kids| > 0 && IsTextLeaf(kids[0]) then
        var g := [Leaf(Text(box + " " + kids[0].token.text))] + kids[1..];
        assert g[1..] == kids[1..];
        ("", g)
      else
        var g := [Leaf(Text(box))] + kids;
        assert g[1..] == kids;
        ("", g)
    else ("", kids)
  }

  /** `out` in front of a rendering. */
  function Prefix(out: string, r: Result<Rendered, ParseError>): (q: Result<Rendered, ParseError>)
    ensures r.Err? ==> q == r
    ensures r.Ok? ==> q.Ok? && q.value.seen == r.value.seen
  {
    match r
    case Ok(m) => Ok(Rendered(out + m.out, m.seen))
    case Err(e) => Err(e)
  }

  /** The forest `f` rendered block by block, `tight` saying whether a text
      run becomes a paragraph. */
  function Forest(env: Env, tight: bool, f: seq<Node>, seen: Slugger.Seen): (r: Result<Rendered, ParseError>)
    requires ValidForest(f)
    ensures r.Ok? ==> seen.Keys <= r.value.seen.Keys
    decreases ForestSize(f), 1
  {
    if |f| == 0 then Ok(Rendered("", seen))
    else
      var h :- Head(env, tight, f, seen);
      var k := Next(f);
      ForestSizeSplit(f, k);
      Prefix(h.out, Forest(env, tight, f[k..], h.seen))
  }

  /** The block at the head of `f`. */
  function Head(env: Env, tight: bool, f: seq<Node>, seen: Slugger.Seen): (r: Result<Rendered, ParseError>)
    requires ValidForest(f) && |f| > 0
    ensures r.Ok? ==> seen.Keys <= r.value.seen.Keys
    decreases ForestSize(f), 0
  {
    match f[0]
    case Leaf(t) =>
      if t.Text? then
        var body := env.inline(t.text + Concat(TextLines(f[1..Next(f)])));
        Ok(Rendered(if tight then body else Renderer.Paragraph(body), seen))
      else
        var b :- Single(env, t, [], seen);
        Ok(Rendered(b.out, b.seen))
    case Nest(o, kids) =>
      var (prefix, inner) := Inner(env.opts, o, kids);
      assert ForestSize(f) == NodeSize(f[0]) + ForestSize(f[1..]);
      var b :- Forest(env, Tight(o), inner, seen);
      Ok(Rendered(Wrap(o, prefix + b.out), b.seen))
  }

  // ---------------------------------------------------------------------
  // The parser on the stream of a forest

  predicate NoTextHead(s: seq<Token>) {
    |s| == 0 || !s[0].Text?
  }

  /** `out` in front of the output of a step. */
  function Append(out: string, r: Result<Step, ParseError>): (q: Result<Step, ParseError>)
    ensures r.Err? ==> q == r
    ensures r.Ok? ==> q.Ok? && q.value.rest == r.value.rest && q.value.seen == r.value.seen
  {
    match r
    case Ok(b) => Ok(Step(out + b.out, b.rest, b.seen))
    case Err(e) => Err(e)
  }

  /** A rendered forest followed by the loop `Run` on the tokens after it. */
  function Then(a: Result<Rendered, ParseError>, env: Env, tight: bool, stop: Option<Token>, tail: seq<Token>)
    : Result<Step, ParseError>
  {
    match a
    case Err(e) => Err(e)
    case Ok(x) => Append(x.out, Run(env, tight, stop, tail, x.seen))
  }

  /** The stream of a non-empty forest starts with its first node's first
      token, which is no end token. */
  lemma FirstToken(f: seq<Node>, tail: seq<Token>)
    requires ValidForest(f) && |f| > 0
    ensures (Flatten(f) + tail)[0] == FlattenNode(f[0])[0]
    ensures !IsEnd(FlattenNode(f[0])[0])
    ensures IsTextLeaf(f[0]) <==> FlattenNode(f[0])[0].Text?
  {
    var n := f[0];
    assert ValidNode(n);
    NodeHead(n);
    StreamHead(FlattenNode(n), Flatten(f[1..]), tail);
  }

  /** A node's stream starts with its own token or its start token. */
  lemma NodeHead(n: Node)
    requires ValidNode(n)
    ensures !IsEnd(FlattenNode(n)[0])
    ensures IsTextLeaf(n) <==> FlattenNode(n)[0].Text?
  {
    match n
    case Leaf(t) =>
    case Nest(o, kids) =>
      assert FlattenNode(n)[0] == StartToken(o);
  }

  lemma StreamHead(a: seq<Token>, b: seq<Token>, c: seq<Token>)
    requires |a| > 0
    ensures (a + b + c)[0] == a[0]
  {
  }

  /** The text-run loop on the stream of a forest takes exactly the
      forest's leading text leaves. */
  lemma {:induction false} JoinTextForest(body: string, f: seq<Node>, tail: seq<Token>)
    requires ValidForest(f) && NoTextHead(tail)
    ensures var m := LeadingTexts(f);
            JoinText(body, Flatten(f) + tail) == (body + Concat(TextLines(f[..m])), Flatten(f[m..]) + tail)
    decreases |f|, 1
  {
    if |f| > 0 && IsTextLeaf(f[0]) {
      TextRun(body, f, tail);
    } else {
      NoLines(body, f, tail);
    }
  }

  lemma {:induction false} TextRun(body: string, f: seq<Node>, tail: seq<Token>)
    requires ValidForest(f) && NoTextHead(tail) && |f| > 0 && IsTextLeaf(f[0])
    ensures var m := LeadingTexts(f);
            JoinText(body, Flatten(f) + tail) == (body + Concat(TextLines(f[..m])), Flatten(f[m..]) + tail)
    decreases |f|, 0
  {
    var x := f[0].token.text;
    ForestRest(f);
    JoinTextForest(body + "\n" + x, f[1..], tail);
    TextRunStep(body, f, tail);
  }

  /** `TextRun` once the text-run loop is known on the rest of the forest. */
  lemma TextRunStep(body: string, f: seq<Node>, tail: seq<Token>)
    requires ValidForest(f) && |f| > 0 && IsTextLeaf(f[0])
    requires var x := f[0].token.text;
             var m := LeadingTexts(f[1..]);
             JoinText(body + "\n" + x, Flatten(f[1..]) + tail)
             == (body + "\n" + x + Concat(TextLines(f[1..][..m])), Flatten(f[1..][m..]) + tail)
    ensures var m := LeadingTexts(f);
            JoinText(body, Flatten(f) + tail) == (body + Concat(TextLines(f[..m])), Flatten(f[m..]) + tail)
  {
    var x := f[0].token.text;
    var g := f[1..];
    var m := TextLead(f);
    TextStream(body, f, tail);
    LinesStep(f, m);
    var j := JoinText(body, Flatten(f) + tail);
    var k := JoinText(body + "\n" + x, Flatten(g) + tail);
    var c := Concat(TextLines(g[..m - 1]));
    JoinLines(j, k, body, x, c, Concat(TextLines(f[..m])), Flatten(g[m - 1..]) + tail, Flatten(f[m..]) + tail);
  }

  /** What follows the first node of a forest is a forest. */
  lemma ForestRest(f: seq<Node>)
    requires ValidForest(f) && |f| > 0
    ensures ValidForest(f[1..])
  {
    var g := f[1..];
    assert forall i :: 0 <= i < |g| ==> g[i] == f[i + 1];
  }

  /** A forest that starts with a text leaf: its run is one longer than
      the run of the rest. */
  lemma TextLead(f: seq<Node>) returns (m: nat)
    requires ValidForest(f) && |f| > 0 && IsTextLeaf(f[0])
    ensures m == LeadingTexts(f) && 1 <= m && m - 1 == LeadingTexts(f[1..])
    ensures LeafText(f[0]) == f[0].token.text
  {
    m := LeadingTexts(f);
  }

  /** The text a run joins: the body, then the first line and the lines
      after it. */
  lemma JoinLines(j: (string, seq<Token>), k: (string, seq<Token>), body: string, x: string, c: string,
                  lines: string, r1: seq<Token>, r2: seq<Token>)
    requires j == k && k == (body + "\n" + x + c, r1) && r1 == r2
    requires lines == "\n" + x + c
    ensures j == (body + lines, r2)
  {
    assert body + "\n" + x + c == body + ("\n" + x + c);
  }

  /** The text-run loop on a stream that starts with a text leaf's token. */
  lemma TextStream(body: string, f: seq<Node>, tail: seq<Token>)
    requires |f| > 0 && IsTextLeaf(f[0])
    ensures var x := f[0].token.text;
            JoinText(body, Flatten(f) + tail) == JoinText(body + "\n" + x, Flatten(f[1..]) + tail)
  {
    TextHeadStream(f, tail);
    JoinTextCons(body, f[0].token.text, Flatten(f[1..]) + tail);
  }

  lemma JoinTextCons(body: string, x: string, rest: seq<Token>)
    ensures JoinText(body, [Text(x)] + rest) == JoinText(body + "\n" + x, rest)
  {
    assert ([Text(x)] + rest)[1..] == rest;
  }

  /** The lines of a run of `m` leaves: the first leaf's, then the rest's. */
  lemma LinesStep(f: seq<Node>, m: nat)
    requires 1 <= m <= |f|
    ensures Concat(TextLines(f[..m])) == "\n" + LeafText(f[0]) + Concat(TextLines(f[1..][..m - 1]))
    ensures f[1..][m - 1..] == f[m..]
  {
    var lines := TextLines(f[..m]);
    assert lines[1..] == TextLines(f[1..][..m - 1]);
  }

  /** The text-run loop on a stream that does not start with a text token. */
  lemma NoLines(body: string, f: seq<Node>, tail: seq<Token>)
    requires ValidForest(f) && NoTextHead(tail) && !(|f| > 0 && IsTextLeaf(f[0]))
    ensures LeadingTexts(f) == 0
    ensures JoinText(body, Flatten(f) + tail) == (body + Concat(TextLines(f[..0])), Flatten(f[0..]) + tail)
  {
    if |f| > 0 {
      FirstToken(f, tail);
    }
    assert TextLines(f[..0]) == [];
    assert body + Concat([]) == body;
    assert f[0..] == f;
  }

  /** Tokens that are neither start tokens nor text pass what follows them
      through untouched. */
  lemma SingleRest(env: Env, t: Token, rest: seq<Token>, seen: Slugger.Seen)
    requires !IsStart(t) && !t.Text?
    ensures Single(env, t, rest, seen) == WithRest(Single(env, t, [], seen), rest)
    ensures Single(env, t, [], seen) != Err(Truncated)
  {
  }

  function WithRest(r: Result<Step, ParseError>, rest: seq<Token>): Result<Step, ParseError> {
    match r
    case Ok(b) => Ok(Step(b.out, rest, b.seen))
    case Err(e) => Err(e)
  }

  /** What a task item's first step does to the stream of its content is
      what `Inner` does to the content. */
  lemma InnerStream(opts: Renderer.Options, o: Opener, kids: seq<Node>, tail: seq<Token>)
    requires o.Item? && ValidForest(kids) && NoTextHead(tail)
    ensures TaskStart(opts, o.task, o.checked, o.loose, Flatten(kids) + tail)
            == (Inner(opts, o, kids).0, Flatten(Inner(opts, o, kids).1) + tail)
  {
    if o.task && o.loose {
      if |kids| > 0 && IsTextLeaf(kids[0]) {
        SpliceStream(opts, o, kids, tail);
      } else {
        NewTextStream(opts, o, kids, tail);
      }
    }
  }

  lemma SpliceStream(opts: Renderer.Options, o: Opener, kids: seq<Node>, tail: seq<Token>)
    requires o.Item? && o.task && o.loose && ValidForest(kids) && NoTextHead(tail)
    requires |kids| > 0 && IsTextLeaf(kids[0])
    ensures TaskStart(opts, o.task, o.checked, o.loose, Flatten(kids) + tail)
            == (Inner(opts, o, kids).0, Flatten(Inner(opts, o, kids).1) + tail)
  {
    var box := Renderer.Checkbox(opts, o.checked);
    var x := kids[0].token.text;
    var t := Text(box + " " + x);
    var later := Flatten(kids[1..]) + tail;
    TextHeadStream(kids, tail);
    TaskSplice(opts, o.checked, x, later);
    assert Inner(opts, o, kids) == ("", [Leaf(t)] + kids[1..]);
    LeafStream(t, kids[1..], tail);
  }

  /** A loose task item puts its checkbox in front of a leading text token. */
  lemma TaskSplice(opts: Renderer.Options, checked: bool, x: string, later: seq<Token>)
    ensures TaskStart(opts, true, checked, true, [Text(x)] + later)
            == ("", [Text(Renderer.Checkbox(opts, checked) + " " + x)] + later)
  {
    assert ([Text(x)] + later)[1..] == later;
  }

  /** The stream of a forest that starts with a leaf. */
  lemma LeafStream(t: Token, f: seq<Node>, tail: seq<Token>)
    ensures Flatten([Leaf(t)] + f) + tail == [t] + (Flatten(f) + tail)
  {
    ConsStream(Leaf(t), f, tail);
    assert FlattenNode(Leaf(t)) == [t];
  }

  lemma NewTextStream(opts: Renderer.Options, o: Opener, kids: seq<Node>, tail: seq<Token>)
    requires o.Item? && o.task && o.loose && ValidForest(kids) && NoTextHead(tail)
    requires !(|kids| > 0 && IsTextLeaf(kids[0]))
    ensures TaskStart(opts, o.task, o.checked, o.loose, Flatten(kids) + tail)
            == (Inner(opts, o, kids).0, Flatten(Inner(opts, o, kids).1) + tail)
  {
    var box := Renderer.Checkbox(opts, o.checked);
    if |kids| > 0 {
      FirstToken(kids, tail);
    } else {
      assert Flatten(kids) + tail == tail;
    }
    ConsStream(Leaf(Text(box)), kids, tail);
  }

  /** The stream of a forest that starts with `n`. */
  lemma ConsStream(n: Node, f: seq<Node>, tail: seq<Token>)
    ensures Flatten([n] + f) + tail == FlattenNode(n) + (Flatten(f) + tail)
  {
    assert ([n] + f)[1..] == f;
  }

  /** One turn of `Forest`. */
  lemma ForestStep(env: Env, tight: bool, f: seq<Node>, seen: Slugger.Seen)
    requires ValidForest(f) && |f| > 0
    ensures Forest(env, tight, f, seen)
            == match Head(env, tight, f, seen)
               case Err(e) => Err(e)
               case Ok(h) => Prefix(h.out, Forest(env, tight, f[Next(f)..], h.seen))
  {
  }

  /** One turn of the loop `Run`, written with `Append`. */
  lemma {:induction false} RunStep(env: Env, tight: bool, stop: Option<Token>, s: seq<Token>, seen: Slugger.Seen)
    requires |s| > 0 && stop != Some(s[0])
    ensures Run(env, tight, stop, s, seen)
            == match First(env, tight, s, seen)
               case Err(e) => Err(e)
               case Ok(st) => Append(st.out, Run(env, tight, stop, st.rest, st.seen))
  {
  }

  /** Output put in front before or after the rest is read comes out the
      same. */
  lemma AppendThen(out: string, x: Result<Rendered, ParseError>, env: Env, tight: bool, stop: Option<Token>,
                   tail: seq<Token>)
    ensures Append(out, Then(x, env, tight, stop, tail)) == Then(Prefix(out, x), env, tight, stop, tail)
  {
    if x.Ok? {
      var more := Run(env, tight, stop, tail, x.value.seen);
      if more.Ok? {
        assert out + (x.value.out + more.value.out) == out + x.value.out + more.value.out;
      }
    }
  }

  /** A block on the stream: the start token, the stream of the block's
      content, then `tail`. Its rendering is its wrapper around the
      rendering of its content followed by whatever its loop reads from
      `tail` up to its end token. */
  lemma {:induction false} NestForest(env: Env, o: Opener, kids: seq<Node>, tail: seq<Token>, seen: Slugger.Seen)
    requires ValidForest(kids) && NoTextHead(tail)
    ensures var (prefix, inner) := Inner(env.opts, o, kids);
            && Forest(env, Tight(o), inner, seen) != Err(Truncated)
            && Tok(env, StartToken(o), Flatten(kids) + tail, seen)
               == match Forest(env, Tight(o), inner, seen)
                  case Err(e) => Err(e)
                  case Ok(b) =>
                    match Run(env, Tight(o), Some(EndToken(o)), tail, b.seen)
                    case Err(e) => Err(e)
                    case Ok(c) => Ok(Step(Wrap(o, prefix + (b.out + c.out)), c.rest, c.seen))
    decreases NodeSize(Nest(o, kids)), 0
  {
    var inner := Inner(env.opts, o, kids).1;
    RunForest(env, Tight(o), Some(EndToken(o)), inner, tail, seen);
    NestChain(env, o, kids, tail, seen);
  }

  /** `NestForest` once the block's loop is known to render its content as
      the reference does. */
  lemma NestChain(env: Env, o: Opener, kids: seq<Node>, tail: seq<Token>, seen: Slugger.Seen)
    requires ValidForest(kids) && NoTextHead(tail)
    requires var inner := Inner(env.opts, o, kids).1;
             Run(env, Tight(o), Some(EndToken(o)), Flatten(inner) + tail, seen)
             == Then(Forest(env, Tight(o), inner, seen), env, Tight(o), Some(EndToken(o)), tail)
    ensures var (prefix, inner) := Inner(env.opts, o, kids);
            Tok(env, StartToken(o), Flatten(kids) + tail, seen)
            == match Forest(env, Tight(o), inner, seen)
               case Err(e) => Err(e)
               case Ok(b) =>
                 match Run(env, Tight(o), Some(EndToken(o)), tail, b.seen)
                 case Err(e) => Err(e)
                 case Ok(c) => Ok(Step(Wrap(o, prefix + (b.out + c.out)), c.rest, c.seen))
  {
    var (prefix, inner) := Inner(env.opts, o, kids);
    StartStream(env, o, kids, tail, seen);
    WrapThen(o, prefix, Forest(env, Tight(o), inner, seen), env, Tight(o), Some(EndToken(o)), tail);
  }

  /** A start token's case runs its block's loop on the stream of the
      content as `Inner` gives it. */
  lemma StartStream(env: Env, o: Opener, kids: seq<Node>, tail: seq<Token>, seen: Slugger.Seen)
    requires ValidForest(kids) && NoTextHead(tail)
    ensures var (prefix, inner) := Inner(env.opts, o, kids);
            Tok(env, StartToken(o), Flatten(kids) + tail, seen)
            == WrapStep(o, prefix, Run(env, Tight(o), Some(EndToken(o)), Flatten(inner) + tail, seen))
  {
    TokStart(env, o, Flatten(kids) + tail, seen);
    if o.Item? {
      InnerStream(env.opts, o, kids, tail);
    }
  }

  /** A block's template around the output of its loop. */
  function WrapStep(o: Opener, prefix: string, r: Result<Step, ParseError>): Result<Step, ParseError> {
    match r
    case Err(e) => Err(e)
    case Ok(c) => Ok(Step(Wrap(o, prefix + c.out), c.rest, c.seen))
  }

  /** `tok()` on a start token: the block's loop up to its end token, with
      a task item's checkbox put in place first, inside the template. */
  lemma {:induction false} TokStart(env: Env, o: Opener, s: seq<Token>, seen: Slugger.Seen)
    ensures var (prefix, s') := if o.Item? then TaskStart(env.opts, o.task, o.checked, o.loose, s) else ("", s);
            Tok(env, StartToken(o), s, seen) == WrapStep(o, prefix, Run(env, Tight(o), Some(EndToken(o)), s', seen))
  {
    match o
    case Quote => TokQuote(env, s, seen);
    case List(ordered, start) => TokList(env, ordered, start, s, seen);
    case Item(task, checked, loose) => TokItem(env, task, checked, loose, s, seen);
  }

  lemma TokQuote(env: Env, s: seq<Token>, seen: Slugger.Seen)
    ensures Tok(env, BlockquoteStart, s, seen) == WrapStep(Quote, "", Run(env, false, Some(BlockquoteEnd), s, seen))
  {
    var r := Run(env, false, Some(BlockquoteEnd), s, seen);
    if r.Ok? {
      assert "" + r.value.out == r.value.out;
    }
  }

  lemma TokList(env: Env, ordered: bool, start: int, s: seq<Token>, seen: Slugger.Seen)
    ensures Tok(env, ListStart(ordered, start), s, seen)
            == WrapStep(List(ordered, start), "", Run(env, false, Some(ListEnd), s, seen))
  {
    var r := Run(env, false, Some(ListEnd), s, seen);
    if r.Ok? {
      assert "" + r.value.out == r.value.out;
    }
  }

  lemma TokItem(env: Env, task: bool, checked: bool, loose: bool, s: seq<Token>, seen: Slugger.Seen)
    ensures var (prefix, s') := TaskStart(env.opts, task, checked, loose, s);
            Tok(env, ListItemStart(task, checked, loose), s, seen)
            == WrapStep(Item(task, checked, loose), prefix, Run(env, !loose, Some(ListItemEnd), s', seen))
  {
  }

  lemma {:induction false} WrapThen(o: Opener, prefix: string, a: Result<Rendered, ParseError>, env: Env, tight: bool,
                 stop: Option<Token>, tail: seq<Token>)
    ensures WrapStep(o, prefix, Then(a, env, tight, stop, tail))
            == match a
               case Err(e) => Err(e)
               case Ok(b) =>
                 match Run(env, tight, stop, tail, b.seen)
                 case Err(e) => Err(e)
                 case Ok(c) => Ok(Step(Wrap(o, prefix + (b.out + c.out)), c.rest, c.seen))
  {
  }

  /** The parser's first step on a text token. */
  lemma FirstTextStep(env: Env, tight: bool, x: string, rest: seq<Token>, seen: Slugger.Seen)
    ensures var p := ParseText(env, x, rest);
            First(env, tight, [Text(x)] + rest, seen)
            == Ok(Step(if tight then p.0 else Renderer.Paragraph(p.0), p.1, seen))
  {
    var s := [Text(x)] + rest;
    assert s[0] == Text(x) && s[1..] == rest;
    if !tight {
      TokText(env, x, rest, seen);
    }
  }

  /** `tok()` on a text token: the text run as a paragraph. */
  lemma TokText(env: Env, x: string, rest: seq<Token>, seen: Slugger.Seen)
    ensures var p := ParseText(env, x, rest);
            Tok(env, Text(x), rest, seen) == Ok(Step(Renderer.Paragraph(p.0), p.1, seen))
  {
    SingleText(env, x, rest, seen);
  }

  lemma SingleText(env: Env, x: string, rest: seq<Token>, seen: Slugger.Seen)
    ensures var p := ParseText(env, x, rest);
            Single(env, Text(x), rest, seen) == Ok(Step(Renderer.Paragraph(p.0), p.1, seen))
  {
  }

  /** The parser's first step on another token that is no start token. */
  lemma FirstOtherStep(env: Env, tight: bool, t: Token, rest: seq<Token>, seen: Slugger.Seen)
    requires !IsStart(t) && !t.Text?
    ensures First(env, tight, [t] + rest, seen) == WithRest(Single(env, t, [], seen), rest)
    ensures Single(env, t, [], seen) != Err(Truncated)
  {
    assert ([t] + rest)[1..] == rest;
    SingleRest(env, t, rest, seen);
  }

  lemma HeadText(env: Env, tight: bool, f: seq<Node>, seen: Slugger.Seen)
    requires ValidForest(f) && |f| > 0 && IsTextLeaf(f[0])
    ensures var body := env.inline(f[0].token.text + Concat(TextLines(f[1..Next(f)])));
            Head(env, tight, f, seen) == Ok(Rendered(if tight then body else Renderer.Paragraph(body), seen))
  {
  }

  lemma HeadOther(env: Env, tight: bool, f: seq<Node>, seen: Slugger.Seen)
    requires ValidForest(f) && |f| > 0 && f[0].Leaf? && !f[0].token.Text?
    ensures Head(env, tight, f, seen)
            == match Single(env, f[0].token, [], seen)
               case Err(e) => Err(e)
               case Ok(b) => Ok(Rendered(b.out, b.seen))
  {
    assert ValidNode(f[0]);
  }

  lemma DropOne(f: seq<Node>, m: nat)
    requires m < |f|
    ensures f[1..][..m] == f[1..m + 1] && f[1..][m..] == f[m + 1..]
  {
  }

  /** `FirstForest` for a forest that starts with a text leaf. */
  lemma FirstText(env: Env, tight: bool, f: seq<Node>, tail: seq<Token>, seen: Slugger.Seen)
    requires ValidForest(f) && |f| > 0 && IsTextLeaf(f[0]) && NoTextHead(tail)
    ensures Head(env, tight, f, seen) != Err(Truncated)
    ensures First(env, tight, Flatten(f) + tail, seen)
            == match Head(env, tight, f, seen)
               case Err(e) => Err(e)
               case Ok(h) => Ok(Step(h.out, Flatten(f[Next(f)..]) + tail, h.seen))
  {
    var x := f[0].token.text;
    var rest := Flatten(f[1..]) + tail;
    TextParts(env, f, tail);
    FirstTextStep(env, tight, x, rest, seen);
    HeadText(env, tight, f, seen);
  }

  /** The stream of a forest that starts with a text leaf, and what
      `parseText` makes of it. */
  lemma TextParts(env: Env, f: seq<Node>, tail: seq<Token>)
    requires ValidForest(f) && |f| > 0 && IsTextLeaf(f[0]) && NoTextHead(tail)
    ensures var x := f[0].token.text;
            var rest := Flatten(f[1..]) + tail;
            && Flatten(f) + tail == [Text(x)] + rest
            && ParseText(env, x, rest)
               == (env.inline(x + Concat(TextLines(f[1..Next(f)]))), Flatten(f[Next(f)..]) + tail)
  {
    TextHeadStream(f, tail);
    TextRunParse(env, f, tail);
  }

  lemma TextHeadStream(f: seq<Node>, tail: seq<Token>)
    requires |f| > 0 && IsTextLeaf(f[0])
    ensures Flatten(f) + tail == [Text(f[0].token.text)] + (Flatten(f[1..]) + tail)
  {
    assert f == [f[0]] + f[1..];
    ConsStream(f[0], f[1..], tail);
    assert FlattenNode(f[0]) == [Text(f[0].token.text)];
  }

  lemma TextRunParse(env: Env, f: seq<Node>, tail: seq<Token>)
    requires ValidForest(f) && |f| > 0 && IsTextLeaf(f[0]) && NoTextHead(tail)
    ensures ParseText(env, f[0].token.text, Flatten(f[1..]) + tail)
            == (env.inline(f[0].token.text + Concat(TextLines(f[1..Next(f)]))), Flatten(f[Next(f)..]) + tail)
  {
    var g := f[1..];
    var m := LeadingTexts(g);
    ParseTextRun(env, f[0].token.text, g, tail);
    assert Next(f) == m + 1;
    DropOne(f, m);
  }

  /** `parseText` on the stream of a forest joins its leading text leaves. */
  lemma ParseTextRun(env: Env, x: string, g: seq<Node>, tail: seq<Token>)
    requires ValidForest(g) && NoTextHead(tail)
    ensures var m := LeadingTexts(g);
            ParseText(env, x, Flatten(g) + tail)
            == (env.inline(x + Concat(TextLines(g[..m]))), Flatten(g[m..]) + tail)
  {
    JoinTextForest(x, g, tail);
  }

  /** `FirstForest` for a forest that starts with any other leaf. */
  lemma FirstOther(env: Env, tight: bool, f: seq<Node>, tail: seq<Token>, seen: Slugger.Seen)
    requires ValidForest(f) && |f| > 0 && f[0].Leaf? && !f[0].token.Text? && NoTextHead(tail)
    ensures Head(env, tight, f, seen) != Err(Truncated)
    ensures First(env, tight, Flatten(f) + tail, seen)
            == match Head(env, tight, f, seen)
               case Err(e) => Err(e)
               case Ok(h) => Ok(Step(h.out, Flatten(f[Next(f)..]) + tail, h.seen))
  {
    var t := f[0].token;
    var rest := Flatten(f[1..]) + tail;
    assert f == [f[0]] + f[1..];
    ConsStream(f[0], f[1..], tail);
    assert ValidNode(f[0]);
    FirstOtherStep(env, tight, t, rest, seen);
    HeadOther(env, tight, f, seen);
  }

  /** `FirstForest` for a forest that starts with a nest. */
  lemma {:induction false} FirstNest(env: Env, tight: bool, f: seq<Node>, tail: seq<Token>, seen: Slugger.Seen)
    requires ValidForest(f) && |f| > 0 && f[0].Nest? && NoTextHead(tail)
    ensures Head(env, tight, f, seen) != Err(Truncated)
    ensures First(env, tight, Flatten(f) + tail, seen)
            == match Head(env, tight, f, seen)
               case Err(e) => Err(e)
               case Ok(h) => Ok(Step(h.out, Flatten(f[1..]) + tail, h.seen))
    decreases ForestSize(f), 1
  {
    var o := f[0].opener;
    var kids := f[0].children;
    var rest := Flatten(f[1..]) + tail;
    var close := [EndToken(o)] + rest;
    NestStream(f, tail);
    FirstStart(env, tight, StartToken(o), Flatten(kids) + close, seen);
    assert ValidNode(f[0]);
    assert ForestSize(f) == NodeSize(f[0]) + ForestSize(f[1..]);
    NestForest(env, o, kids, close, seen);
    var (prefix, inner) := Inner(env.opts, o, kids);
    HeadNest(env, tight, f, seen);
    match Forest(env, Tight(o), inner, seen)
    case Err(e) =>
    case Ok(b) =>
      CloseStep(env, Tight(o), EndToken(o), rest, b.seen);
      assert b.out + "" == b.out;
  }

  lemma {:induction false} HeadNest(env: Env, tight: bool, f: seq<Node>, seen: Slugger.Seen)
    requires ValidForest(f) && |f| > 0 && f[0].Nest?
    ensures var o := f[0].opener;
            var (prefix, inner) := Inner(env.opts, o, f[0].children);
            Head(env, tight, f, seen)
            == match Forest(env, Tight(o), inner, seen)
               case Err(e) => Err(e)
               case Ok(b) => Ok(Rendered(Wrap(o, prefix + b.out), b.seen))
  {
    assert ValidNode(f[0]);
  }

  /** The stream of a forest that starts with a block. */
  lemma {:induction false} NestStream(f: seq<Node>, tail: seq<Token>)
    requires |f| > 0 && f[0].Nest?
    ensures Flatten(f) + tail
            == [StartToken(f[0].opener)]
               + (Flatten(f[0].children) + ([EndToken(f[0].opener)] + (Flatten(f[1..]) + tail)))
  {
    var o := f[0].opener;
    var a, b, c, d := [StartToken(o)], Flatten(f[0].children), [EndToken(o)], Flatten(f[1..]);
    calc {
      Flatten(f) + tail;
      (FlattenNode(f[0]) + d) + tail;
      ((a + b + c) + d) + tail;
      { SeqAssoc4(a, b, c, d, tail); }
      a + (b + (c + (d + tail)));
    }
  }

  /** The first step of a loop on a start token is `tok()`. */
  lemma FirstStart(env: Env, tight: bool, t: Token, rest: seq<Token>, seen: Slugger.Seen)
    requires IsStart(t)
    ensures First(env, tight, [t] + rest, seen) == Tok(env, t, rest, seen)
  {
    assert ([t] + rest)[1..] == rest;
  }

  /** A loop that meets its end token stops there and consumes it. */
  lemma CloseStep(env: Env, tight: bool, e: Token, rest: seq<Token>, seen: Slugger.Seen)
    ensures Run(env, tight, Some(e), [e] + rest, seen) == Ok(Step("", rest, seen))
  {
    assert ([e] + rest)[1..] == rest;
  }

  /** The first step of the parser's loop on the stream of a forest renders
      the forest's head block and leaves the stream of the rest. */
  lemma {:induction false} FirstForest(env: Env, tight: bool, f: seq<Node>, tail: seq<Token>, seen: Slugger.Seen)
    requires ValidForest(f) && |f| > 0 && NoTextHead(tail)
    ensures Head(env, tight, f, seen) != Err(Truncated)
    ensures First(env, tight, Flatten(f) + tail, seen)
            == match Head(env, tight, f, seen)
               case Err(e) => Err(e)
               case Ok(h) => Ok(Step(h.out, Flatten(f[Next(f)..]) + tail, h.seen))
    decreases ForestSize(f), 2
  {
    if IsTextLeaf(f[0]) {
      FirstText(env, tight, f, tail, seen);
    } else if f[0].Leaf? {
      FirstOther(env, tight, f, tail, seen);
    } else {
      FirstNest(env, tight, f, tail, seen);
    }
  }

  /** The parser's loop on the stream of a forest followed by `tail`: it
      renders the forest as `Forest` does and then carries on into `tail`.
      Running out of tokens is never the forest's fault. */
  lemma {:induction false} RunForest(env: Env, tight: bool, stop: Option<Token>, f: seq<Node>, tail: seq<Token>,
                                     seen: Slugger.Seen)
    requires ValidForest(f) && NoTextHead(tail)
    requires stop.None? || IsEnd(stop.value)
    ensures Forest(env, tight, f, seen) != Err(Truncated)
    ensures Run(env, tight, stop, Flatten(f) + tail, seen) == Then(Forest(env, tight, f, seen), env, tight, stop, tail)
    decreases ForestSize(f), 4
  {
    if |f| == 0 {
      RunEmpty(env, tight, stop, f, tail, seen);
    } else {
      RunCons(env, tight, stop, f, tail, seen);
    }
  }

  lemma RunEmpty(env: Env, tight: bool, stop: Option<Token>, f: seq<Node>, tail: seq<Token>, seen: Slugger.Seen)
    requires |f| == 0
    ensures Forest(env, tight, f, seen) == Ok(Rendered("", seen))
    ensures Run(env, tight, stop, Flatten(f) + tail, seen) == Then(Forest(env, tight, f, seen), env, tight, stop, tail)
  {
    assert Flatten(f) + tail == tail;
    var more := Run(env, tight, stop, tail, seen);
    if more.Ok? {
      assert "" + more.value.out == more.value.out;
    }
  }

  lemma {:induction false} RunCons(env: Env, tight: bool, stop: Option<Token>, f: seq<Node>, tail: seq<Token>,
                                   seen: Slugger.Seen)
    requires ValidForest(f) && NoTextHead(tail) && |f| > 0
    requires stop.None? || IsEnd(stop.value)
    ensures Forest(env, tight, f, seen) != Err(Truncated)
    ensures Run(env, tight, stop, Flatten(f) + tail, seen) == Then(Forest(env, tight, f, seen), env, tight, stop, tail)
    decreases ForestSize(f), 3
  {
    var s := Flatten(f) + tail;
    FirstToken(f, tail);
    RunStep(env, tight, stop, s, seen);
    FirstForest(env, tight, f, tail, seen);
    ForestStep(env, tight, f, seen);
    var k := Next(f);
    ForestSizeSplit(f, k);
    match Head(env, tight, f, seen)
    case Err(e) =>
    case Ok(h) =>
      var later := Forest(env, tight, f[k..], h.seen);
      assert First(env, tight, s, seen) == Ok(Step(h.out, Flatten(f[k..]) + tail, h.seen));
      assert Run(env, tight, stop, s, seen) == Append(h.out, Run(env, tight, stop, Flatten(f[k..]) + tail, h.seen));
      RunForest(env, tight, stop, f[k..], tail, h.seen);
      AppendThen(h.out, later, env, tight, stop, tail);
      assert Forest(env, tight, f, seen) == Prefix(h.out, later);
  }

  // ---------------------------------------------------------------------
  // Consequences

  /** `parse()` on the stream of a forest: exactly the structural
      rendering, and never the error of running out of tokens. */
  lemma ParseForest(env: Env, f: seq<Node>)
    requires ValidForest(f)
    ensures Parse(env, Flatten(f)) != Err(Truncated)
    ensures Parse(env, Flatten(f)) == match Forest(env, false, f, map[])
                                      case Err(e) => Err(e)
                                      case Ok(a) => Ok(a.out)
  {
    RunForest(env, false, None, f, [], map[]);
    assert Flatten(f) + [] == Flatten(f);
    if Forest(env, false, f, map[]).Ok? {
      var a := Forest(env, false, f, map[]).value;
      assert Run(env, false, None, [], a.seen) == Ok(Step("", [], a.seen));
      assert a.out + "" == a.out;
    }
  }

  /** `parse()` on any balanced stream: the structural rendering of the
      forest it is the stream of, and never the error of running out of
      tokens. */
  lemma ParseBalanced(env: Env, s: seq<Token>)
    requires Balanced(s)
    ensures ValidForest(Unflatten(s).0)
    ensures Parse(env, s) != Err(Truncated)
    ensures Parse(env, s) == match Forest(env, false, Unflatten(s).0, map[])
                             case Err(e) => Err(e)
                             case Ok(a) => Ok(a.out)
  {
    BalancedStreams(s);
    ParseForest(env, Unflatten(s).0);
  }

  /** A block reads up to its own end token and no further: what follows
      is left as it was, and the output is the block's template around the
      rendering of its content. */
  lemma BlockOutput(env: Env, o: Opener, kids: seq<Node>, rest: seq<Token>, seen: Slugger.Seen)
    requires ValidForest(kids)
    ensures var (prefix, inner) := Inner(env.opts, o, kids);
            Tok(env, StartToken(o), Flatten(kids) + ([EndToken(o)] + rest), seen)
            == match Forest(env, Tight(o), inner, seen)
               case Err(e) => Err(e)
               case Ok(b) => Ok(Step(Wrap(o, prefix + b.out), rest, b.seen))
  {
    var tail := [EndToken(o)] + rest;
    NestForest(env, o, kids, tail, seen);
    var inner := Inner(env.opts, o, kids).1;
    if Forest(env, Tight(o), inner, seen).Ok? {
      var b := Forest(env, Tight(o), inner, seen).value;
      assert tail[1..] == rest;
      assert Run(env, Tight(o), Some(EndToken(o)), tail, b.seen) == Ok(Step("", rest, b.seen));
      assert b.out + "" == b.out;
    }
  }

  /** A start token whose end token never comes is an error: the content
      may fail on its own, and otherwise the block runs out of tokens. */
  lemma Unclosed(env: Env, o: Opener, kids: seq<Node>, seen: Slugger.Seen)
    requires ValidForest(kids)
    ensures var inner := Inner(env.opts, o, kids).1;
            Tok(env, StartToken(o), Flatten(kids), seen)
            == match Forest(env, Tight(o), inner, seen)
               case Err(e) => Err(e)
               case Ok(_) => Err(Truncated)
  {
    NestForest(env, o, kids, [], seen);
    assert Flatten(kids) + [] == Flatten(kids);
  }

  /** A document that opens a block after some complete blocks and never
      closes it does not parse. */
  lemma UnclosedDocument(env: Env, f: seq<Node>, o: Opener, kids: seq<Node>)
    requires ValidForest(f) && ValidForest(kids)
    ensures Parse(env, Flatten(f) + ([StartToken(o)] + Flatten(kids))).Err?
  {
    var tail := [StartToken(o)] + Flatten(kids);
    RunForest(env, false, None, f, tail, map[]);
    if Forest(env, false, f, map[]).Ok? {
      var a := Forest(env, false, f, map[]).value;
      assert tail[1..] == Flatten(kids);
      Unclosed(env, o, kids, a.seen);
      assert Tok(env, StartToken(o), Flatten(kids), a.seen).Err?;
      RunStep(env, false, None, tail, a.seen);
    }
  }

  /** A token of a type the parser has no case for: an error, or in
      silent mode the text `undefined` in its place. */
  lemma UnknownType(env: Env, name: string, rest: seq<Token>)
    requires name !in KnownTypes
    ensures Parse(env, [Other(name)] + rest)
            == if !env.opts.silent then Err(Unrecognized(name))
               else match Parse(env, rest)
                    case Err(e) => Err(e)
                    case Ok(out) => Ok("undefined" + out)
  {
    var s := [Other(name)] + rest;
    assert s[0] == Other(name) && s[1..] == rest;
    RunStep(env, false, None, s, map[]);
  }

  /** A forest of one text leaf. */
  lemma OneText(env: Env, tight: bool, y: string, seen: Slugger.Seen)
    ensures Forest(env, tight, [Leaf(Text(y))], seen)
            == Ok(Rendered(if tight then env.inline(y) else Renderer.Paragraph(env.inline(y)), seen))
  {
    var f := [Leaf(Text(y))];
    HeadText(env, tight, f, seen);
    assert f[1..1] == [];
    assert TextLines([]) == [];
    assert y + Concat([]) == y;
    ForestStep(env, tight, f, seen);
    assert f[1..] == [];
    var h := Head(env, tight, f, seen).value;
    assert h.out + "" == h.out;
  }

  /** A list item holding one line of text: a tight item writes the text
      itself and a loose one a paragraph; a task item adds its checkbox in
      front of the text, inside the paragraph when the item is loose. */
  lemma ItemText(env: Env, task: bool, checked: bool, loose: bool, x: string, rest: seq<Token>, seen: Slugger.Seen)
    ensures var box := Renderer.Checkbox(env.opts, checked);
            var body := if task && loose then Renderer.Paragraph(env.inline(box + " " + x))
                        else (if task then box else "") + (if loose then Renderer.Paragraph(env.inline(x)) else env.inline(x));
            Tok(env, ListItemStart(task, checked, loose), [Text(x), ListItemEnd] + rest, seen)
            == Ok(Step(Renderer.ListItem(body, task, checked), rest, seen))
  {
    var o := Item(task, checked, loose);
    var kids := [Leaf(Text(x))];
    assert Flatten(kids) == [Text(x)];
    assert Flatten(kids) + ([EndToken(o)] + rest) == [Text(x), ListItemEnd] + rest;
    BlockOutput(env, o, kids, rest, seen);
    var box := Renderer.Checkbox(env.opts, checked);
    if task && loose {
      assert IsTextLeaf(kids[0]) && kids[1..] == [];
      assert [Leaf(Text(box + " " + x))] + kids[1..] == [Leaf(Text(box + " " + x))];
      assert Inner(env.opts, o, kids) == ("", [Leaf(Text(box + " " + x))]);
      OneText(env, false, box + " " + x, seen);
    } else {
      OneText(env, !loose, x, seen);
    }
    assert forall y: string :: "" + y == y;
  }

  // ---------------------------------------------------------------------
  // Heading ids

  /** The texts the slugger is given for the headings of a forest, in
      document order: the heading's text through the text renderer and
      `unescape`. */
  function Raws(env: Env, f: seq<Node>): seq<string>
    decreases f
  {
    if |f| == 0 then [] else NodeRaws(env, f[0]) + Raws(env, f[1..])
  }

  function NodeRaws(env: Env, n: Node): seq<string>
    decreases n
  {
    match n
    case Leaf(t) => if t.Heading? then [env.unescape(env.inlineText(t.text))] else []
    case Nest(_, kids) => Raws(env, kids)
  }

  lemma {:induction false} RawsAppend(env: Env, f: seq<Node>, g: seq<Node>)
    ensures Raws(env, f + g) == Raws(env, f) + Raws(env, g)
    decreases |f|
  {
    if |f| == 0 {
      assert f + g == g;
    } else {
      assert (f + g)[1..] == f[1..] + g;
      RawsAppend(env, f[1..], g);
    }
  }

  /** A run of text leaves holds no heading. */
  lemma {:induction false} TextRunRaws(env: Env, f: seq<Node>)
    requires |f| > 0 && IsTextLeaf(f[0])
    ensures Raws(env, f[..Next(f)]) == []
    decreases |f|
  {
    var g := f[..Next(f)];
    assert g[0] == f[0];
    if |f| > 1 && IsTextLeaf(f[1]) {
      var f' := f[1..];
      TextRunRaws(env, f');
      assert g[1..] == f'[..Next(f')];
    } else {
      assert g == [f[0]];
    }
  }

  /** `Inner` adds or changes text leaves only. */
  lemma InnerRaws(env: Env, o: Opener, kids: seq<Node>)
    requires ValidForest(kids)
    ensures Raws(env, Inner(env.opts, o, kids).1) == Raws(env, kids)
  {
    var g := Inner(env.opts, o, kids).1;
    if o.Item? && o.task && o.loose {
      assert Raws(env, g) == NodeRaws(env, g[0]) + Raws(env, g[1..]);
      if |kids| > 0 && IsTextLeaf(kids[0]) {
        assert g[1..] == kids[1..];
        assert Raws(env, kids) == NodeRaws(env, kids[0]) + Raws(env, kids[1..]);
      } else {
        assert g[1..] == kids;
      }
    }
  }

  /** The table after the head block: one `slug()` per heading in it. */
  lemma {:induction false} HeadIds(env: Env, tight: bool, f: seq<Node>, seen: Slugger.Seen)
    requires ValidForest(f) && |f| > 0
    ensures Head(env, tight, f, seen).Ok? ==>
              Head(env, tight, f, seen).value.seen
              == if env.opts.headerIds then Slugger.Table(seen, Raws(env, f[..Next(f)])) else seen
    decreases ForestSize(f), 1
  {
    if IsTextLeaf(f[0]) {
      HeadText(env, tight, f, seen);
      TextRunRaws(env, f);
    } else if f[0].Leaf? {
      LeafIds(env, tight, f, seen);
    } else {
      NestIds(env, tight, f, seen);
    }
  }

  lemma LeafIds(env: Env, tight: bool, f: seq<Node>, seen: Slugger.Seen)
    requires ValidForest(f) && |f| > 0 && f[0].Leaf? && !f[0].token.Text?
    ensures Head(env, tight, f, seen).Ok? ==>
              Head(env, tight, f, seen).value.seen
              == if env.opts.headerIds then Slugger.Table(seen, Raws(env, f[..Next(f)])) else seen
  {
    assert Next(f) == 1 && f[..1] == [f[0]];
    assert Raws(env, f[..1]) == NodeRaws(env, f[0]);
    if f[0].token.Heading? {
      HeadingLeafIds(env, tight, f, seen);
    } else {
      HeadOther(env, tight, f, seen);
      assert NodeRaws(env, f[0]) == [];
    }
  }

  lemma HeadingLeafIds(env: Env, tight: bool, f: seq<Node>, seen: Slugger.Seen)
    requires ValidForest(f) && |f| > 0 && f[0].Leaf? && f[0].token.Heading?
    ensures Head(env, tight, f, seen).Ok? ==>
              Head(env, tight, f, seen).value.seen
              == if env.opts.headerIds then Slugger.Table(seen, NodeRaws(env, f[0])) else seen
  {
    var t := f[0].token;
    var raw := env.unescape(env.inlineText(t.text));
    HeadHeading(env, tight, f, seen);
    Renderer.HeadingShape(env.opts, env.inline(t.text), t.depth, raw, seen);
    OneTable(seen, raw);
  }

  lemma OneTable(seen: Slugger.Seen, raw: string)
    ensures Slugger.Table(seen, [raw]) == Slugger.Slug(seen, raw).1
  {
    assert [raw][1..] == [];
  }

  lemma {:induction false} NestIds(env: Env, tight: bool, f: seq<Node>, seen: Slugger.Seen)
    requires ValidForest(f) && |f| > 0 && f[0].Nest?
    ensures Head(env, tight, f, seen).Ok? ==>
              Head(env, tight, f, seen).value.seen
              == if env.opts.headerIds then Slugger.Table(seen, Raws(env, f[..Next(f)])) else seen
    decreases ForestSize(f), 0
  {
    var o := f[0].opener;
    var kids := f[0].children;
    HeadNest(env, tight, f, seen);
    assert ValidNode(f[0]);
    assert ForestSize(f) == NodeSize(f[0]) + ForestSize(f[1..]);
    var inner := Inner(env.opts, o, kids).1;
    ForestIds(env, Tight(o), inner, seen);
    InnerRaws(env, o, kids);
    assert f[..1] == [f[0]];
    assert Raws(env, f[..1]) == Raws(env, kids);
  }

  /** With header ids on, rendering a forest consults the slugger once per
      heading, in document order; with them off the table is left alone. */
  lemma {:induction false} ForestIds(env: Env, tight: bool, f: seq<Node>, seen: Slugger.Seen)
    requires ValidForest(f)
    ensures Forest(env, tight, f, seen).Ok? ==>
              Forest(env, tight, f, seen).value.seen
              == if env.opts.headerIds then Slugger.Table(seen, Raws(env, f)) else seen
    decreases ForestSize(f), 2
  {
    if |f| > 0 {
      ForestStep(env, tight, f, seen);
      var k := Next(f);
      ForestSizeSplit(f, k);
      HeadIds(env, tight, f, seen);
      match Head(env, tight, f, seen)
      case Err(_) =>
      case Ok(h) =>
        ForestIds(env, tight, f[k..], h.seen);
        SeenChain(env, f, k, seen, h.seen, Forest(env, tight, f, seen), Forest(env, tight, f[k..], h.seen), h.out);
    }
  }

  /** The table after the first `k` nodes and then the rest is the table
      after the whole forest. */
  lemma SeenChain(env: Env, f: seq<Node>, k: nat, seen: Slugger.Seen, mid: Slugger.Seen,
                  whole: Result<Rendered, ParseError>, rest: Result<Rendered, ParseError>, out: string)
    requires k <= |f| && whole == Prefix(out, rest)
    requires mid == if env.opts.headerIds then Slugger.Table(seen, Raws(env, f[..k])) else seen
    requires rest.Ok? ==> rest.value.seen == if env.opts.headerIds then Slugger.Table(mid, Raws(env, f[k..])) else mid
    ensures whole.Ok? ==> whole.value.seen == if env.opts.headerIds then Slugger.Table(seen, Raws(env, f)) else seen
  {
    assert f == f[..k] + f[k..];
    RawsAppend(env, f[..k], f[k..]);
    Slugger.TableAppend(seen, Raws(env, f[..k]), Raws(env, f[k..]));
  }

  /** The attribute a heading's opening tag ends with, for the id `id`. */
  function IdAttr(prefix: string, id: string): string {
    " id=\"" + prefix + id + "\">"
  }

  function IdAttrs(prefix: string, ids: seq<string>): (r: seq<string>)
    ensures |r| == |ids|
  {
    seq(|ids|, i requires 0 <= i < |ids| => IdAttr(prefix, ids[i]))
  }

  lemma AttrsAppend(prefix: string, a: seq<string>, b: seq<string>)
    ensures IdAttrs(prefix, a + b) == IdAttrs(prefix, a) + IdAttrs(prefix, b)
  {
  }

  /** A block's template keeps the id attributes of its content. */
  lemma WrapTags(o: Opener, body: string, ps: seq<string>)
    requires InOrder(body, ps)
    ensures InOrder(Wrap(o, body), ps)
  {
    match o
    case Quote =>
      InOrderAround("<blockquote>\n", body, "</blockquote>\n", ps);
    case List(ordered, start) =>
      InOrderAround(Renderer.ListOpen(ordered, start), body, if ordered then "</ol>\n" else "</ul>\n", ps);
    case Item(task, checked, _) =>
      InOrderAround("<li>", body, "</li>\n", ps);
  }

  /** With header ids on, the output of a forest carries one id attribute
      per heading, in document order, each holding the slug the shared
      slugger hands out for that heading. */
  lemma {:induction false} ForestTags(env: Env, tight: bool, f: seq<Node>, seen: Slugger.Seen)
    requires ValidForest(f) && env.opts.headerIds
    ensures Forest(env, tight, f, seen).Ok? ==>
              InOrder(Forest(env, tight, f, seen).value.out,
                      IdAttrs(env.opts.headerPrefix, Slugger.Ids(seen, Raws(env, f))))
    decreases ForestSize(f), 2
  {
    if |f| > 0 {
      ForestStep(env, tight, f, seen);
      var k := Next(f);
      ForestSizeSplit(f, k);
      HeadIds(env, tight, f, seen);
      HeadTags(env, tight, f, seen);
      match Head(env, tight, f, seen)
      case Err(_) =>
      case Ok(h) =>
        ForestTags(env, tight, f[k..], h.seen);
        assert f == f[..k] + f[k..];
        RawsAppend(env, f[..k], f[k..]);
        match Forest(env, tight, f[k..], h.seen)
        case Err(_) =>
        case Ok(later) =>
          JoinTags(env.opts.headerPrefix, seen, Raws(env, f[..k]), Raws(env, f[k..]), h.out, later.out);
    }
  }

  /** The id attributes of a head block and of the rest of the forest
      join up. */
  lemma JoinTags(prefix: string, seen: Slugger.Seen, a: seq<string>, b: seq<string>, out: string, later: string)
    requires InOrder(out, IdAttrs(prefix, Slugger.Ids(seen, a)))
    requires InOrder(later, IdAttrs(prefix, Slugger.Ids(Slugger.Table(seen, a), b)))
    ensures InOrder(out + later, IdAttrs(prefix, Slugger.Ids(seen, a + b)))
  {
    var x, y := Slugger.Ids(seen, a), Slugger.Ids(Slugger.Table(seen, a), b);
    Slugger.IdsAppend(seen, a, b);
    AttrsAppend(prefix, x, y);
    InOrderJoin(out, later, IdAttrs(prefix, x), IdAttrs(prefix, y));
  }

  lemma {:induction false} HeadTags(env: Env, tight: bool, f: seq<Node>, seen: Slugger.Seen)
    requires ValidForest(f) && |f| > 0 && env.opts.headerIds
    ensures Head(env, tight, f, seen).Ok? ==>
              InOrder(Head(env, tight, f, seen).value.out,
                      IdAttrs(env.opts.headerPrefix, Slugger.Ids(seen, Raws(env, f[..Next(f)]))))
    decreases ForestSize(f), 1
  {
    if IsTextLeaf(f[0]) {
      TextRunRaws(env, f);
    } else if f[0].Leaf? {
      LeafTags(env, tight, f, seen);
    } else {
      NestTags(env, tight, f, seen);
    }
  }

  lemma LeafTags(env: Env, tight: bool, f: seq<Node>, seen: Slugger.Seen)
    requires ValidForest(f) && |f| > 0 && f[0].Leaf? && !f[0].token.Text? && env.opts.headerIds
    ensures Head(env, tight, f, seen).Ok? ==>
              InOrder(Head(env, tight, f, seen).value.out,
                      IdAttrs(env.opts.headerPrefix, Slugger.Ids(seen, Raws(env, f[..Next(f)]))))
  {
    var t := f[0].token;
    assert Next(f) == 1 && f[..1] == [f[0]];
    assert Raws(env, f[..1]) == NodeRaws(env, f[0]);
    if t.Heading? {
      HeadHeading(env, tight, f, seen);
      var raw := env.unescape(env.inlineText(t.text));
      OneId(seen, raw);
      var id := Slugger.Slug(seen, raw).0;
      assert IdAttrs(env.opts.headerPrefix, [id]) == [IdAttr(env.opts.headerPrefix, id)];
      Renderer.HeadingIdAttr(env.opts, env.inline(t.text), t.depth, raw, seen);
    } else if Head(env, tight, f, seen).Ok? {
      assert NodeRaws(env, f[0]) == [];
      NoTags(Head(env, tight, f, seen).value.out, env.opts.headerPrefix, seen);
    }
  }

  lemma NoTags(out: string, prefix: string, seen: Slugger.Seen)
    ensures InOrder(out, IdAttrs(prefix, Slugger.Ids(seen, [])))
  {
    assert IdAttrs(prefix, Slugger.Ids(seen, [])) == [];
  }

  /** A heading leaf at the head renders through the heading template. */
  lemma HeadHeading(env: Env, tight: bool, f: seq<Node>, seen: Slugger.Seen)
    requires ValidForest(f) && |f| > 0 && f[0].Leaf? && f[0].token.Heading?
    ensures var t := f[0].token;
            var h := Renderer.Heading(env.opts, env.inline(t.text), t.depth, env.unescape(env.inlineText(t.text)), seen);
            Head(env, tight, f, seen) == Ok(Rendered(h.0, h.1))
  {
    HeadOther(env, tight, f, seen);
  }

  lemma OneId(seen: Slugger.Seen, raw: string)
    ensures Slugger.Ids(seen, [raw]) == [Slugger.Slug(seen, raw).0]
  {
    assert [raw][1..] == [];
  }

  lemma {:induction false} NestTags(env: Env, tight: bool, f: seq<Node>, seen: Slugger.Seen)
    requires ValidForest(f) && |f| > 0 && f[0].Nest? && env.opts.headerIds
    ensures Head(env, tight, f, seen).Ok? ==>
              InOrder(Head(env, tight, f, seen).value.out,
                      IdAttrs(env.opts.headerPrefix, Slugger.Ids(seen, Raws(env, f[..Next(f)]))))
    decreases ForestSize(f), 0
  {
    var o := f[0].opener;
    var kids := f[0].children;
    var (prefix, inner) := Inner(env.opts, o, kids);
    HeadNest(env, tight, f, seen);
    assert ValidNode(f[0]);
    assert ForestSize(f) == NodeSize(f[0]) + ForestSize(f[1..]);
    ForestTags(env, Tight(o), inner, seen);
    InnerRaws(env, o, kids);
    assert f[..1] == [f[0]];
    assert Raws(env, f[..1]) == Raws(env, kids);
    match Forest(env, Tight(o), inner, seen)
    case Err(_) =>
    case Ok(b) =>
      var ps := IdAttrs(env.opts.headerPrefix, Slugger.Ids(seen, Raws(env, kids)));
      InOrderFront(prefix, b.out, ps);
      WrapTags(o, prefix + b.out, ps);
  }

  /** Heading ids within one document are distinct: the slugger is shared
      by the whole parse and consulted once per heading, in order, and the
      slugs it hands out that way are pairwise different and all recorded
      in the final table. */
  lemma DocumentIds(env: Env, f: seq<Node>)
    requires ValidForest(f) && env.opts.headerIds
    ensures var r := Run(env, false, None, Flatten(f), map[]);
            var ids := Slugger.SlugAll(map[], Raws(env, f)).0;
            && |ids| == |Raws(env, f)|
            && (forall i, j :: 0 <= i < j < |ids| ==> ids[i] != ids[j])
            && (r.Ok? ==> r.value.seen == Slugger.SlugAll(map[], Raws(env, f)).1)
            && (r.Ok? ==> forall i :: 0 <= i < |ids| ==> ids[i] in r.value.seen)
            && (r.Ok? ==> InOrder(r.value.out, IdAttrs(env.opts.headerPrefix, ids)))
  {
    RunForest(env, false, None, f, [], map[]);
    assert Flatten(f) + [] == Flatten(f);
    ForestIds(env, false, f, map[]);
    ForestTags(env, false, f, map[]);
    Slugger.SlugAllTable(map[], Raws(env, f));
    Slugger.SlugAllIds(map[], Raws(env, f));
    if Forest(env, false, f, map[]).Ok? {
      var a := Forest(env, false, f, map[]).value;
      assert Run(env, false, None, [], a.seen) == Ok(Step("", [], a.seen));
      assert a.out + "" == a.out;
    }
  }
}
