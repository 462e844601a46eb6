/** The block tokens the lexer hands to the parser, and the nesting they
    are meant to have.

    A token stream is flat: a blockquote, a list and a list item are each
    a start token, the tokens of their content, and an end token. The
    forest type `Node` is that nesting made explicit; `Flatten` writes a
    forest out as the flat stream, and `Balanced` is the bracket check
    such a stream passes. */
module Tokens {
  import opened Results

  /** A table column's alignment: `'left'`, `'center'`, `'right'`, or
      `null` for none. */
  datatype Align = NoAlign | Left | Center | Right

  /** One block token; the constructor is the token's `type`. `Other` is a
      token whose type the parser has no case for: its `typeName` is an
      `UnknownName`, so a token of a known type is always written with the
      constructor of that type. */
  datatype Token =
    | Space
    | Hr
    | Heading(depth: nat, text: string)
    | Code(text: string, lang: Option<string>, escaped: bool)
    | Table(header: seq<string>, align: seq<Align>, cells: seq<seq<string>>)
    | BlockquoteStart
    | BlockquoteEnd
    | ListStart(ordered: bool, start: int)
    | ListEnd
    | ListItemStart(task: bool, checked: bool, loose: bool)
    | ListItemEnd
    | Html(text: string)
    | Paragraph(text: string)
    | Text(text: string)
    | Other(typeName: UnknownName)

  /** The type strings the parser recognises: the cases of `tok()` and
      the three end types its loops test for. */
  const KnownTypes: set<string> :=
    {"space", "hr", "heading", "code", "table", "blockquote_start", "blockquote_end", "list_start",
     "list_end", "list_item_start", "list_item_end", "html", "paragraph", "text"}

  /** A type string outside `KnownTypes`. */
  type UnknownName = n: string | n !in KnownTypes witness "unknown"

  /** The token's `type` string. Every constructor but `Other` names one
      of the known types; `Other` carries its own, which is none of them. */
  function TypeName(t: Token): (r: string)
    ensures r in KnownTypes <==> !t.Other?
    ensures t.Other? ==> r == t.typeName
  {
    match t
    case Space => "space"
    case Hr => "hr"
    case Heading(_, _) => "heading"
    case Code(_, _, _) => "code"
    case Table(_, _, _) => "table"
    case BlockquoteStart => "blockquote_start"
    case BlockquoteEnd => "blockquote_end"
    case ListStart(_, _) => "list_start"
    case ListEnd => "list_end"
    case ListItemStart(_, _, _) => "list_item_start"
    case ListItemEnd => "list_item_end"
    case Html(_) => "html"
    case Paragraph(_) => "paragraph"
    case Text(_) => "text"
    case Other(name) => name
  }

  predicate IsStart(t: Token) {
    t.BlockquoteStart? || t.ListStart? || t.ListItemStart?
  }

  predicate IsEnd(t: Token) {
    t.BlockquoteEnd? || t.ListEnd? || t.ListItemEnd?
  }

  /** What a start token carries; each kind has its own end token. */
  datatype Opener =
    | Quote
    | List(ordered: bool, start: int)
    | Item(task: bool, checked: bool, loose: bool)

  function StartToken(o: Opener): (t: Token)
    ensures IsStart(t) && !IsEnd(t)
  {
    match o
    case Quote => BlockquoteStart
    case List(ordered, start) => ListStart(ordered, start)
    case Item(task, checked, loose) => ListItemStart(task, checked, loose)
  }

  function EndToken(o: Opener): (t: Token)
    ensures IsEnd(t) && !IsStart(t)
  {
    match o
    case Quote => BlockquoteEnd
    case List(_, _) => ListEnd
    case Item(_, _, _) => ListItemEnd
  }

  /** The end token a start token waits for. */
  function EndOf(t: Token): (e: Token)
    requires IsStart(t)
    ensures IsEnd(e)
  {
    match t
    case BlockquoteStart => BlockquoteEnd
    case ListStart(_, _) => ListEnd
    case ListItemStart(_, _, _) => ListItemEnd
  }

  /** The opener a start token stands for. */
  function OpenerOf(t: Token): (o: Opener)
    requires IsStart(t)
    ensures StartToken(o) == t && EndToken(o) == EndOf(t)
  {
    match t
    case BlockquoteStart => Quote
    case ListStart(ordered, start) => List(ordered, start)
    case ListItemStart(task, checked, loose) => Item(task, checked, loose)
  }

  /** A block of the document: a single token, or a start/end pair around
      the blocks it contains. */
  datatype Node = Leaf(token: Token) | Nest(opener: Opener, children: seq<Node>)

  /** Leaves are neither start nor end tokens: every bracket of a forest
      is written by a `Nest`. */
  predicate ValidNode(n: Node)
    decreases n
  {
    match n
    case Leaf(t) => !IsStart(t) && !IsEnd(t)
    case Nest(_, kids) => forall i :: 0 <= i < |kids| ==> ValidNode(kids[i])
  }

  predicate ValidForest(f: seq<Node>) {
    forall i :: 0 <= i < |f| ==> ValidNode(f[i])
  }

  function FlattenNode(n: Node): (s: seq<Token>)
    ensures |s| > 0
    decreases n
  {
    match n
    case Leaf(t) => [t]
    case Nest(o, kids) => [StartToken(o)] + Flatten(kids) + [EndToken(o)]
  }

  /** The flat token stream of a forest, front to back. */
  function Flatten(f: seq<Node>): (s: seq<Token>)
    ensures |f| > 0 ==> |s| > 0
    decreases f
  {
    if |f| == 0 then [] else FlattenNode(f[0]) + Flatten(f[1..])
  }

  lemma {:induction false} FlattenAppend(f: seq<Node>, g: seq<Node>)
    ensures Flatten(f + g) == Flatten(f) + Flatten(g)
    decreases |f|
  {
    if |f| == 0 {
      assert f + g == g;
    } else {
      assert (f + g)[1..] == f[1..] + g;
      FlattenAppend(f[1..], g);
    }
  }

  lemma FlattenSplit(f: seq<Node>, m: nat)
    requires m <= |f|
    ensures Flatten(f) == Flatten(f[..m]) + Flatten(f[m..])
  {
    assert f == f[..m] + f[m..];
    FlattenAppend(f[..m], f[m..]);
  }

  /** A size that a forest's content is smaller than; it also bounds the
      forest the parser walks after a task item's checkbox token is added. */
  function NodeSize(n: Node): nat
    decreases n
  {
    match n
    case Leaf(_) => 1
    case Nest(_, kids) => 2 + ForestSize(kids)
  }

  function ForestSize(f: seq<Node>): nat
    decreases f
  {
    if |f| == 0 then 0 else NodeSize(f[0]) + ForestSize(f[1..])
  }

  lemma {:induction false} ForestSizeSplit(f: seq<Node>, m: nat)
    requires m <= |f|
    ensures ForestSize(f) == ForestSize(f[..m]) + ForestSize(f[m..])
    decreases m
  {
    if m > 0 {
      assert f[..m][1..] == f[1..][..m - 1];
      assert f[m..] == f[1..][m - 1..];
      ForestSizeSplit(f[1..], m - 1);
    }
  }

  // ---------------------------------------------------------------------
  // Bracket check

  /** Reads `s` with a stack of the end tokens still awaited, innermost
      first; `None` when an end token comes that is not the awaited one. */
  function Scan(s: seq<Token>, awaited: seq<Token>): Option<seq<Token>>
    decreases |s|
  {
    if |s| == 0 then Some(awaited)
    else if IsStart(s[0]) then Scan(s[1..], [EndOf(s[0])] + awaited)
    else if IsEnd(s[0]) then
      if |awaited| > 0 && awaited[0] == s[0] then Scan(s[1..], awaited[1..]) else None
    else Scan(s[1..], awaited)
  }

  /** Every start token has its own end token later in the stream, at the
      same depth. */
  predicate Balanced(s: seq<Token>) {
    Scan(s, []) == Some([])
  }

  lemma {:induction false} ScanNode(n: Node, s: seq<Token>, awaited: seq<Token>)
    requires ValidNode(n)
    ensures Scan(FlattenNode(n) + s, awaited) == Scan(s, awaited)
    decreases n, 1
  {
    match n
    case Leaf(t) =>
      assert ([t] + s)[1..] == s;
    case Nest(o, kids) =>
      var open := StartToken(o);
      var close := EndToken(o);
      var t := FlattenNode(n) + s;
      assert t == [open] + (Flatten(kids) + ([close] + s));
      assert EndOf(open) == close;
      ScanForest(kids, [close] + s, [close] + awaited);
      assert ([close] + s)[1..] == s;
  }

  lemma {:induction false} ScanForest(f: seq<Node>, s: seq<Token>, awaited: seq<Token>)
    requires ValidForest(f)
    ensures Scan(Flatten(f) + s, awaited) == Scan(s, awaited)
    decreases f, 0
  {
    if |f| > 0 {
      assert Flatten(f) + s == FlattenNode(f[0]) + (Flatten(f[1..]) + s);
      ScanNode(f[0], Flatten(f[1..]) + s, awaited);
      ScanForest(f[1..], s, awaited);
    } else {
      assert Flatten(f) + s == s;
    }
  }

  /** The stream of any forest is balanced. */
  lemma FlattenBalanced(f: seq<Node>)
    requires ValidForest(f)
    ensures Balanced(Flatten(f))
  {
    ScanForest(f, [], []);
    assert Flatten(f) + [] == Flatten(f);
  }

  // ---------------------------------------------------------------------
  // From a balanced stream back to its forest

  /** Reads blocks off the front of `s`, stopping at an end token, at the
      end of the stream, or at a start token whose end token does not
      follow its content; returns the blocks and the tokens left. */
  function Unflatten(s: seq<Token>): (r: (seq<Node>, seq<Token>))
    ensures |r.1| <= |s|
    decreases |s|
  {
    if |s| == 0 || IsEnd(s[0]) then ([], s)
    else if !IsStart(s[0]) then
      var (f, rest) := Unflatten(s[1..]);
      ([Leaf(s[0])] + f, rest)
    else
      var (kids, r1) := Unflatten(s[1..]);
      if |r1| > 0 && r1[0] == EndOf(s[0]) then
        var (more, r2) := Unflatten(r1[1..]);
        ([Nest(OpenerOf(s[0]), kids)] + more, r2)
      else
        ([], s)
  }

  /** The blocks read are a forest, and its stream is what was read. */
  lemma {:induction false} UnflattenSound(s: seq<Token>)
    ensures ValidForest(Unflatten(s).0)
    ensures Flatten(Unflatten(s).0) + Unflatten(s).1 == s
    decreases |s|
  {
    if |s| == 0 || IsEnd(s[0]) {
      assert Flatten([]) + s == s;
    } else if !IsStart(s[0]) {
      UnflattenSound(s[1..]);
      LeafSound(s, Unflatten(s[1..]).0, Unflatten(s[1..]).1);
    } else {
      var (kids, r1) := Unflatten(s[1..]);
      UnflattenSound(s[1..]);
      if |r1| > 0 && r1[0] == EndOf(s[0]) {
        UnflattenSound(r1[1..]);
        NestSound(s, kids, r1, Unflatten(r1[1..]).0, Unflatten(r1[1..]).1);
      } else {
        assert Flatten([]) + s == s;
      }
    }
  }

  /** `UnflattenSound` for a stream that starts with a token of its own. */
  lemma LeafSound(s: seq<Token>, f: seq<Node>, rest: seq<Token>)
    requires |s| > 0 && !IsStart(s[0]) && !IsEnd(s[0])
    requires ValidForest(f) && Flatten(f) + rest == s[1..]
    ensures ValidForest([Leaf(s[0])] + f) && Flatten([Leaf(s[0])] + f) + rest == s
  {
    ConsNode(Leaf(s[0]), f);
    assert FlattenNode(Leaf(s[0])) == [s[0]];
    assert s == [s[0]] + s[1..];
  }

  /** `UnflattenSound` for a stream that starts with a block closed later. */
  lemma NestSound(s: seq<Token>, kids: seq<Node>, r1: seq<Token>, more: seq<Node>, r2: seq<Token>)
    requires |s| > 0 && IsStart(s[0]) && |r1| > 0 && r1[0] == EndOf(s[0])
    requires ValidForest(kids) && Flatten(kids) + r1 == s[1..]
    requires ValidForest(more) && Flatten(more) + r2 == r1[1..]
    ensures var n := Nest(OpenerOf(s[0]), kids);
            ValidForest([n] + more) && Flatten([n] + more) + r2 == s
  {
    var o := OpenerOf(s[0]);
    var n := Nest(o, kids);
    ConsNode(n, more);
    assert FlattenNode(n) == [s[0]] + Flatten(kids) + [r1[0]];
    calc {
      Flatten([n] + more) + r2;
      (FlattenNode(n) + Flatten(more)) + r2;
      (([s[0]] + Flatten(kids) + [r1[0]]) + Flatten(more)) + r2;
      { SeqAssoc4([s[0]], Flatten(kids), [r1[0]], Flatten(more), r2); }
      [s[0]] + (Flatten(kids) + ([r1[0]] + (Flatten(more) + r2)));
      { assert [r1[0]] + r1[1..] == r1; }
      [s[0]] + (Flatten(kids) + r1);
      s;
    }
  }

  /** A node in front of a forest: still a forest, and its stream is the
      node's stream in front of the forest's. */
  lemma ConsNode(n: Node, f: seq<Node>)
    requires ValidNode(n) && ValidForest(f)
    ensures ValidForest([n] + f)
    ensures Flatten([n] + f) == FlattenNode(n) + Flatten(f)
  {
    assert ([n] + f)[0] == n && ([n] + f)[1..] == f;
  }

  lemma SeqAssoc4<T>(a: seq<T>, b: seq<T>, c: seq<T>, d: seq<T>, e: seq<T>)
    ensures ((a + b + c) + d) + e == a + (b + (c + (d + e)))
  {
  }

  /** Read from a stack that the stream does not grow, `Unflatten` stops
      only at an end token or at the end of the stream. */
  lemma {:induction false} UnflattenStops(s: seq<Token>, awaited: seq<Token>, last: seq<Token>)
    requires Scan(s, awaited) == Some(last) && |last| <= |awaited|
    ensures |Unflatten(s).1| == 0 || IsEnd(Unflatten(s).1[0])
    decreases |s|
  {
    if |s| == 0 || IsEnd(s[0]) {
    } else if !IsStart(s[0]) {
      UnflattenStops(s[1..], awaited, last);
    } else {
      var e := EndOf(s[0]);
      var (kids, r1) := Unflatten(s[1..]);
      UnflattenStops(s[1..], [e] + awaited, last);
      UnflattenSound(s[1..]);
      ScanForest(kids, r1, [e] + awaited);
      if |r1| > 0 && r1[0] == e {
        UnflattenStops(r1[1..], awaited, last);
      } else {
        assert false;
      }
    }
  }

  /** A stream is balanced exactly when it is the stream of a forest, and
      `Unflatten` finds that forest. */
  lemma BalancedStreams(s: seq<Token>)
    ensures Balanced(s) <==> exists f :: ValidForest(f) && Flatten(f) == s
    ensures Balanced(s) ==> ValidForest(Unflatten(s).0) && Flatten(Unflatten(s).0) == s
  {
    if Balanced(s) {
      var (f, rest) := Unflatten(s);
      UnflattenSound(s);
      UnflattenStops(s, [], []);
      ScanForest(f, rest, []);
      if |rest| > 0 {
        assert false;
      }
      assert Flatten(f) + rest == Flatten(f);
    }
    if exists f :: ValidForest(f) && Flatten(f) == s {
      var f :| ValidForest(f) && Flatten(f) == s;
      FlattenBalanced(f);
    }
  }
}
