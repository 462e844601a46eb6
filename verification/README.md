# marked: the parser, the renderers, the escaper and the slugger

A Dafny model of the back half of the marked Markdown compiler (the
TypeScript port). The lexer has already turned the document into a flat
stream of block tokens. The model covers everything from that point on:

- `Parser.parse` and `tok` walk the stream front to back. They recurse
  into blockquotes, lists and list items up to the matching end token.
  They merge runs of text tokens (`parseText`), lay out tables and put the
  checkbox of a task item in place.
- `Renderer` holds the HTML templates the parser calls.
- `TextRenderer` holds the span templates that keep only the text. Heading
  ids are computed from that text.
- `escape(html, encode)` escapes HTML, in its two modes.
- `Slugger.slug` makes heading ids: it normalises the heading text and
  keeps a table of the ids given out so far, so that no id repeats.

Modules, one per file:

| module | file | what it holds |
|---|---|---|
| `Results` | results.dfy | `Option` and `Result` |
| `Strings` | strings.dfy | JavaScript's `\s` class, `trim`, ASCII lower-casing, the decimal numerals JavaScript prints, `Concat`, prefix and suffix facts |
| `Escape` | escape.dfy | `escape` in both modes, with the decoding that inverts encode mode |
| `Slugger` | slugger.dfy | `slug` over a `map<string, nat>` table; the table as the source keeps it (a plain object) |
| `Tokens` | tokens.dfy | the block tokens; the forest `Node` of a well-bracketed stream; `Flatten` and the bracket check `Balanced` |
| `Renderer` | renderer.dfy | the HTML templates over an options record |
| `TextRenderer` | text_renderer.dfy | the text-only span templates; `TextOf`, the text an HTML string shows |
| `Parser` | parser.dfy | `tok`, `parseText`, the loops of `parse` and of the block cases, tables and task items |
| `BlockTree` | block_tree.dfy | the parser read against the nesting of its input: what it makes of the stream of any forest, and heading ids across a document |

How the source maps onto the model:

- **The token array.** The source reverses the token array and pops from
  its end. In the model the remaining tokens are a sequence whose head is
  the next token. Every step returns its output, the tokens it left and
  the slugger table (`Parser.Step`).
- **The four loops.** The top-level loop of `parse` and the loops of the
  three block cases are one function, `Parser.Run`. Its arguments say
  which end token stops it (none at top level) and whether it is the loop
  of a tight list item.
- **Termination.** A loose task item can push a text token onto the
  stream. The termination measure therefore weighs a list-item start
  token as two.
- **Reading past the end.** The source reads the `type` of `undefined`
  there and throws a `TypeError`. The model returns `Err(Truncated)`.
- **Unknown token types.** A token `Other(type)` stands for a type outside
  the fourteen the parser knows (`Tokens.KnownTypes`); the type of its
  field, `Tokens.UnknownName`, rules the known ones out. Such a type gives
  `Err(Unrecognized(type))`.
  In silent mode the source writes the message to the console and `tok`
  returns `undefined`. The caller's `+=` then appends the text
  `"undefined"`, and the model appends it too.
- **Opaque collaborators.** `Parser.Env` carries the inline lexers
  (`inline.output`, `inlineText.output`), the global `unescape` and the
  `highlight` option as functions. `cleanUrl` is a function parameter of
  `link` and `image`.

The central theorem is `BlockTree.RunForest`. Take any forest of blocks,
write it out as its token stream and follow it with any tokens that do not
start with a text token: the parser's loop renders exactly the forest,
block by block, and then goes on with what follows. A following text token
is excluded because the parser would merge it into a text run that ends
the forest (src/parser.ts:81-83). `BlockTree.Forest` is the reference renderer it is
compared with. It recurses on the tree, not on the stream.

Points of the code worth knowing, which the model follows:

- **The language of a code block** is `/\S*/` matched at the start of the
  info string. It is the longest prefix without whitespace, which may be
  empty: an info string that starts with a space gives no language, not
  its first word.
- **Whitespace in a slug** is replaced one character at a time, so a run
  of spaces becomes a run of dashes.
- **`listitem`** is passed the task and checked flags but ignores them.

## Model

| member | source | states |
|---|---|---|
| Strings.Trim | src/slugger.ts:15 | no whitespace is left at either end, the result is no longer than the input, and text without whitespace is unchanged |
| Strings.TrimInfix | src/slugger.ts:15 | the trimmed text is an infix of the input with only whitespace before it and only whitespace after it |
| Strings.ToLower | src/slugger.ts:14 | same length, each character mapped by the ASCII lower-case map, no upper-case ASCII letter left |
| Strings.DecimalRoundTrip | src/slugger.ts:23 | reading back the numeral JavaScript prints for a counter gives the counter |
| Strings.NatToStringInjective | src/slugger.ts:23 | distinct counters print as distinct numerals, so the suffixes `-1`, `-2`, … differ |
| Strings.IntToString | src/renderer.ts:71 | the numeral of a list start is non-empty; it begins with `-` exactly for a negative start and with a digit otherwise; the digits after the sign read back as the start's absolute value |
| Escape.Escape | src/escape.ts:1-28 | in both modes the output has no raw `< > " '`. In encode mode every `&` of the output begins one of the five table entities. In no-encode mode every `&` is followed by `#?\w+;`. Where the mode's test finds nothing the input comes back unchanged |
| Escape.EncodeRewrite | src/escape.ts:3-6 | encode mode equals the rewrite of every character through the table, each character on its own and in order, whether or not the test matched |
| Escape.NoEncodeRewrite | src/escape.ts:7-10 | no-encode mode equals the position-by-position rewrite: an `&` the input continues with `#?\w+;` stays, every other character goes through the table |
| Escape.NoEncodeNoMatchIdentity | src/escape.ts:25-26 | where no position matches `[<>"']\|&(?!#?\w+;)`, the replacement is the identity, so the test only saves work |
| Escape.NoMatchIdentity | src/escape.ts:16-17 | where no character is one of `&<>"'`, the encode replacement is the identity |
| Escape.EncodeRoundTrip | src/escape.ts:17-24 | decoding the five entities undoes encode mode: `DecodeEntities(escape(s, true)) == s` |
| Escape.EncodedUnique | src/escape.ts:3-6 | encode mode's output is the only text that has no raw `< > " '`, has every `&` beginning one of the five entities, and decodes to the input |
| Escape.DecodeEntity | src/escape.ts:18-24 | each table entry decodes back to its character |
| Escape.NoEncodeIdempotent | src/escape.ts:25-26 | no-encode mode is idempotent: `escape(escape(s, false), false) == escape(s, false)` |
| Escape.NoEncodeClean | src/escape.ts:25 | text without raw markup whose every `&` starts a reference fails the no-encode test |
| Escape.EntityAheadKept | src/escape.ts:26 | the characters of a reference are not rewritten, so a kept reference stays a reference |
| Escape.ModesAgreeWithoutAmp | src/escape.ts:3-10 | on text without `&` the two modes give the same output |
| Escape.ReplaceModesAgree | src/escape.ts:17-26 | on text without `&` the two replacements agree |
| Slugger.Strip | src/slugger.ts:16 | no stripped character is left, every kept character comes from the input, every other input character is kept, and text with nothing to strip is unchanged |
| Slugger.StripConcat | src/slugger.ts:16 | stripping works character by character: it distributes over concatenation |
| Slugger.Dashes | src/slugger.ts:17 | each whitespace character becomes one `-`, every other character is kept in place; no whitespace is left |
| Slugger.BaseSlug | src/slugger.ts:13-17 | the normalised text holds no whitespace and no stripped character, and is no longer than the heading text |
| Slugger.PlainBase | src/slugger.ts:13-17 | text of lower-case letters and `_` is its own base slug |
| Slugger.KeyText | src/slugger.ts:23 | the `-<n>` suffix adds no whitespace and no stripped character |
| Slugger.KeyInjective | src/slugger.ts:23 | `base-<a> == base-<b>` only when `a == b` |
| Slugger.TakenShrinks | src/slugger.ts:21-24 | each turn of the collision loop that finds its candidate taken shrinks the finite set of taken candidates still ahead, so the loop ends |
| Slugger.Probe | src/slugger.ts:21-24 | the loop stops at the first counter from `n` on whose candidate is not in the table |
| Slugger.Slug | src/slugger.ts:12-29 | the id is new to the table and recorded with counter 0. No key is removed. A fresh base slug is returned as it is. A repeated one is `base-<m>` with `m` above the base's old counter and every candidate in between taken, and the base's counter becomes `m`. Other counters are unchanged |
| Slugger.IdsAppend | src/slugger.ts:19-26 | the ids of two runs of headings are the first run's ids followed by the second's, taken from the table the first run leaves |
| Slugger.SlugAll | src/slugger.ts:19-26 | ids handed out one after another by one table are pairwise distinct, all new to the starting table and all recorded in the final one |
| Slugger.SlugObject | src/slugger.ts:19-28 | the table as a plain object: the id is new to the table, but it is recorded only when it is not `__proto__` |
| Slugger.ProtoSlugRepeats | src/slugger.ts:19-26 | with the plain object, two headings `__proto__` get the same id |
| Tokens.TypeName | src/parser.ts:93-211 | a token's type string is one of the fourteen the parser recognises exactly when the token is not `Other`: a token of a known type is never carried by `Other`, so a forest holds only tokens the lexer can produce |
| Tokens.FlattenAppend | src/parser.ts:50-52 | the stream of two forests one after the other is the concatenation of their streams |
| Tokens.FlattenBalanced | src/parser.ts:145-192 | the stream of any forest is well bracketed: each start token is closed by its own end token at the same depth |
| Tokens.UnflattenSound | src/parser.ts:145-192 | reading any stream into blocks up to the first unmatched end token gives a forest whose stream, followed by what is left, is the input |
| Tokens.BalancedStreams | src/parser.ts:145-192 | a stream is well bracketed exactly when it is the stream of some forest, and the forest read from it is one |
| Renderer.LangOf | src/renderer.ts:17 | the language is the longest whitespace-free prefix of the info string, empty without one |
| Renderer.Highlight | src/renderer.ts:18-24 | without a highlighter code and flag are unchanged. When the highlighter returns output that differs from the code, that output is used and marked escaped. Otherwise the code and flag are kept |
| Renderer.CodeShape | src/renderer.ts:16-38 | a class attribute and a trailing newline appear exactly when there is a language. Between the opening and closing tags sits the body: the highlighted or already escaped text as given, or else the code entity-encoded: free of raw markup, every `&` beginning one of the five entities, and decoding back to the code, which makes it exactly the code escaped in encode mode (`Renderer.BodyDetermined`) |
| Renderer.CodeTags | src/renderer.ts:26-37 | a block always opens with `<pre><code`; the class attribute and the trailing newline appear exactly when there is a language |
| Renderer.CodeFrame | src/renderer.ts:16-38 | the block is its opening tag, the body as above, then its closing tag |
| Renderer.BodyDetermined | src/renderer.ts:18-28 | the body a code block may hold is unique: the highlighted or already escaped text as given, or else exactly `escape(code, true)` |
| Renderer.CodeClassed | src/renderer.ts:32-37 | with a language the block opens with `<pre><code class="`, the language prefix and the language escaped in encode mode, which holds no raw markup; it ends with `</code></pre>` and a newline; the body between is as above |
| Renderer.CodePlain | src/renderer.ts:26-30 | without a language the block opens with `<pre><code>` and no class attribute and ends with `</code></pre>` and no newline; the body between is as above |
| Renderer.HeadingShape | src/renderer.ts:48-63 | an `id` attribute appears exactly with header ids. Then the opening tag carries the prefix followed by the slug of `raw`, and the table is the slugger's after one call; without, the tag is bare and the table is untouched. The heading ends with the text and the closing tag of its level |
| Renderer.HeadingIdAttr | src/renderer.ts:50-57 | with header ids the heading contains its whole `id` attribute, prefix and slug included |
| Renderer.ListShape | src/renderer.ts:69-73 | `ol` exactly for an ordered list; a `start` attribute exactly for an ordered list not starting at 1; the matching closing tag |
| Renderer.ListItemFlags | src/renderer.ts:75-77 | the item does not depend on the task and checked flags and wraps the text in `<li>` |
| Renderer.CheckboxChecked | src/renderer.ts:79-85 | `checked=""` appears exactly for a checked box |
| Renderer.CheckboxClose | src/renderer.ts:79-85 | the self-closing ` /` appears exactly in XHTML mode |
| Renderer.SelfClosing | src/renderer.ts:65-67 | `hr` and `br` self-close exactly in XHTML mode |
| Renderer.TableShape | src/renderer.ts:91-100 | the header always sits inside `<thead>` at the start. A non-empty body follows inside `<tbody>`, closed by `</tbody></table>`. An empty body leaves no `<tbody>` and the table closes right after the head |
| Renderer.TableCellShape | src/renderer.ts:106-112 | `th` exactly for a header cell; an `align` attribute, with the alignment's name, exactly for an aligned column |
| Renderer.LinkShape | src/renderer.ts:135-146 | the bare text when the URL is refused. Otherwise an anchor whose `href` is escaped in no-encode mode, with a title attribute exactly for a truthy title and the text before `</a>` |
| Renderer.ImageShape | src/renderer.ts:148-160 | the bare text when the URL is refused. Otherwise an `img` with the text as `alt`, a title attribute exactly for a truthy title, and self-closing exactly in XHTML mode |
| TextRenderer.Strong | src/textRenderer.ts:10-12 | shows the same text as the HTML `strong` |
| TextRenderer.Em | src/textRenderer.ts:14-16 | shows the same text as the HTML `em` |
| TextRenderer.Codespan | src/textRenderer.ts:18-20 | shows the same text as the HTML `codespan` |
| TextRenderer.Del | src/textRenderer.ts:22-24 | shows the same text as the HTML `del` |
| TextRenderer.Text | src/textRenderer.ts:26-28 | agrees with the HTML `text` |
| TextRenderer.Br | src/textRenderer.ts:38-40 | is the text the HTML `br` shows: none |
| TextRenderer.Link | src/textRenderer.ts:30-32 | shows the same text as the HTML anchor when the title holds no `>` |
| TextRenderer.Image | src/textRenderer.ts:34-36 | is the image's text, whatever the URL. When the URL is accepted, that text is what the HTML image's `alt` attribute holds; when it is refused, it is the HTML image's output |
| TextRenderer.NestedImage | src/textRenderer.ts:10-36 | any nesting of the span templates around an image gives back the image's text |
| TextRenderer.WrapText | src/renderer.ts:115-133 | text between two tags shows exactly its own text |
| TextRenderer.NestedText | src/textRenderer.ts:10-32 | any nesting of the span templates around a text gives back that text |
| Parser.JoinText | src/parser.ts:81-83 | what the loop leaves is a suffix of the stream that does not start with a text token |
| Parser.JoinTextLines | src/parser.ts:78-86 | the loop takes exactly the text tokens at the head of the stream and appends `"\n" + text` for each of them, in order |
| Parser.ParseText | src/parser.ts:78-86 | the inline lexer is applied once, to the joined body |
| Parser.RowCells | src/parser.ts:122-127 | the `for` loop over a row joins its cells in order |
| Parser.BodyRows | src/parser.ts:130-142 | the body is one row per entry of `cells`, in order |
| Parser.TableLayout | src/parser.ts:112-144 | a header row of one header cell per header text and one body row per row of cells, each cell aligned as its column |
| Parser.TaskStart | src/parser.ts:171-185 | not a task: nothing. Tight task: the checkbox goes into the body. Loose task: `checkbox + " "` is put in front of a following text token, or a text token holding the checkbox is pushed |
| Parser.Unknown | src/parser.ts:204-211 | an unknown type fails exactly outside silent mode, with an unrecognised-type error. In silent mode the stream and the slugger table are left as they were |
| Parser.Single | src/parser.ts:92-211 | every non-block case reads forward only and changes the slugger table only for a heading |
| Parser.Tok | src/parser.ts:92-213 | `tok()` reads forward only, only adds to the slugger table, and raises no unknown-type error in silent mode |
| Parser.Item | src/parser.ts:165-193 | a list item reads forward only, also when a checkbox token was pushed in front |
| Parser.First | src/parser.ts:187-191 | one turn of a loop: a text run without paragraph in a tight item, `tok()` otherwise |
| Parser.Run | src/parser.ts:50-52 | the loop leaves a suffix of the stream; the block loops consume their end token and the top loop consumes all tokens |
| Parser.Parse | src/parser.ts:40-55 | in silent mode `parse` raises no unknown-type error |
| BlockTree.JoinTextForest | src/parser.ts:81-83 | on the stream of a forest, the text-run loop takes exactly the forest's leading text leaves |
| BlockTree.NestForest | src/parser.ts:145-193 | a start token reads its block's content, renders it as the reference does, consumes the end token and hands on what follows |
| BlockTree.FirstForest | src/parser.ts:187-191 | the first turn of a loop on the stream of a forest renders the forest's first block as the reference does |
| BlockTree.RunForest | src/parser.ts:50-52 | the parser's loop on the stream of any forest, followed by any tokens that do not start with a text token, renders exactly the forest, then continues with what follows |
| BlockTree.ParseForest | src/parser.ts:40-55 | `parse` of the stream of any forest is the reference rendering, and never reads past the end |
| BlockTree.ParseBalanced | src/parser.ts:40-55 | `parse` of any well-bracketed stream never reads past the end and is the reference rendering of the forest read from it |
| BlockTree.BlockOutput | src/parser.ts:145-164 | a block consumes its tokens up to and including its own end token and no more; its output is the template around its content |
| BlockTree.Unclosed | src/parser.ts:148 | a block whose end token never comes is an error |
| BlockTree.UnclosedDocument | src/parser.ts:61-64 | a document that opens a block and never closes it does not parse |
| BlockTree.UnknownType | src/parser.ts:204-211 | a leading token whose type is none of the known types makes `parse` fail with that type, or in silent mode puts `undefined` in front of the rest |
| BlockTree.ItemText | src/parser.ts:165-193 | a one-line item: a tight item writes the text bare, a loose one as a paragraph; the checkbox goes in front, inside the paragraph in a loose item |
| BlockTree.InnerRaws | src/parser.ts:171-185 | the checkbox put in front of an item's content adds no heading |
| BlockTree.ForestIds | src/parser.ts:100-106 | with header ids on, rendering a forest calls `slug` once per heading, in document order; otherwise the table is untouched |
| BlockTree.ForestTags | src/parser.ts:100-106 | with header ids on, the rendering of a forest carries the `id` attribute of each heading, prefix and slug, in document order |
| BlockTree.DocumentIds | src/parser.ts:26 | one slugger per parse: the heading ids of a document are pairwise distinct and all recorded, and the output carries them as `id` attributes, prefixed, in document order |

## Left out

- The lexers (`block.ts`, `inline.ts`, `lexer.ts`, `inlineLexer.ts`): the
  regular-expression grammar and its backtracking engine are not part of
  this model. The inline lexer's output is a function parameter.
- `marked.ts`, `index.ts` and `utils.ts`: option merging and defaults,
  the asynchronous highlight fan-out, the silent-mode fallback to an error
  page, export wiring. `cleanUrl`, the global `unescape` and the
  `highlight` option are function parameters.
- Writing the unknown-type message to the console in silent mode: it is
  output only.
- Strings.ToLower: lower-cases ASCII only. JavaScript's full Unicode case
  mapping is not modelled.
- Parser.Run: the source reverses the caller's token array in place and
  pops it empty as it goes. The model reads an immutable sequence and has
  no such side effect.
- Parser.Item: in a loose task item the source rewrites the `text` of the
  following text token in place (src/parser.ts:175). The model returns the
  rewritten token at the head of the remaining stream instead, so the
  caller's token object is not changed.
- Parser.Tok: headings get their ids from the corrected `Slugger.Slug`,
  whose table is a map. Two headings with the text `__proto__` therefore
  get different ids in the model, while the source gives both the same id
  (see Findings). `Slugger.SlugObject` models the source's table.
- Block templates of the text renderer: it inherits them unchanged from
  `Renderer`, so they are the same functions and are not repeated.
- Renderer.Blockquote, Renderer.Paragraph, Renderer.Strong, Renderer.Em,
  Renderer.Codespan, Renderer.Del and Renderer.TableRow: each is a fixed
  template around its argument. They are stated only through their use by
  the parser and by the text renderer. `Renderer.Html` and `Renderer.Text`
  return their argument, which is all their contracts say.
- TextRenderer.Link: its agreement with the HTML anchor is stated for
  titles without `>`. A title holding `>` ends the tag early for the
  simple tag reader `TextOf`.
- Tokens: only the fields the parser reads are modelled. A `heading`
  token's depth is a `nat`, a list's start an `int`.

## Findings

| source | as written | input that shows it | evidently intended | confidence | as-written member | corrected member |
|---|---|---|---|---|---|---|
| src/slugger.ts:6 | `seen` is a plain object, so the write `seen["__proto__"] = 0` goes through the inherited `__proto__` setter, which ignores a number: no own key `__proto__` is created and `hasOwnProperty("__proto__")` stays false | two headings with the text `__proto__` in one document | every id handed out is recorded, so the second heading gets `__proto__-1` | not executed | Slugger.ProtoSlugRepeats | Slugger.Slug |
