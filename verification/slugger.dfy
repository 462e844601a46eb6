/** The heading-id generator of src/slugger.ts.

    `slug(value)` normalises the heading text to a base slug, and a
    per-document table `seen` makes sure no id is handed out twice: a base
    slug met again gets the suffix `-n`, with `n` counted up from the
    counter stored for that base until the suffixed slug is unused. The
    table is threaded explicitly: every call takes the table and returns
    the slug together with the new table. */
module Slugger {
  import opened Strings

  /** `seen`: every slug handed out so far, with the collision counter of
      the slugs that served as a base. */
  type Seen = map<string, nat>

  /** The class `[\u2000-\u206F\u2E00-\u2E7F\\'!"#$%&()*+,./:;<=>?@[\]^`{|}~]`
      of characters removed from a heading. */
  predicate IsStripped(c: char) {
    || ('\U{2000}' <= c <= '\U{206F}')
    || ('\U{2E00}' <= c <= '\U{2E7F}')
    // the ASCII members, by range: ! " # $ % & ' ( ) * + , . /  : ; < = > ? @
    // [ \ ] ^  `  { | } ~ (so `-` and `_` are kept)
    || ('!' <= c <= '/' && c != '-')
    || (':' <= c <= '@')
    || ('[' <= c <= '^')
    || c == '`'
    || ('{' <= c <= '~')
  }

  /** The characters a slug never contains. */
  predicate SlugText(s: string) {
    forall i :: 0 <= i < |s| ==> !IsSpace(s[i]) && !IsStripped(s[i])
  }

  /** `.replace(<the class above>/g, '')` */
  function Strip(s: string): (r: string)
    ensures |r| <= |s|
    ensures forall i :: 0 <= i < |r| ==> !IsStripped(r[i])
    ensures forall i :: 0 <= i < |r| ==> r[i] in s
    ensures forall i :: 0 <= i < |s| && !IsStripped(s[i]) ==> s[i] in r
    ensures (forall i :: 0 <= i < |s| ==> !IsStripped(s[i])) ==> r == s
  {
    if |s| == 0 then ""
    else (if IsStripped(s[0]) then "" else [s[0]]) + Strip(s[1..])
  }

  /** Removing characters commutes with concatenation: `Strip` keeps the
      order of what it keeps. */
  lemma {:induction false} StripConcat(a: string, b: string)
    ensures Strip(a + b) == Strip(a) + Strip(b)
  {
    if |a| > 0 {
      assert (a + b)[1..] == a[1..] + b;
      StripConcat(a[1..], b);
    } else {
      assert a + b == b;
    }
  }

  /** `.replace(/\s/g, '-')`: each whitespace character becomes one `-`;
      runs are not collapsed. */
  function Dashes(s: string): (r: string)
    ensures |r| == |s|
    ensures forall i :: 0 <= i < |s| ==> r[i] == (if IsSpace(s[i]) then '-' else s[i])
    ensures NoSpace(r)
    ensures NoSpace(s) ==> r == s
  {
    if |s| == 0 then "" else [if IsSpace(s[0]) then '-' else s[0]] + Dashes(s[1..])
  }

  /** The normalised heading text: lower-cased, trimmed, stripped of the
      class above, whitespace turned into dashes. */
  function BaseSlug(value: string): (r: string)
    ensures SlugText(r)
    ensures |r| <= |value|
  {
    Dashes(Strip(Trim(ToLower(value))))
  }

  /** `originalSlug + '-' + n` */
  function Key(base: string, n: nat): (r: string)
    ensures |r| > |base|
  {
    base + "-" + NatToString(n)
  }

  lemma KeyText(base: string, n: nat)
    requires SlugText(base)
    ensures SlugText(Key(base, n))
  {
    var k := Key(base, n);
    forall i | |base| <= i < |k|
      ensures !IsSpace(k[i]) && !IsStripped(k[i])
    {
      if i > |base| {
        assert k[i] == NatToString(n)[i - |base| - 1];
      }
    }
  }

  lemma KeyInjective(base: string, a: nat, b: nat)
    requires Key(base, a) == Key(base, b)
    ensures a == b
  {
    assert Key(base, a)[|base| + 1..] == NatToString(a);
    assert Key(base, b)[|base| + 1..] == NatToString(b);
    NatToStringInjective(a, b);
  }

  /** The suffixed slugs with counter at least `n` that are already taken:
      a finite set that shrinks as the counter grows. */
  ghost function Taken(seen: Seen, base: string, n: nat): set<string> {
    set k | k in seen.Keys && exists j: nat :: j >= n && k == Key(base, j)
  }

  lemma TakenShrinks(seen: Seen, base: string, n: nat)
    requires Key(base, n) in seen
    ensures |Taken(seen, base, n + 1)| < |Taken(seen, base, n)|
  {
    var k := Key(base, n);
    assert k in Taken(seen, base, n);
    if k in Taken(seen, base, n + 1) {
      var j: nat :| j >= n + 1 && k == Key(base, j);
      KeyInjective(base, n, j);
    }
    SmallerSet(Taken(seen, base, n + 1), Taken(seen, base, n));
  }

  lemma SmallerSet<T>(a: set<T>, b: set<T>)
    requires a < b
    ensures |a| < |b|
  {
    var d := b - a;
    assert b == a + d;
    assert d != {};
  }

  /** The loop that bumps the counter until the suffixed slug is not yet
      an own key of the table: the first counter from `n` on whose
      suffixed slug is free. It terminates because the counter grows and
      only finitely many slugs are taken. */
  function Probe(seen: Seen, base: string, n: nat): (m: nat)
    ensures m >= n
    ensures Key(base, m) !in seen
    ensures forall j: nat :: n <= j < m ==> Key(base, j) in seen
    decreases |Taken(seen, base, n)|
  {
    if Key(base, n) in seen then
      TakenShrinks(seen, base, n);
      Probe(seen, base, n + 1)
    else
      n
  }

  /** `Slugger.slug(value)`, returning the slug and the updated table. */
  function Slug(seen: Seen, value: string): (r: (string, Seen))
    ensures r.0 !in seen && r.0 in r.1 && r.1[r.0] == 0
    ensures r.1.Keys == seen.Keys + {r.0}
    ensures SlugText(r.0)
    ensures BaseSlug(value) !in seen ==> r.0 == BaseSlug(value)
    ensures BaseSlug(value) in seen ==>
              var base := BaseSlug(value);
              && r.1[base] > seen[base]
              && r.0 == Key(base, r.1[base])
              && forall j: nat :: seen[base] < j < r.1[base] ==> Key(base, j) in seen
    ensures forall k :: k in seen && k != BaseSlug(value) ==> r.1[k] == seen[k]
  {
    var base := BaseSlug(value);
    if base in seen then
      var m := Probe(seen, base, seen[base] + 1);
      Repeated(seen, base, m);
      (Key(base, m), seen[base := m][Key(base, m) := 0])
    else
      (base, seen[base := 0])
  }

  /** The table after a repeated base slug got the counter `m`. */
  lemma Repeated(seen: Seen, base: string, m: nat)
    requires base in seen && SlugText(base) && Key(base, m) !in seen
    ensures var k := Key(base, m);
            var t := seen[base := m][k := 0];
            && k in t && t[k] == 0 && t.Keys == seen.Keys + {k} && t[base] == m
            && SlugText(k)
            && forall x :: x in seen && x != base ==> t[x] == seen[x]
  {
    KeyText(base, m);
  }

  /** One slugger consulted for each text of `values` in turn, as the
      parser does for the headings of one document. */
  function SlugAll(seen: Seen, values: seq<string>): (r: (seq<string>, Seen))
    ensures |r.0| == |values|
    ensures seen.Keys <= r.1.Keys
    ensures forall i :: 0 <= i < |r.0| ==> r.0[i] !in seen && r.0[i] in r.1
    ensures forall i, j :: 0 <= i < j < |r.0| ==> r.0[i] != r.0[j]
    decreases |values|
  {
    if |values| == 0 then ([], seen)
    else
      var r1 := Slug(seen, values[0]);
      var rest := SlugAll(r1.1, values[1..]);
      ConsIds(r1.0, rest.0, seen, r1.1, rest.1);
      ([r1.0] + rest.0, rest.1)
  }

  /** One new id in front of ids that are new to the table after it. */
  lemma ConsIds(x: string, ids: seq<string>, seen: Seen, mid: Seen, last: Seen)
    requires x !in seen && mid.Keys == seen.Keys + {x} && mid.Keys <= last.Keys
    requires forall i :: 0 <= i < |ids| ==> ids[i] !in mid && ids[i] in last
    requires forall i, j :: 0 <= i < j < |ids| ==> ids[i] != ids[j]
    ensures var s := [x] + ids;
            && (forall i :: 0 <= i < |s| ==> s[i] !in seen && s[i] in last)
            && (forall i, j :: 0 <= i < j < |s| ==> s[i] != s[j])
  {
    var s := [x] + ids;
    assert forall i :: 1 <= i < |s| ==> s[i] == ids[i - 1];
  }

  /** The table after one slugger was consulted for each text of
      `values` in turn. */
  function Table(seen: Seen, values: seq<string>): Seen
    decreases |values|
  {
    if |values| == 0 then seen else Table(Slug(seen, values[0]).1, values[1..])
  }

  lemma {:induction false} SlugAllTable(seen: Seen, values: seq<string>)
    ensures SlugAll(seen, values).1 == Table(seen, values)
    decreases |values|
  {
    if |values| > 0 {
      SlugAllTable(Slug(seen, values[0]).1, values[1..]);
    }
  }

  /** Consulting the slugger for two lists in turn is consulting it for
      their concatenation. */
  lemma {:induction false} TableAppend(seen: Seen, a: seq<string>, b: seq<string>)
    ensures Table(seen, a + b) == Table(Table(seen, a), b)
    decreases |a|
  {
    if |a| == 0 {
      assert a + b == b;
    } else {
      HeadTail(a, b);
      TableAppend(Slug(seen, a[0]).1, a[1..], b);
    }
  }

  /** The slugs one slugger hands out for each text of `values` in turn. */
  function Ids(seen: Seen, values: seq<string>): seq<string>
    decreases |values|
  {
    if |values| == 0 then [] else [Slug(seen, values[0]).0] + Ids(Slug(seen, values[0]).1, values[1..])
  }

  lemma {:induction false} SlugAllIds(seen: Seen, values: seq<string>)
    ensures SlugAll(seen, values).0 == Ids(seen, values)
    decreases |values|
  {
    if |values| > 0 {
      SlugAllIds(Slug(seen, values[0]).1, values[1..]);
    }
  }

  /** The slugs for two lists in turn are the slugs for their
      concatenation. */
  lemma {:induction false} IdsAppend(seen: Seen, a: seq<string>, b: seq<string>)
    ensures Ids(seen, a + b) == Ids(seen, a) + Ids(Table(seen, a), b)
    decreases |a|
  {
    if |a| == 0 {
      assert a + b == b;
    } else {
      HeadTail(a, b);
      IdsAppend(Slug(seen, a[0]).1, a[1..], b);
    }
  }

  lemma HeadTail<T>(a: seq<T>, b: seq<T>)
    requires |a| > 0
    ensures |a + b| > 0 && (a + b)[0] == a[0] && (a + b)[1..] == a[1..] + b
  {
  }

  // ---------------------------------------------------------------------
  // The table as the source keeps it: a plain JavaScript object.

  /** `seen[k] = v` on a plain object. The key `__proto__` names the
      inherited prototype accessor, and assigning a number through it is
      ignored, so that key never becomes an own property. */
  function ObjectSet(seen: Seen, k: string, v: nat): (r: Seen)
    ensures k != "__proto__" ==> r == seen[k := v]
    ensures k == "__proto__" ==> r == seen
  {
    if k == "__proto__" then seen else seen[k := v]
  }

  /** `Slugger.slug(value)` with `seen` an object: the same steps as `Slug`,
      with every write going through `ObjectSet`. */
  function SlugObject(seen: Seen, value: string): (r: (string, Seen))
    ensures r.0 !in seen
    ensures BaseSlug(value) !in seen ==> r.0 == BaseSlug(value)
    ensures r.0 in r.1 <==> r.0 != "__proto__"
  {
    var base := BaseSlug(value);
    if base in seen then
      var m := Probe(seen, base, seen[base] + 1);
      var slug := Key(base, m);
      KeyNotProto(base, m);
      (slug, ObjectSet(ObjectSet(seen, base, m), slug, 0))
    else
      (base, ObjectSet(seen, base, 0))
  }

  lemma KeyNotProto(base: string, m: nat)
    ensures Key(base, m) != "__proto__"
  {
    var k := Key(base, m);
    var digits := NatToString(m);
    assert k[|k| - 1] == digits[|digits| - 1];
    assert IsDigit(k[|k| - 1]);
  }

  /** Lower-case ASCII letters and `_` pass through every normalisation
      step unchanged. */
  predicate PlainChar(c: char) {
    ('a' <= c <= 'z') || c == '_'
  }

  lemma PlainBase(v: string)
    requires forall i :: 0 <= i < |v| ==> PlainChar(v[i])
    ensures BaseSlug(v) == v
  {
    PlainLower(v);
    PlainNoSpace(v);
    PlainStrip(v);
  }

  lemma PlainLower(v: string)
    requires forall i :: 0 <= i < |v| ==> PlainChar(v[i])
    ensures ToLower(v) == v
  {
    assert forall i :: 0 <= i < |v| ==> LowerChar(v[i]) == v[i];
  }

  lemma PlainNoSpace(v: string)
    requires forall i :: 0 <= i < |v| ==> PlainChar(v[i])
    ensures NoSpace(v)
  {
  }

  lemma PlainStrip(v: string)
    requires forall i :: 0 <= i < |v| ==> PlainChar(v[i])
    ensures Strip(v) == v
  {
    assert forall i :: 0 <= i < |v| ==> !IsStripped(v[i]);
  }

  lemma ProtoBase()
    ensures BaseSlug("__proto__") == "__proto__"
  {
    var v := "__proto__";
    forall i | 0 <= i < |v|
      ensures PlainChar(v[i])
    {
      if i < 2 || i > 6 {
        assert v[i] == '_';
      }
    }
    PlainBase(v);
  }

  /** A heading whose text is `__proto__` gets the same id every time. */
  lemma ProtoSlugRepeats()
    ensures var (first, seen1) := SlugObject(map[], "__proto__");
            SlugObject(seen1, "__proto__").0 == first
  {
    ProtoBase();
  }
}
