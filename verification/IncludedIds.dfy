/** Recovering which memories a rendered context shows by looking for their ids in the text. */
module IncludedIds {
  import opened Rendering
  import opened Text

  predicate Contains(s: string, pattern: string) {
    exists i | 0 <= i <= |s| :: pattern <= s[i..]
  }

  function IdPattern(id: string): string { "id=\"" + id + "\"" }

  function Included(rendered: string, ranked: seq<Item>): seq<string> {
    if ranked == [] then []
    else
      var n := |ranked| - 1;
      Included(rendered, ranked[..n]) + if Contains(rendered, IdPattern(ranked[n].id)) then [ranked[n].id] else []
  }

  // ---------- splitting a text at its quotes ----------

  lemma SplitQuote(a: string, b: string)
    ensures Split(a + "\"" + b, '"') == Split(a, '"') + Split(b, '"')
  {
    SplitApart(a, b, '"');
    assert "\"" == ['"'];
  }

  function Last(parts: seq<string>): string
    requires parts != []
  {
    parts[|parts| - 1]
  }

  /** The stretches of two texts put together: the last of one and the first of the other become one. */
  function Glue(p: seq<string>, q: seq<string>): seq<string>
    requires p != [] && q != []
  {
    p[..|p| - 1] + [Last(p) + q[0]] + q[1..]
  }

  lemma GlueBehind(r: seq<string>, q: seq<string>, head: string)
    requires r != [] && q != []
    ensures Glue([head] + r, q) == [head] + Glue(r, q)
  {
    assert ([head] + r)[..|r|] == [head] + r[..|r| - 1];
  }

  /** A character in front of the first stretch. */
  function Widen(c: char, r: seq<string>): seq<string>
    requires r != []
  {
    [[c] + r[0]] + r[1..]
  }

  lemma GlueWidened(r: seq<string>, q: seq<string>, c: char)
    requires r != [] && q != []
    ensures Glue(Widen(c, r), q) == Widen(c, Glue(r, q))
  {
    if |r| == 1 {
      assert [c] + (r[0] + q[0]) == [c] + r[0] + q[0];
    } else {
      assert Widen(c, r)[..|r| - 1] == [[c] + r[0]] + r[1..|r| - 1];
    }
  }

  lemma {:induction false} SplitGlued(a: string, b: string)
    ensures Split(a + b, '"') == Glue(Split(a, '"'), Split(b, '"'))
  {
    if a == [] {
      assert a + b == b && [] + Split(b, '"')[0] == Split(b, '"')[0];
      assert Glue([[]], Split(b, '"')) == Split(b, '"');
    } else {
      assert (a + b)[0] == a[0] && (a + b)[1..] == a[1..] + b;
      SplitGlued(a[1..], b);
      var r, q := Split(a[1..], '"'), Split(b, '"');
      GlueBehind(r, q, []);
      GlueWidened(r, q, a[0]);
      hide Glue;
      assert Split(a, '"') == if a[0] == '"' then [[]] + r else Widen(a[0], r);
    }
  }

  // ---------- where an id can be found ----------

  predicate IdChar(c: char) { 'a' <= c <= 'z' || 'A' <= c <= 'Z' || '0' <= c <= '9' || c == '-' }

  /** The shape of every memory id: a UUID's letters, digits and hyphens. */
  predicate IdLike(s: string) { s != [] && forall c | c in s :: IdChar(c) }

  /** Every UUID in its usual form has that shape. */
  lemma UuidIsIdLike(s: string)
    requires |s| == 36
    requires forall i | 0 <= i < 36 :: if i in {8, 13, 18, 23} then s[i] == '-' else s[i] in "0123456789abcdefABCDEF"
    ensures IdLike(s)
  {
    forall c | c in s ensures IdChar(c) {
      var i :| 0 <= i < 36 && s[i] == c;
      assert c == '-' || c in "0123456789abcdefABCDEF";
    }
  }

  predicate EndsInId(s: string) { |s| >= 3 && s[|s| - 3..] == "id=" }

  /** A stretch that could be read as an id stands behind one that ends in `id=` only if it is an allowed id. */
  ghost predicate OnlyShows(parts: seq<string>, allowed: set<string>) {
    forall j | 0 <= j < |parts| - 1 :: EndsInId(parts[j]) && IdLike(parts[j + 1]) ==> parts[j + 1] in allowed
  }

  lemma SplitBetween(before: string, id: string, after: string)
    requires '"' !in id
    ensures Split(before + "\"" + (id + "\"" + after), '"') == Split(before, '"') + ([id] + Split(after, '"'))
  {
    SplitWithout(id, '"');
    SplitQuote(id, after);
    SplitQuote(before, id + "\"" + after);
    hide Split;
  }

  lemma EndsAfter(s: string)
    ensures EndsInId(Last(Split(s + "id=", '"')))
  {
    SplitGlued(s, "id=");
    SplitWithout("id=", '"');
    hide Split;
    assert Last(Glue(Split(s, '"'), ["id="])) == Last(Split(s, '"')) + "id=";
  }

  /** An id found in a text is one of the ids the text shows. */
  lemma FoundIsShown(s: string, id: string, allowed: set<string>)
    requires Contains(s, IdPattern(id)) && IdLike(id) && OnlyShows(Split(s, '"'), allowed)
    ensures id in allowed
  {
    hide Split, EndsInId;
    var i :| 0 <= i <= |s| && IdPattern(id) <= s[i..];
    var before, after := s[..i] + "id=", s[i..][|IdPattern(id)|..];
    assert s == before + "\"" + (id + "\"" + after);
    assert '"' !in id by { assert !IdChar('"'); }
    SplitBetween(before, id, after);
    EndsAfter(s[..i]);
    hide IdLike, IdPattern;
    var p := Split(before, '"');
    assert Split(s, '"')[|p| - 1] == Last(p) && Split(s, '"')[|p|] == id;
  }

  // ---------- what a rendered line shows ----------

  function Quoted(parts: seq<string>): string
    requires parts != []
  {
    if |parts| == 1 then parts[0] else parts[0] + "\"" + Quoted(parts[1..])
  }

  lemma {:induction false} SplitQuoted(parts: seq<string>)
    requires parts != [] && forall p | p in parts :: '"' !in p
    ensures Split(Quoted(parts), '"') == parts
  {
    SplitWithout(parts[0], '"');
    if |parts| > 1 {
      SplitQuoted(parts[1..]);
      SplitQuote(parts[0], Quoted(parts[1..]));
      assert [parts[0]] + parts[1..] == parts;
    }
  }

  lemma WeaveStep(p: seq<string>, f: seq<string>, i: nat)
    requires |p| == |f| + 1 && i < |f|
    ensures Weave(p[i..], f[i..]) == p[i] + f[i] + Weave(p[i + 1..], f[i + 1..])
  {
    assert p[i..][1..] == p[i + 1..] && f[i..][1..] == f[i + 1..];
  }

  lemma WeaveUnrolled(p: seq<string>, f: seq<string>)
    requires |p| == 7 && |f| == 6
    ensures Weave(p, f)
            == p[0] + f[0] + (p[1] + f[1] + (p[2] + f[2] + (p[3] + f[3] + (p[4] + f[4] + (p[5] + f[5] + p[6])))))
  {
    WeaveStep(p, f, 0);
    WeaveStep(p, f, 1);
    WeaveStep(p, f, 2);
    WeaveStep(p, f, 3);
    WeaveStep(p, f, 4);
    WeaveStep(p, f, 5);
    assert Weave(p[6..], f[6..]) == p[6];
    hide Weave;
    assert p[0..] == p && f[0..] == f;
    var w4, w3 := p[4] + f[4] + (p[5] + f[5] + p[6]), p[3] + f[3] + Weave(p[4..], f[4..]);
    assert w4 == Weave(p[4..], f[4..]) && w3 == Weave(p[3..], f[3..]);
  }

  /** The stretches of a line between its quotes. */
  function LineParts(item: Item): seq<string> {
    var f := Fields(item);
    ["  <memory id=", f[0], " type=", f[1], " scope=", f[2], " confidence=", f[3], " source_timestamp_ms=", f[4],
     ">" + f[5] + "</memory>\n"]
  }

  /** A quoted attribute in front of more stretches. */
  lemma Attribute(piece: string, name: string, value: string, tail: seq<string>)
    requires piece == "\"" + name + "\"" && tail != []
    ensures piece + value + ("\"" + Quoted(tail)) == "\"" + Quoted([name, value] + tail)
  {
    assert ([name, value] + tail)[1..] == [value] + tail;
    assert ([value] + tail)[1..] == tail;
  }

  lemma PieceShapes()
    ensures var p := Pieces();
      && |p| == 7 && p[0] == "  <memory id=" + "\""
      && p[1] == "\"" + " type=" + "\"" && p[2] == "\"" + " scope=" + "\""
      && p[3] == "\"" + " confidence=" + "\"" && p[4] == "\"" + " source_timestamp_ms=" + "\""
      && p[5] == "\"" + ">" && p[6] == "</memory>\n"
  {
  }

  lemma QuotedLast(content: string, before: string, after: string)
    requires before == "\"" + ">" && after == "</memory>\n"
    ensures before + content + after == "\"" + Quoted([">" + content + "</memory>\n"])
  {
  }

  lemma QuotedFirst(name: string, value: string, tail: seq<string>, piece: string)
    requires piece == name + "\"" && tail != []
    ensures piece + value + ("\"" + Quoted(tail)) == Quoted([name, value] + tail)
  {
    assert ([name, value] + tail)[1..] == [value] + tail;
    assert ([value] + tail)[1..] == tail;
  }

  lemma LineIsQuoted(item: Item)
    ensures RenderItem(item) == Quoted(LineParts(item))
  {
    var p, f := Pieces(), Fields(item);
    PieceShapes();
    WeaveUnrolled(p, f);
    var last := [">" + f[5] + "</memory>\n"];
    var t4 := [" source_timestamp_ms=", f[4]] + last;
    var t3 := [" confidence=", f[3]] + t4;
    var t2 := [" scope=", f[2]] + t3;
    var t1 := [" type=", f[1]] + t2;
    hide Pieces, Fields, Quoted, Weave;
    assert p[5] + f[5] + p[6] == "\"" + Quoted(last) by { QuotedLast(f[5], p[5], p[6]); }
    Attribute(p[4], " source_timestamp_ms=", f[4], last);
    Attribute(p[3], " confidence=", f[3], t4);
    Attribute(p[2], " scope=", f[2], t3);
    Attribute(p[1], " type=", f[1], t2);
    QuotedFirst("  <memory id=", f[0], t1, p[0]);
    assert LineParts(item) == ["  <memory id=", f[0]] + t1;
  }

  // ---------- what a rendered block shows ----------

  lemma NamesUnquoted(content: string)
    requires '"' !in content
    ensures '"' !in "  <memory id=" && '"' !in " type=" && '"' !in " scope=" && '"' !in " confidence="
    ensures '"' !in " source_timestamp_ms=" && '"' !in ">" + content + "</memory>\n"
  {
  }

  lemma PartsUnquoted(item: Item)
    requires forall f | f in Fields(item) :: '"' !in f
    ensures forall p | p in LineParts(item) :: '"' !in p
  {
    var f := Fields(item);
    assert |f| == 6;
    hide Fields;
    assert f[0] in f && f[1] in f && f[2] in f && f[3] in f && f[4] in f && f[5] in f;
    NamesUnquoted(f[5]);
  }

  lemma NotIdLike(s: string, i: nat)
    requires i < |s| && !IdChar(s[i])
    ensures !IdLike(s)
  {
    assert s[i] in s;
  }

  /** No attribute name but the first ends in `id=`, and none could be read as an id, nor could the content. */
  lemma AttributeNames(last: string)
    requires last != [] && last[0] == '>'
    ensures !EndsInId(" type=") && !EndsInId(" scope=")
    ensures !EndsInId(" confidence=") && !EndsInId(" source_timestamp_ms=")
    ensures !IdLike(" type=") && !IdLike(" scope=") && !IdLike(" confidence=") && !IdLike(" source_timestamp_ms=")
    ensures !IdLike(last)
  {
    NotIdLike(" type=", 0);
    NotIdLike(" scope=", 0);
    NotIdLike(" confidence=", 0);
    NotIdLike(" source_timestamp_ms=", 0);
    NotIdLike(last, 0);
    hide IdLike;
    assert " type="[3..][0] == 'p' && " scope="[4..][0] == 'p' && " confidence="[9..][0] == 'c';
    assert " source_timestamp_ms="[18..][0] == 'm';
    assert "id="[0] == 'i';
  }

  lemma FieldsUnquoted(item: Item)
    requires PlainParts(item)
    ensures forall f | f in Fields(item) :: '"' !in f
  {
    EscapeXmlIsEscape(item.id);
    EscapeXmlIsEscape(item.scope);
    EscapeXmlIsEscape(item.content);
    EscapeIsClean(item.id);
    EscapeIsClean(item.scope);
    EscapeIsClean(item.content);
    assert Special('"');
    hide EscapeXml, Escape;
  }

  lemma LineShows(item: Item)
    requires PlainParts(item)
    ensures Split(RenderItem(item), '"') == LineParts(item)
    ensures OnlyShows(LineParts(item), {EscapeXml(item.id)})
  {
    hide Split, EscapeXml, RenderItem, IdLike, EndsInId;
    LineIsQuoted(item);
    FieldsUnquoted(item);
    PartsUnquoted(item);
    SplitQuoted(LineParts(item));
    hide Quoted;
    AttributeNames(">" + Fields(item)[5] + "</memory>\n");
  }

  /** Gluing a line, or the closing tag, to what was rendered so far shows nothing new at the seam. */
  lemma GlueShows(p: seq<string>, q: seq<string>, allowed: set<string>, seam: char)
    requires p != [] && q != [] && OnlyShows(p, allowed) && OnlyShows(q, allowed)
    requires |q[0]| >= 3 && seam in q[0] && !IdChar(seam)
    ensures OnlyShows(Glue(p, q), allowed)
  {
    var r, n := Glue(p, q), |p| - 1;
    var joined := p[n] + q[0];
    assert r[n] == joined && seam in joined && !IdLike(joined);
    forall j | 0 <= j < |r| - 1 && EndsInId(r[j]) && IdLike(r[j + 1]) ensures r[j + 1] in allowed {
      if j + 1 < n {
        assert r[j] == p[j] && r[j + 1] == p[j + 1];
      } else if j == n {
        assert r[j] == joined && joined[|joined| - 3..] == q[0][|q[0]| - 3..];
        assert r[j + 1] == q[1];
      } else if j > n {
        assert r[j] == q[j - n] && r[j + 1] == q[j - n + 1];
      }
    }
  }

  lemma OpeningUnquoted()
    ensures '"' !in OPENING_NAME && '"' !in OPENING_VALUE && '"' !in ">\n"
  {
  }

  lemma ThreeParts(a: string, b: string, c: string)
    requires '"' !in a && '"' !in b && '"' !in c
    ensures Split(a + "\"" + (b + "\"" + c), '"') == [a, b, c]
  {
    SplitWithout(a, '"');
    SplitWithout(b, '"');
    SplitWithout(c, '"');
    SplitQuote(b, c);
    SplitQuote(a, b + "\"" + c);
    hide Split;
  }

  lemma OpeningParts()
    ensures Split(Opening(), '"') == [OPENING_NAME, OPENING_VALUE, ">\n"]
  {
    hide Split;
    OpeningUnquoted();
    ThreeParts(OPENING_NAME, OPENING_VALUE, ">\n");
  }

  lemma OpeningShows()
    ensures OnlyShows(Split(Opening(), '"'), {})
  {
    hide Split, Opening;
    OpeningParts();
    NotIdLike(">\n", 0);
    assert !EndsInId(OPENING_NAME) by { assert OPENING_NAME[|OPENING_NAME| - 3..][0] == 's' && "id="[0] == 'i'; }
    hide IdLike, EndsInId;
  }

  function ShownIds(items: seq<Item>): set<string> { set item | item in items :: EscapeXml(item.id) }

  lemma LineSeam(item: Item)
    ensures |LineParts(item)| > 0 && |LineParts(item)[0]| >= 3 && ' ' in LineParts(item)[0] && !IdChar(' ')
  {
    assert LineParts(item)[0][0] == ' ';
  }

  lemma {:induction false} LinesShow(items: seq<Item>)
    requires forall item | item in items :: PlainParts(item)
    ensures OnlyShows(Split(Opening() + Lines(items), '"'), ShownIds(items))
  {
    hide Split, LineParts, RenderItem, Opening, IdLike, EndsInId, EscapeXml, Glue;
    if items == [] {
      OpeningShows();
      assert Opening() + Lines([]) == Opening();
    } else {
      var n := |items| - 1;
      var item, before := items[n], Opening() + Lines(items[..n]);
      LinesShow(items[..n]);
      LineShows(item);
      assert Opening() + Lines(items) == before + RenderItem(item);
      SplitGlued(before, RenderItem(item));
      assert ShownIds(items) == ShownIds(items[..n]) + {EscapeXml(item.id)} by {
        assert items == items[..n] + [item];
      }
      LineSeam(item);
      GlueShows(Split(before, '"'), LineParts(item), ShownIds(items), ' ');
    }
  }

  lemma ClosingText()
    ensures |Closing()| >= 3 && Closing()[0] == '<' && '"' !in Closing()
  {
  }

  lemma ClosingShows()
    ensures Split(Closing(), '"') == [Closing()] && |Closing()| >= 3 && '<' in Closing() && !IdChar('<')
  {
    hide Split, Closing;
    ClosingText();
    SplitWithout(Closing(), '"');
  }

  /** A rendered block shows no id but those of its items. */
  lemma BlockShows(items: seq<Item>)
    requires forall item | item in items :: PlainParts(item)
    ensures OnlyShows(Split(Block(items), '"'), ShownIds(items))
  {
    hide Split, Opening, Closing, Lines, IdLike, EndsInId, EscapeXml, Glue, ShownIds;
    LinesShow(items);
    ClosingShows();
    SplitGlued(Opening() + Lines(items), Closing());
    GlueShows(Split(Opening() + Lines(items), '"'), [Closing()], ShownIds(items), '<');
  }

  // ---------- the included ids are exactly the chosen ones ----------

  lemma IdLikeIsPlain(id: string)
    requires IdLike(id)
    ensures EscapeXml(id) == id
  {
    forall c | c in id ensures !Special(c) {
      assert IdChar(c);
    }
    EscapeXmlIsEscape(id);
    EscapePlain(id);
  }

  lemma ContainedIn(a: string, pattern: string, b: string)
    ensures Contains(a + pattern + b, pattern)
  {
    assert (a + pattern + b)[|a|..] == pattern + b;
  }

  lemma FirstPiece()
    ensures Pieces()[0] == "  <memory " + "id=\""
  {
  }

  lemma Regroup(before: string, open: string, id: string, after: string)
    ensures (before + open) + id + ("\"" + after) == before + (open + id + "\"") + after
  {
  }

  /** A line holds the pattern of its own id. */
  lemma LineHolds(item: Item) returns (before: string, after: string)
    requires IdLike(item.id)
    ensures RenderItem(item) == before + IdPattern(item.id) + after
  {
    IdLikeIsPlain(item.id);
    var p, f := Pieces(), Fields(item);
    FirstPiece();
    assert |p| == 7 && |f| == 6 && f[0] == item.id && p[1][0] == '"';
    assert RenderItem(item) == p[0] + item.id + Weave(p[1..], f[1..]);
    var rest := Weave(p[1..], f[1..]);
    WeaveHead(p[1..], f[1..], "");
    assert rest + "" == rest;
    hide Pieces, Fields, Weave, EscapeXml, RenderItem;
    before, after := "  <memory ", rest[1..];
    assert rest == "\"" + after;
    Regroup(before, "id=\"", item.id, after);
  }

  lemma Nested(o: string, b1: string, b2: string, pattern: string, a2: string, a1: string, c: string)
    ensures o + (b1 + (b2 + pattern + a2) + a1) + c == (o + b1 + b2) + pattern + (a2 + a1 + c)
  {
  }

  lemma {:induction false} LinesHold(items: seq<Item>, item: Item) returns (before: string, after: string)
    requires item in items
    ensures Lines(items) == before + RenderItem(item) + after
  {
    hide RenderItem;
    var n := |items| - 1;
    if items[n] == item {
      before, after := Lines(items[..n]), "";
    } else {
      var b, a := LinesHold(items[..n], item);
      before, after := b, a + RenderItem(items[n]);
    }
  }

  lemma BlockHolds(items: seq<Item>, item: Item)
    requires item in items && IdLike(item.id)
    ensures Contains(Block(items), IdPattern(item.id))
  {
    var b1, a1 := LinesHold(items, item);
    var b2, a2 := LineHolds(item);
    hide Opening, Closing, Lines, RenderItem, IdPattern, Contains, IdLike;
    ContainedIn(Opening() + b1 + b2, IdPattern(item.id), a2 + a1 + Closing());
    Nested(Opening(), b1, b2, IdPattern(item.id), a2, a1, Closing());
  }

  /** Looking for an id in a block finds it exactly when one of the block's items has it. */
  lemma FoundIsRendered(items: seq<Item>, id: string)
    requires forall item | item in items :: PlainParts(item) && IdLike(item.id)
    requires IdLike(id)
    ensures Contains(Block(items), IdPattern(id)) <==> exists item | item in items :: item.id == id
  {
    hide Block, IdLike, PlainParts, Contains, IdPattern;
    if Contains(Block(items), IdPattern(id)) {
      BlockShows(items);
      FoundIsShown(Block(items), id, ShownIds(items));
      var item :| item in items && EscapeXml(item.id) == id;
      IdLikeIsPlain(item.id);
    } else {
      forall item | item in items && item.id == id ensures false { BlockHolds(items, item); }
    }
  }

  ghost predicate DistinctItems(ranked: seq<Item>) {
    forall i, j | 0 <= i < j < |ranked| :: ranked[i].id != ranked[j].id
  }

  function Ids(items: seq<Item>): seq<string> { seq(|items|, i requires 0 <= i < |items| => items[i].id) }

  /** An item's fate is settled when the selection reaches it. */
  lemma {:induction false} ChosenPrefix(budget: nat, ranked: seq<Item>, n: nat)
    requires DistinctItems(ranked) && n < |ranked|
    ensures (exists item | item in Chosen(budget, ranked) :: item.id == ranked[n].id)
            <==> Chosen(budget, ranked[..n + 1]) == Chosen(budget, ranked[..n]) + [ranked[n]]
    ensures Chosen(budget, ranked[..n + 1]) == Chosen(budget, ranked[..n])
            || Chosen(budget, ranked[..n + 1]) == Chosen(budget, ranked[..n]) + [ranked[n]]
  {
    hide Frame, Bytes, Lines, RenderItem;
    var m := |ranked| - 1;
    assert ranked[..n + 1][..n] == ranked[..n];
    var before := Chosen(budget, ranked[..m]);
    forall item | item in before ensures item.id != ranked[m].id {
      ChosenAreRanked(budget, ranked[..m]);
      var k :| 0 <= k < m && ranked[..m][k] == item;
    }
    if n == m {
      assert ranked[..n + 1] == ranked;
    } else {
      ChosenPrefix(budget, ranked[..m], n);
      assert ranked[..m][..n + 1] == ranked[..n + 1] && ranked[..m][..n] == ranked[..n];
      assert ranked[..m][n] == ranked[n];
      hide Chosen;
    }
  }

  lemma NothingChosen(budget: nat)
    ensures Chosen(budget, []) == []
  {
  }

  /** Main result: the ids recovered from a rendered context are exactly those of the chosen items, in order. */
  lemma {:induction false} IncludedAreChosen(budget: nat, ranked: seq<Item>, n: nat)
    requires DistinctItems(ranked) && n <= |ranked|
    requires forall item | item in ranked :: PlainParts(item) && IdLike(item.id)
    ensures Included(Block(Chosen(budget, ranked)), ranked[..n]) == Ids(Chosen(budget, ranked[..n]))
  {
    hide Block, Contains, IdPattern, PlainParts, IdLike, DistinctItems, Chosen;
    if n > 0 {
      IncludedAreChosen(budget, ranked, n - 1);
      assert ranked[..n][..n - 1] == ranked[..n - 1];
      ChosenAreRanked(budget, ranked);
      FoundIsRendered(Chosen(budget, ranked), ranked[n - 1].id);
      ChosenPrefix(budget, ranked, n - 1);
    } else {
      NothingChosen(budget);
    }
  }
}
