/** Rendering the memory context: escaping, the byte budget, greedy selection, and reading the block back. */
module Rendering {
  import opened Text
  import opened Wrappers

  // ---------- escaping ----------

  /** The predefined entities of section 4.6 of XML 1.0. */
  function EscapeChar(c: char): string {
    if c == '&' then "&amp;"
    else if c == '<' then "&lt;"
    else if c == '>' then "&gt;"
    else if c == '"' then "&quot;"
    else if c == '\'' then "&apos;"
    else [c]
  }

  function Escape(s: string): string {
    if s == [] then [] else EscapeChar(s[0]) + Escape(s[1..])
  }

  /** `str::replace` of one character. */
  function Replace(s: string, from: char, to: string): string {
    if s == [] then [] else (if s[0] == from then to else [s[0]]) + Replace(s[1..], from, to)
  }

  /** The five replacements, one after the other. */
  function EscapeXml(s: string): string {
    var angled := Replace(Replace(Replace(s, '&', "&amp;"), '<', "&lt;"), '>', "&gt;");
    Replace(Replace(angled, '"', "&quot;"), '\'', "&apos;")
  }

  lemma {:induction false} ReplaceAppend(a: string, b: string, from: char, to: string)
    ensures Replace(a + b, from, to) == Replace(a, from, to) + Replace(b, from, to)
  {
    if a == [] {
      assert a + b == b;
    } else {
      assert (a + b)[0] == a[0] && (a + b)[1..] == a[1..] + b;
      ReplaceAppend(a[1..], b, from, to);
    }
  }

  lemma {:induction false} ReplaceAbsent(s: string, from: char, to: string)
    requires from !in s
    ensures Replace(s, from, to) == s
  {
    if s != [] {
      ReplaceAbsent(s[1..], from, to);
    }
  }

  lemma ReplaceOne(c: char, from: char, to: string)
    ensures Replace([c], from, to) == if c == from then to else [c]
  {
    assert [c][1..] == [];
  }

  lemma LastTwoReplacements(c: char)
    ensures var t := if c == '&' || c == '<' || c == '>' then EscapeChar(c) else [c];
      Replace(Replace(t, '"', "&quot;"), '\'', "&apos;") == EscapeChar(c)
  {
    var e := EscapeChar(c);
    if c == '&' || c == '<' || c == '>' {
      ReplaceAbsent(e, '"', "&quot;");
      ReplaceAbsent(e, '\'', "&apos;");
    } else {
      ReplaceOne(c, '"', "&quot;");
      if c == '"' { ReplaceAbsent(e, '\'', "&apos;"); } else { ReplaceOne(c, '\'', "&apos;"); }
    }
  }

  /** Of the five replacements only the one for `c` itself touches `c`, and no later one touches its entity. */
  lemma EscapeOne(c: char)
    ensures EscapeXml([c]) == EscapeChar(c)
  {
    var e := EscapeChar(c);
    ReplaceOne(c, '&', "&amp;");
    if c == '&' {
      ReplaceAbsent(e, '<', "&lt;");
    } else {
      ReplaceOne(c, '<', "&lt;");
    }
    var upTo := if c == '&' || c == '<' then e else [c];
    assert Replace(Replace([c], '&', "&amp;"), '<', "&lt;") == upTo;
    if upTo == e { ReplaceAbsent(e, '>', "&gt;"); } else { ReplaceOne(c, '>', "&gt;"); }
    LastTwoReplacements(c);
  }

  lemma EscapeXmlAppend(a: string, b: string)
    ensures EscapeXml(a + b) == EscapeXml(a) + EscapeXml(b)
  {
    ReplaceAppend(a, b, '&', "&amp;");
    var a1, b1 := Replace(a, '&', "&amp;"), Replace(b, '&', "&amp;");
    ReplaceAppend(a1, b1, '<', "&lt;");
    var a2, b2 := Replace(a1, '<', "&lt;"), Replace(b1, '<', "&lt;");
    ReplaceAppend(a2, b2, '>', "&gt;");
    var a3, b3 := Replace(a2, '>', "&gt;"), Replace(b2, '>', "&gt;");
    ReplaceAppend(a3, b3, '"', "&quot;");
    ReplaceAppend(Replace(a3, '"', "&quot;"), Replace(b3, '"', "&quot;"), '\'', "&apos;");
  }

  /** The five chained replacements are one pass over the characters. */
  lemma {:induction false} EscapeXmlIsEscape(s: string)
    ensures EscapeXml(s) == Escape(s)
  {
    if s != [] {
      assert s == [s[0]] + s[1..];
      EscapeXmlAppend([s[0]], s[1..]);
      EscapeOne(s[0]);
      EscapeXmlIsEscape(s[1..]);
      hide EscapeXml;
    }
  }

  function Prepend(c: char, rest: Option<string>): Option<string> {
    if rest.None? then None else Some([c] + rest.value)
  }

  /** A reader's inverse: an ampersand must begin one of the five entities. */
  function Unescape(s: string): Option<string>
    decreases |s|
  {
    if s == [] then Some([])
    else if s[0] != '&' then Prepend(s[0], Unescape(s[1..]))
    else if "&amp;" <= s then Prepend('&', Unescape(s[5..]))
    else if "&lt;" <= s then Prepend('<', Unescape(s[4..]))
    else if "&gt;" <= s then Prepend('>', Unescape(s[4..]))
    else if "&quot;" <= s then Prepend('"', Unescape(s[6..]))
    else if "&apos;" <= s then Prepend('\'', Unescape(s[6..]))
    else None
  }

  lemma UnescapeHead(c: char, rest: string)
    ensures Unescape(EscapeChar(c) + rest) == Prepend(c, Unescape(rest))
  {
    var e := EscapeChar(c);
    var s := e + rest;
    assert s[|e|..] == rest && s[..|e|] == e;
    assert forall i | 0 <= i < |e| :: s[i] == e[i];
    if c == '&' {
    } else if c == '<' {
      assert s[1] == 'l';
    } else if c == '>' {
      assert s[1] == 'g';
    } else if c == '"' {
      assert s[1] == 'q';
    } else if c == '\'' {
      assert s[1] == 'a' && s[2] == 'p';
    }
  }

  /** Unescaping undoes escaping. */
  lemma {:induction false} UnescapeEscape(s: string)
    ensures Unescape(Escape(s)) == Some(s)
  {
    if s != [] {
      UnescapeHead(s[0], Escape(s[1..]));
      UnescapeEscape(s[1..]);
      hide Unescape;
      assert [s[0]] + s[1..] == s;
    }
  }

  predicate Special(c: char) { c == '&' || c == '<' || c == '>' || c == '"' || c == '\'' }

  predicate Plain(s: string) { forall c | c in s :: !Special(c) }

  lemma {:induction false} EscapeIsClean(s: string)
    ensures forall c | c in Escape(s) :: c != '<' && c != '>' && c != '"' && c != '\''
  {
    if s != [] {
      EscapeIsClean(s[1..]);
      assert forall c | c in EscapeChar(s[0]) :: c != '<' && c != '>' && c != '"' && c != '\'';
    }
  }

  lemma {:induction false} EscapePlain(s: string)
    requires Plain(s)
    ensures Escape(s) == s
  {
    if s != [] {
      EscapePlain(s[1..]);
      assert !Special(s[0]);
      assert [s[0]] + s[1..] == s;
    }
  }

  // ---------- the length of a text in bytes ----------

  function Utf8Length(c: char): nat {
    if c < '\U{80}' then 1 else if c < '\U{800}' then 2 else if c < '\U{10000}' then 3 else 4
  }

  /** The conservative token estimate: a token is at least one byte of UTF-8. */
  function Bytes(s: string): nat {
    if s == [] then 0 else Utf8Length(s[0]) + Bytes(s[1..])
  }

  lemma {:induction false} BytesAppend(a: string, b: string)
    ensures Bytes(a + b) == Bytes(a) + Bytes(b)
  {
    if a == [] {
      assert a + b == b;
    } else {
      assert (a + b)[1..] == a[1..] + b;
      BytesAppend(a[1..], b);
    }
  }

  // ---------- one line ----------

  /** One ranked item as it is rendered: the kind, the confidence and the timestamp are already text. */
  datatype Item = Item(id: string, kind: string, scope: string, confidence: string, timestamp: string, content: string)

  /** The literal pieces of a line, before, between and after its six fields. */
  function Pieces(): seq<string> {
    ["  <memory id=\"", "\" type=\"", "\" scope=\"", "\" confidence=\"", "\" source_timestamp_ms=\"", "\">",
     "</memory>\n"]
  }

  function Fields(item: Item): seq<string> {
    [EscapeXml(item.id), item.kind, EscapeXml(item.scope), item.confidence, item.timestamp, EscapeXml(item.content)]
  }

  function Weave(pieces: seq<string>, fields: seq<string>): string
    requires |pieces| == |fields| + 1
  {
    if fields == [] then pieces[0] else pieces[0] + fields[0] + Weave(pieces[1..], fields[1..])
  }

  function RenderItem(item: Item): string { Weave(Pieces(), Fields(item)) }

  lemma WeaveAt(p: seq<string>, f: seq<string>, k: nat)
    requires |p| == |f| + 1 && k < |f|
    ensures Weave(p[k..], f[k..]) == p[k] + f[k] + Weave(p[k + 1..], f[k + 1..])
  {
    assert p[k..][1..] == p[k + 1..] && f[k..][1..] == f[k + 1..];
  }

  lemma SixFields(p: seq<string>, f: seq<string>)
    requires |p| == 7 && |f| == 6
    ensures Weave(p, f)
      == p[0] + f[0] + (p[1] + f[1] + (p[2] + f[2] + (p[3] + f[3] + (p[4] + f[4] + (p[5] + f[5] + p[6])))))
  {
    assert p[0..] == p && f[0..] == f && f[6..] == [];
    assert Weave(p[6..], f[6..]) == p[6];
    hide Weave;
    WeaveAt(p, f, 5);
    WeaveAt(p, f, 4);
    WeaveAt(p, f, 3);
    WeaveAt(p, f, 2);
    WeaveAt(p, f, 1);
    WeaveAt(p, f, 0);
  }

  /** The whole line of an item, its free texts escaped character by character. */
  lemma LineExactly(item: Item)
    ensures RenderItem(item)
      == "  <memory id=\"" + Escape(item.id) + ("\" type=\"" + item.kind + ("\" scope=\"" + Escape(item.scope)
         + ("\" confidence=\"" + item.confidence + ("\" source_timestamp_ms=\"" + item.timestamp
         + ("\">" + Escape(item.content) + "</memory>\n")))))
  {
    EscapeXmlIsEscape(item.id);
    EscapeXmlIsEscape(item.scope);
    EscapeXmlIsEscape(item.content);
    hide EscapeXml, Escape;
    SixFields(Pieces(), Fields(item));
    hide Weave;
  }

  /** The longest prefix without `stop`, and what follows it. */
  function TakeUntil(s: string, stop: char): (string, string) {
    if s == [] || s[0] == stop then ([], s)
    else
      var (field, rest) := TakeUntil(s[1..], stop);
      ([s[0]] + field, rest)
  }

  predicate Separating(pieces: seq<string>) { forall i | 1 <= i < |pieces| :: pieces[i] != [] }

  /** No field holds the character that begins the piece behind it. */
  predicate Delimited(pieces: seq<string>, fields: seq<string>)
    requires |pieces| == |fields| + 1 && Separating(pieces)
  {
    forall i | 1 <= i < |pieces| :: pieces[i][0] !in fields[i - 1]
  }

  /** Reads the fields between the given pieces: each field ends where the next piece's first character is. */
  function Unweave(pieces: seq<string>, s: string): Option<(seq<string>, string)>
    requires pieces != [] && Separating(pieces)
    decreases |pieces|
  {
    if !(pieces[0] <= s) then None
    else if |pieces| == 1 then Some(([], s[|pieces[0]|..]))
    else
      var (field, rest) := TakeUntil(s[|pieces[0]|..], pieces[1][0]);
      match Unweave(pieces[1..], rest)
      case None => None
      case Some((fields, after)) => Some(([field] + fields, after))
  }

  lemma {:induction false} TakeUntilStop(field: string, stop: char, rest: string)
    requires stop !in field && rest != [] && rest[0] == stop
    ensures TakeUntil(field + rest, stop) == (field, rest)
  {
    if field == [] {
      assert field + rest == rest;
    } else {
      assert (field + rest)[0] == field[0] && (field + rest)[1..] == field[1..] + rest;
      TakeUntilStop(field[1..], stop, rest);
      assert [field[0]] + field[1..] == field;
    }
  }

  lemma WeaveHead(pieces: seq<string>, fields: seq<string>, after: string)
    requires |pieces| == |fields| + 1 && pieces[0] != []
    ensures (Weave(pieces, fields) + after) != [] && (Weave(pieces, fields) + after)[0] == pieces[0][0]
  {
  }

  lemma {:induction false} UnweaveWeave(pieces: seq<string>, fields: seq<string>, after: string)
    requires |pieces| == |fields| + 1 && Separating(pieces) && Delimited(pieces, fields)
    ensures Unweave(pieces, Weave(pieces, fields) + after) == Some((fields, after))
    decreases |pieces|
  {
    var s := Weave(pieces, fields) + after;
    if fields == [] {
      assert s[|pieces[0]|..] == after && pieces[0] <= s;
    } else {
      var rest := Weave(pieces[1..], fields[1..]) + after;
      assert s == pieces[0] + (fields[0] + rest);
      assert s[|pieces[0]|..] == fields[0] + rest && pieces[0] <= s;
      WeaveHead(pieces[1..], fields[1..], after);
      TakeUntilStop(fields[0], pieces[1][0], rest);
      assert pieces[1][0] !in fields[1 - 1];
      forall i | 1 <= i < |pieces[1..]| ensures pieces[1..][i][0] !in fields[1..][i - 1] {
        assert pieces[i + 1][0] !in fields[i + 1 - 1];
      }
      UnweaveWeave(pieces[1..], fields[1..], after);
      assert [fields[0]] + fields[1..] == fields;
    }
  }

  /** The parts that are not escaped hold none of the characters that need it. */
  predicate PlainParts(item: Item) { Plain(item.kind) && Plain(item.confidence) && Plain(item.timestamp) }

  function ReadItem(s: string): Option<(Item, string)> {
    match Unweave(Pieces(), s)
    case None => None
    case Some((f, rest)) =>
      if |f| != 6 then None
      else
        var id, scope, content := Unescape(f[0]), Unescape(f[2]), Unescape(f[5]);
        if id.None? || scope.None? || content.None? then None
        else Some((Item(id.value, f[1], scope.value, f[3], f[4], content.value), rest))
  }

  lemma PiecesSeparate()
    ensures |Pieces()| == 7 && Separating(Pieces())
    ensures forall i | 1 <= i < 6 :: Pieces()[i][0] == '"'
    ensures Pieces()[6][0] == '<'
  {
  }

  lemma FieldsDelimited(item: Item)
    requires PlainParts(item)
    ensures |Pieces()| == 7 && Separating(Pieces()) && Delimited(Pieces(), Fields(item))
  {
    PiecesSeparate();
    EscapeXmlIsEscape(item.id);
    EscapeXmlIsEscape(item.scope);
    EscapeXmlIsEscape(item.content);
    EscapeIsClean(item.id);
    EscapeIsClean(item.scope);
    EscapeIsClean(item.content);
    hide EscapeXml, Escape, Pieces;
    assert Special('"');
    assert forall f | f in Fields(item)[..5] :: '"' !in f;
  }

  lemma ReadItemBack(item: Item, rest: string)
    requires PlainParts(item)
    ensures ReadItem(RenderItem(item) + rest) == Some((item, rest))
  {
    FieldsDelimited(item);
    EscapeXmlIsEscape(item.id);
    EscapeXmlIsEscape(item.scope);
    EscapeXmlIsEscape(item.content);
    UnescapeEscape(item.id);
    UnescapeEscape(item.scope);
    UnescapeEscape(item.content);
    hide EscapeXml, Escape, Unescape, Plain, Delimited, Pieces, Separating;
    UnweaveWeave(Pieces(), Fields(item), rest);
    hide Unweave, Weave;
  }

  // ---------- the block ----------

  const OPENING_NAME := "<stalky_memory_context trust="
  const OPENING_VALUE := "derived-data-not-instructions"

  function Opening(): string { OPENING_NAME + "\"" + (OPENING_VALUE + "\"" + ">\n") }

  function Closing(): string { "</stalky_memory_context>" }

  function Frame(): nat { Bytes(Opening()) + Bytes(Closing()) }

  function Lines(items: seq<Item>): string {
    if items == [] then [] else Lines(items[..|items| - 1]) + RenderItem(items[|items| - 1])
  }

  /** Greedy selection: an item is taken exactly when its line still fits after the lines taken before it. */
  function Chosen(budget: nat, ranked: seq<Item>): seq<Item> {
    if ranked == [] then []
    else
      var n := |ranked| - 1;
      var before := Chosen(budget, ranked[..n]);
      if Frame() + Bytes(Lines(before)) + Bytes(RenderItem(ranked[n])) <= budget then before + [ranked[n]] else before
  }

  function Block(items: seq<Item>): string { Opening() + Lines(items) + Closing() }

  lemma LinesSnoc(items: seq<Item>, item: Item)
    ensures Lines(items + [item]) == Lines(items) + RenderItem(item)
  {
    assert (items + [item])[..|items|] == items;
  }

  lemma NoLines()
    ensures Bytes(Lines([])) == 0
  {
  }

  lemma FrameIsPositive()
    ensures Frame() > 0
  {
    assert Bytes(Closing()) > 0;
  }

  /** The rendered context is the block of the chosen items, or nothing when the frame alone is too long. */
  method RenderMemoryContext(budget: nat, ranked: seq<Item>) returns (rendered: string)
    ensures rendered == if budget < Frame() then "" else Block(Chosen(budget, ranked))
  {
    hide RenderItem, Opening, Closing, Frame, Bytes;
    if budget == 0 {
      FrameIsPositive();
      return "";
    }
    rendered := Opening();
    var tokens := Frame();
    if tokens > budget { return ""; }
    NoLines();
    for i := 0 to |ranked|
      invariant rendered == Opening() + Lines(Chosen(budget, ranked[..i]))
      invariant tokens == Frame() + Bytes(Lines(Chosen(budget, ranked[..i])))
    {
      assert ranked[..i + 1][..i] == ranked[..i];
      var line := RenderItem(ranked[i]);
      if tokens + Bytes(line) <= budget {
        LinesSnoc(Chosen(budget, ranked[..i]), ranked[i]);
        BytesAppend(Lines(Chosen(budget, ranked[..i])), line);
        rendered := rendered + line;
        tokens := tokens + Bytes(line);
      }
    }
    assert ranked[..|ranked|] == ranked;
    rendered := rendered + Closing();
  }

  lemma {:induction false} ChosenFits(budget: nat, ranked: seq<Item>)
    requires Frame() <= budget
    ensures Frame() + Bytes(Lines(Chosen(budget, ranked))) <= budget
  {
    hide RenderItem, Frame;
    if ranked != [] {
      var n := |ranked| - 1;
      var before := Chosen(budget, ranked[..n]);
      ChosenFits(budget, ranked[..n]);
      LinesSnoc(before, ranked[n]);
      BytesAppend(Lines(before), RenderItem(ranked[n]));
    } else {
      assert Lines([]) == [];
    }
  }

  /** The block never exceeds its budget. */
  lemma WithinBudget(budget: nat, ranked: seq<Item>)
    requires Frame() <= budget
    ensures Bytes(Block(Chosen(budget, ranked))) <= budget
  {
    var lines := Lines(Chosen(budget, ranked));
    ChosenFits(budget, ranked);
    BytesAppend(Opening() + lines, Closing());
    BytesAppend(Opening(), lines);
    hide Opening, Closing, Chosen, Lines, Bytes;
  }

  lemma {:induction false} BytesExactly(s: string)
    ensures Bytes(s) == |Utf8Text(s)|
  {
    if s != [] {
      BytesExactly(s[1..]);
    }
  }

  lemma BlockBytes(items: seq<Item>)
    ensures |Utf8Text(Block(items))| == Frame() + Bytes(Lines(items))
  {
    BytesExactly(Block(items));
    var lines := Lines(items);
    BytesAppend(Opening() + lines, Closing());
    BytesAppend(Opening(), lines);
    hide Opening, Closing, Lines, Bytes, Utf8Text;
  }

  lemma ChosenSnoc(budget: nat, ranked: seq<Item>, next: Item)
    ensures var before := Chosen(budget, ranked);
      Chosen(budget, ranked + [next])
      == if Frame() + Bytes(Lines(before)) + Bytes(RenderItem(next)) <= budget then before + [next] else before
  {
    hide Frame, Bytes, Lines, RenderItem;
    assert (ranked + [next])[..|ranked|] == ranked;
  }

  /** The selection in bytes of UTF-8: the next item is taken exactly when the block with it still fits. */
  lemma TakenExactly(budget: nat, ranked: seq<Item>, next: Item)
    ensures var before := Chosen(budget, ranked);
      Chosen(budget, ranked + [next])
      == if |Utf8Text(Block(before + [next]))| <= budget then before + [next] else before
    ensures Chosen(budget, []) == []
  {
    assert Chosen(budget, []) == [];
    hide Chosen, RenderItem, Frame, Block, Lines, Bytes, Utf8Text;
    var before := Chosen(budget, ranked);
    ChosenSnoc(budget, ranked, next);
    BlockBytes(before + [next]);
    LinesSnoc(before, next);
    BytesAppend(Lines(before), RenderItem(next));
  }

  // ---------- reading the block back ----------

  function ReadLines(s: string): Option<seq<Item>>
    decreases |s|
  {
    if s == Closing() then Some([])
    else
      match ReadItem(s)
      case None => None
      case Some((item, rest)) =>
        if |rest| >= |s| then None
        else
          match ReadLines(rest)
          case None => None
          case Some(items) => Some([item] + items)
  }

  function ReadBlock(s: string): Option<seq<Item>> {
    if Opening() <= s then ReadLines(s[|Opening()|..]) else None
  }

  lemma {:induction false} LinesCons(item: Item, items: seq<Item>)
    ensures Lines([item] + items) == RenderItem(item) + Lines(items)
  {
    hide RenderItem;
    if items == [] {
      assert [item] + items == [] + [item];
      LinesSnoc([], item);
      assert Lines([]) == [];
    } else {
      var n := |items| - 1;
      var before, last := items[..n], items[n];
      assert items == before + [last] && [item] + items == [item] + before + [last];
      hide Lines;
      LinesCons(item, before);
      LinesSnoc([item] + before, last);
      LinesSnoc(before, last);
      assert RenderItem(item) + Lines(before) + RenderItem(last)
             == RenderItem(item) + (Lines(before) + RenderItem(last));
    }
  }

  lemma LineStart(item: Item)
    ensures RenderItem(item) != [] && RenderItem(item)[0] == ' ' && Closing()[0] == '<'
  {
  }

  lemma {:induction false} ReadLinesBack(items: seq<Item>)
    requires forall item | item in items :: PlainParts(item)
    ensures ReadLines(Lines(items) + Closing()) == Some(items)
    decreases |items|
  {
    if items == [] {
      assert Lines([]) + Closing() == Closing();
    } else {
      var item, rest := items[0], Lines(items[1..]) + Closing();
      assert [item] + items[1..] == items;
      LinesCons(item, items[1..]);
      var s := Lines(items) + Closing();
      assert s == RenderItem(item) + rest;
      LineStart(item);
      assert s[0] == ' ' && s != Closing();
      ReadItemBack(item, rest);
      ReadLinesBack(items[1..]);
      hide RenderItem, ReadItem, Lines, Closing;
    }
  }

  /** Main result: reading a rendered block returns exactly the chosen items, in rank order, with their
      ids, scopes and contents. */
  lemma ReadBlockBack(items: seq<Item>)
    requires forall item | item in items :: PlainParts(item)
    ensures ReadBlock(Block(items)) == Some(items)
  {
    hide Opening, Closing, Lines, ReadLines;
    ReadLinesBack(items);
    var s := Block(items);
    assert s == Opening() + (Lines(items) + Closing());
    assert s[|Opening()|..] == Lines(items) + Closing();
  }

  lemma {:induction false} ChosenAreRanked(budget: nat, ranked: seq<Item>)
    ensures forall item | item in Chosen(budget, ranked) :: item in ranked
  {
    hide RenderItem, Frame, Lines, Bytes;
    if ranked != [] {
      ChosenAreRanked(budget, ranked[..|ranked| - 1]);
    }
  }
}
