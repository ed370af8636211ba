/** Whitespace handling shared by the segmenter and the memory store: the text is split on
    Unicode White_Space and rejoined with single spaces. */
module Text {
  import opened Integers

  predicate IsWhitespace(c: char) {
    || '\t' <= c <= '\r'
    || c == ' '
    || c == '\U{85}'
    || c == '\U{A0}'
    || c == '\U{1680}'
    || '\U{2000}' <= c <= '\U{200A}'
    || c == '\U{2028}'
    || c == '\U{2029}'
    || c == '\U{202F}'
    || c == '\U{205F}'
    || c == '\U{3000}'
  }

  /** What `trim().is_empty()` tests. */
  predicate Blank(s: string) {
    forall c | c in s :: IsWhitespace(c)
  }

  /** The words of `word + s`, where `word` is the word being read. */
  function WordsFrom(s: string, word: string): seq<string> {
    if s == [] then
      if word == [] then [] else [word]
    else if IsWhitespace(s[0]) then
      (if word == [] then [] else [word]) + WordsFrom(s[1..], [])
    else
      WordsFrom(s[1..], word + [s[0]])
  }

  function Words(s: string): seq<string> {
    WordsFrom(s, [])
  }

  function Join<T>(parts: seq<seq<T>>, separator: seq<T>): seq<T> {
    if parts == [] then []
    else if |parts| == 1 then parts[0]
    else parts[0] + separator + Join(parts[1..], separator)
  }

  /** The parts of `s` between the occurrences of `at`. */
  function Split<T(==)>(s: seq<T>, at: T): (parts: seq<seq<T>>)
    ensures parts != []
  {
    if s == [] then [[]]
    else
      var rest := Split(s[1..], at);
      if s[0] == at then [[]] + rest else [[s[0]] + rest[0]] + rest[1..]
  }

  function Normalize(s: string): string {
    Join(Words(s), " ")
  }

  /** The characters of a text that are not whitespace, in order. */
  function Ink(s: string): string {
    if s == [] then []
    else (if IsWhitespace(s[0]) then [] else [s[0]]) + Ink(s[1..])
  }

  predicate IsWord(w: string) {
    w != [] && forall c | c in w :: !IsWhitespace(c)
  }

  /** Single-spaced: no leading, trailing or doubled whitespace, and a space wherever there is any. */
  predicate SingleSpaced(s: string) {
    && (s != [] ==> !IsWhitespace(s[0]) && !IsWhitespace(s[|s| - 1]))
    && (forall i | 0 <= i < |s| && IsWhitespace(s[i]) :: s[i] == ' ')
    && (forall i | 0 <= i < |s| - 1 && IsWhitespace(s[i]) :: !IsWhitespace(s[i + 1]))
  }

  lemma InkAppend(a: string, b: string)
    ensures Ink(a + b) == Ink(a) + Ink(b)
  {
    if a == [] {
      assert a + b == b;
    } else {
      assert (a + b)[1..] == a[1..] + b;
      InkAppend(a[1..], b);
    }
  }

  lemma WordInk(w: string)
    requires forall c | c in w :: !IsWhitespace(c)
    ensures Ink(w) == w
  {
    if w != [] {
      WordInk(w[1..]);
    }
  }

  /** Joining behind one more word: what `Join` does when the rest is not empty. */
  lemma JoinCons(w: string, rest: seq<string>)
    requires rest != []
    ensures Join([w] + rest, " ") == w + " " + Join(rest, " ")
  {
    assert ([w] + rest)[1..] == rest;
  }

  lemma {:induction false} WordsFromWords(s: string, word: string)
    requires forall c | c in word :: !IsWhitespace(c)
    ensures forall w | w in WordsFrom(s, word) :: IsWord(w)
  {
    if s != [] {
      WordsFromWords(s[1..], if IsWhitespace(s[0]) then [] else word + [s[0]]);
    }
  }

  lemma {:induction false} WordsFromLength(s: string, word: string)
    ensures |Join(WordsFrom(s, word), " ")| <= |word| + |s|
  {
    if s != [] {
      var next := if IsWhitespace(s[0]) then [] else word + [s[0]];
      WordsFromLength(s[1..], next);
      var rest := WordsFrom(s[1..], next);
      if IsWhitespace(s[0]) {
        if word == [] {
          assert WordsFrom(s, word) == rest;
        } else if rest != [] {
          JoinCons(word, rest);
        } else {
          assert WordsFrom(s, word) == [word];
        }
      }
    }
  }

  lemma {:induction false} SpaceInk(w: string, rest: string)
    requires forall c | c in w :: !IsWhitespace(c)
    ensures Ink(w + " " + rest) == w + Ink(rest)
  {
    var spaced := " " + rest;
    assert spaced[0] == ' ' && spaced[1..] == rest;
    assert Ink(spaced) == Ink(rest);
    hide Ink, IsWhitespace;
    WordInk(w);
    InkAppend(w, spaced);
    assert w + spaced == w + " " + rest;
  }

  lemma {:induction false} WordsFromInk(s: string, word: string)
    requires forall c | c in word :: !IsWhitespace(c)
    ensures Ink(Join(WordsFrom(s, word), " ")) == word + Ink(s)
  {
    if s == [] {
      WordInk(word);
    } else if IsWhitespace(s[0]) {
      var rest := WordsFrom(s[1..], []);
      WordsFromInk(s[1..], []);
      if word == [] {
        assert WordsFrom(s, word) == rest;
      } else if rest == [] {
        assert WordsFrom(s, word) == [word];
        WordInk(word);
      } else {
        JoinCons(word, rest);
        SpaceInk(word, Join(rest, " "));
      }
    } else {
      WordsFromInk(s[1..], word + [s[0]]);
    }
  }

  lemma {:induction false} JoinSingleSpaced(words: seq<string>)
    requires forall w | w in words :: IsWord(w)
    ensures SingleSpaced(Join(words, " "))
    ensures words != [] ==> Join(words, " ") != []
  {
    if |words| > 1 {
      JoinSingleSpaced(words[1..]);
      var w, rest := words[0], Join(words[1..], " ");
      var s := w + " " + rest;
      assert Join(words, " ") == s;
      assert IsWord(w);
      forall i | 0 <= i < |s| ensures s[i] == if i < |w| then w[i] else if i == |w| then ' ' else rest[i - |w| - 1] {}
      forall i | 0 <= i < |w| ensures !IsWhitespace(s[i]) { assert s[i] in w; }
      assert s[|s| - 1] == rest[|rest| - 1];
    } else if |words| == 1 {
      assert IsWord(words[0]);
    }
  }

  /** Reading on through the rest of a word: `word` holds what was read of it before. */
  lemma {:induction false} WordThenRest(w: string, rest: string, word: string)
    requires forall c | c in w :: !IsWhitespace(c)
    ensures WordsFrom(w + rest, word) == WordsFrom(rest, word + w)
  {
    if w == [] {
      assert w + rest == rest && word + w == word;
    } else {
      assert (w + rest)[0] == w[0] && !IsWhitespace(w[0]);
      assert (w + rest)[1..] == w[1..] + rest;
      WordThenRest(w[1..], rest, word + [w[0]]);
      assert (word + [w[0]]) + w[1..] == word + w;
    }
  }

  lemma {:induction false} WordsOfJoin(words: seq<string>)
    requires forall w | w in words :: IsWord(w)
    ensures Words(Join(words, " ")) == words
  {
    if |words| == 1 {
      var w := words[0];
      assert IsWord(w);
      WordThenRest(w, [], []);
      assert w + [] == w && [] + w == w;
    } else if |words| > 1 {
      var w, rest := words[0], Join(words[1..], " ");
      assert IsWord(w);
      WordsOfJoin(words[1..]);
      assert Join(words, " ") == w + (" " + rest);
      WordThenRest(w, " " + rest, []);
      assert [] + w == w;
      assert (" " + rest)[1..] == rest;
    }
  }

  /** Normalising never lengthens a text, keeps every non-white character in order,
      leaves the text single-spaced, and is idempotent. */
  lemma NormalizeSound(s: string)
    ensures |Normalize(s)| <= |s|
    ensures Ink(Normalize(s)) == Ink(s)
    ensures SingleSpaced(Normalize(s))
    ensures Normalize(Normalize(s)) == Normalize(s)
  {
    WordsFromWords(s, []);
    WordsFromLength(s, []);
    WordsFromInk(s, []);
    JoinSingleSpaced(Words(s));
    WordsOfJoin(Words(s));
  }

  /** The code points of the Unicode property White_Space. */
  lemma WhitespaceExactly(c: char)
    ensures IsWhitespace(c) <==>
              || c as int in {9, 10, 11, 12, 13, 32, 133, 160, 5760, 8232, 8233, 8239, 8287, 12288}
              || 8192 <= c as int <= 8202
  {
  }

  lemma {:induction false} WordsApart(a: string, c: char, b: string, word: string)
    requires IsWhitespace(c)
    ensures WordsFrom(a + [c] + b, word) == WordsFrom(a, word) + WordsFrom(b, [])
  {
    var s := a + [c] + b;
    if a == [] {
      assert s[0] == c && s[1..] == b;
    } else {
      assert s[0] == a[0] && s[1..] == a[1..] + [c] + b;
      WordsApart(a[1..], c, b, if IsWhitespace(a[0]) then [] else word + [a[0]]);
    }
  }

  lemma {:induction false} JoinApart(a: seq<string>, b: seq<string>)
    requires a != [] && b != []
    ensures Join(a + b, " ") == Join(a, " ") + " " + Join(b, " ")
  {
    if |a| == 1 {
      assert a + b == [a[0]] + b;
      JoinCons(a[0], b);
    } else {
      assert a + b == [a[0]] + (a[1..] + b);
      JoinCons(a[0], a[1..] + b);
      JoinApart(a[1..], b);
    }
  }

  lemma EmptyWhenWordless(s: string)
    ensures Normalize(s) == [] <==> Words(s) == []
  {
    WordsFromWords(s, []);
    JoinSingleSpaced(Words(s));
  }

  /** Normalising is the one function that keeps a word as it is and puts one space in place of any whitespace
      that stands between two words. */
  lemma NormalizeApart(a: string, c: char, b: string)
    ensures Normalize([]) == []
    ensures IsWord(a) ==> Normalize(a) == a
    ensures IsWhitespace(c) ==>
      Normalize(a + [c] + b) == Normalize(a)
        + (if Normalize(a) != [] && Normalize(b) != [] then " " else "") + Normalize(b)
  {
    if IsWord(a) {
      WordThenRest(a, [], []);
      assert a + [] == a && [] + a == a;
    }
    if IsWhitespace(c) {
      WordsApart(a, c, b, []);
      EmptyWhenWordless(a);
      EmptyWhenWordless(b);
      hide WordsFrom, IsWhitespace;
      if Words(a) == [] {
        assert Words(a) + Words(b) == Words(b);
      } else if Words(b) == [] {
        assert Words(a) + Words(b) == Words(a);
      } else {
        JoinApart(Words(a), Words(b));
      }
    }
  }

  lemma {:induction false} BlankInk(s: string)
    ensures Blank(s) <==> Ink(s) == []
  {
    if s != [] {
      BlankInk(s[1..]);
      assert s == [s[0]] + s[1..];
    }
  }

  /** A blank text is one of which nothing is left. */
  lemma BlankExactly(s: string)
    ensures Blank(s) <==> Normalize(s) == []
  {
    BlankInk(s);
    NormalizeSound(s);
    BlankInk(Normalize(s));
    if Normalize(s) != [] {
      assert Normalize(s)[0] in Normalize(s);
    }
  }

  // ---------- splitting ----------

  lemma {:induction false} SplitApart<T>(a: seq<T>, b: seq<T>, at: T)
    ensures Split(a + [at] + b, at) == Split(a, at) + Split(b, at)
  {
    var s := a + [at] + b;
    if a == [] {
      assert s[1..] == b && s[0] == at;
    } else {
      assert s[0] == a[0] && s[1..] == a[1..] + [at] + b;
      SplitApart(a[1..], b, at);
    }
  }

  lemma {:induction false} SplitWithout<T>(s: seq<T>, at: T)
    requires at !in s
    ensures Split(s, at) == [s]
  {
    if s != [] {
      SplitWithout(s[1..], at);
      assert [s[0]] + s[1..] == s;
    }
  }

  lemma {:induction false} SplitJoin<T>(parts: seq<seq<T>>, at: T)
    requires parts != [] && forall i | 0 <= i < |parts| :: at !in parts[i]
    ensures Split(Join(parts, [at]), at) == parts
  {
    SplitWithout(parts[0], at);
    if |parts| > 1 {
      SplitJoin(parts[1..], at);
      SplitApart(parts[0], Join(parts[1..], [at]), at);
      assert [parts[0]] + parts[1..] == parts;
    }
  }

  // ---------- UTF-8 ----------

  /** The UTF-8 encoding of a character (table 3-6 of the Unicode standard). */
  function Utf8(c: char): seq<Byte> {
    var n := c as int;
    if n < 0x80 then [n]
    else if n < 0x800 then [0xC0 + n / 0x40, 0x80 + n % 0x40]
    else if n < 0x1_0000 then [0xE0 + n / 0x1000, 0x80 + n / 0x40 % 0x40, 0x80 + n % 0x40]
    else [0xF0 + n / 0x4_0000, 0x80 + n / 0x1000 % 0x40, 0x80 + n / 0x40 % 0x40, 0x80 + n % 0x40]
  }

  function Utf8Text(s: string): seq<Byte> { if s == [] then [] else Utf8(s[0]) + Utf8Text(s[1..]) }
}
