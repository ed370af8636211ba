/** Percent coding of the sign-in redirect (sections 2.1 and 2.3 of RFC 3986) over the UTF-8 bytes of a
    string, and the query loop that reads the callback. */
module PercentCoding {
  import opened Integers
  import opened Text
  import opened Wrappers

  const PERCENT: Byte := '%' as int
  const PLUS: Byte := '+' as int
  const AMPERSAND: Byte := '&' as int
  const EQUALS: Byte := '=' as int
  const SPACE: Byte := ' ' as int

  predicate Continues(b: Byte) { 0x80 <= b <= 0xBF }

  /** Well-formed UTF-8, as `String::from_utf8` checks it (table 3-7 of the Unicode standard). */
  predicate ValidUtf8(s: seq<Byte>)
    decreases |s|
  {
    if s == [] then true
    else if s[0] < 0x80 then ValidUtf8(s[1..])
    else if 0xC2 <= s[0] <= 0xDF then |s| >= 2 && Continues(s[1]) && ValidUtf8(s[2..])
    else if 0xE0 <= s[0] <= 0xEF then
      && |s| >= 3 && Continues(s[1]) && Continues(s[2])
      && (s[0] == 0xE0 ==> s[1] >= 0xA0) && (s[0] == 0xED ==> s[1] <= 0x9F)
      && ValidUtf8(s[3..])
    else if 0xF0 <= s[0] <= 0xF4 then
      && |s| >= 4 && Continues(s[1]) && Continues(s[2]) && Continues(s[3])
      && (s[0] == 0xF0 ==> s[1] >= 0x90) && (s[0] == 0xF4 ==> s[1] <= 0x8F)
      && ValidUtf8(s[4..])
    else false
  }

  lemma Utf8Head(c: char, rest: seq<Byte>)
    ensures ValidUtf8(Utf8(c) + rest) <==> ValidUtf8(rest)
  {
    var n, s := c as int, Utf8(c) + rest;
    assert s[|Utf8(c)|..] == rest;
    if n < 0x80 {
      assert s[0] == n;
    } else if n < 0x800 {
      assert 0xC2 <= s[0] <= 0xDF && Continues(s[1]);
    } else if n < 0x1_0000 {
      assert 0xE0 <= s[0] <= 0xEF && Continues(s[1]) && Continues(s[2]);
    } else {
      assert 0xF0 <= s[0] <= 0xF4 && Continues(s[1]) && Continues(s[2]) && Continues(s[3]);
    }
  }

  lemma {:induction false} TextIsUtf8(s: string)
    ensures ValidUtf8(Utf8Text(s))
  {
    if s != [] {
      TextIsUtf8(s[1..]);
      Utf8Head(s[0], Utf8Text(s[1..]));
    }
  }

  lemma SixBits(high: nat, low: nat)
    requires low < 0x40
    ensures (0x40 * high + low) / 0x40 == high && (0x40 * high + low) % 0x40 == low
  {
  }

  lemma SixBitsTwice(n: nat)
    ensures n / 0x40 / 0x40 == n / 0x1000
  {
  }

  /** The character of two, three or four bytes, `high` being the bits of the first. */
  lemma TwoBytes(high: nat, second: nat) returns (c: char)
    requires 2 <= high < 0x20 && second < 0x40
    ensures Utf8(c) == [0xC0 + high, 0x80 + second]
  {
    SixBits(high, second);
    c := (0x40 * high + second) as char;
  }

  lemma ThreeBytes(high: nat, second: nat, third: nat) returns (c: char)
    requires high < 0x10 && second < 0x40 && third < 0x40
    requires (high == 0 ==> second >= 0x20) && (high == 0xD ==> second < 0x20)
    ensures Utf8(c) == [0xE0 + high, 0x80 + second, 0x80 + third]
  {
    SixBits(high, second);
    SixBits(0x40 * high + second, third);
    var n := 0x40 * (0x40 * high + second) + third;
    SixBitsTwice(n);
    c := n as char;
  }

  lemma FourBytes(high: nat, second: nat, third: nat, fourth: nat) returns (c: char)
    requires high < 5 && second < 0x40 && third < 0x40 && fourth < 0x40
    requires (high == 0 ==> second >= 0x10) && (high == 4 ==> second < 0x10)
    ensures Utf8(c) == [0xF0 + high, 0x80 + second, 0x80 + third, 0x80 + fourth]
  {
    var top := 0x40 * high + second;
    var n := 0x40 * (0x40 * top + third) + fourth;
    SixBits(high, second);
    SixBits(top, third);
    SixBits(0x40 * top + third, fourth);
    SixBitsTwice(n);
    SixBitsTwice(n / 0x40);
    assert n / 0x1000 == top && n / 0x4_0000 == n / 0x40 / 0x1000 == high;
    c := n as char;
  }

  /** The character a well-formed sequence begins with. */
  lemma FirstCharacter(b: seq<Byte>) returns (c: char)
    requires ValidUtf8(b) && b != []
    ensures |Utf8(c)| <= |b| && Utf8(c) == b[..|Utf8(c)|]
  {
    var lead: int := b[0];
    if lead < 0x80 {
      c := lead as char;
      assert [b[0]] == b[..1];
      return;
    }
    var second: int := b[1] - 0x80;
    if lead <= 0xDF {
      c := TwoBytes(lead - 0xC0, second);
      assert [b[0], b[1]] == b[..2];
      return;
    }
    var third: int := b[2] - 0x80;
    if lead <= 0xEF {
      c := ThreeBytes(lead - 0xE0, second, third);
      assert [b[0], b[1], b[2]] == b[..3];
      return;
    }
    c := FourBytes(lead - 0xF0, second, third, b[3] - 0x80);
    assert [b[0], b[1], b[2], b[3]] == b[..4];
  }

  lemma {:induction false} Utf8IsText(b: seq<Byte>) returns (s: string)
    requires ValidUtf8(b)
    ensures Utf8Text(s) == b
    decreases |b|
  {
    s := [];
    if b != [] {
      var c := FirstCharacter(b);
      var n := |Utf8(c)|;
      assert n > 0 && Utf8(c) + b[n..] == b;
      Utf8Head(c, b[n..]);
      var rest := Utf8IsText(b[n..]);
      s := [c] + rest;
      assert s[1..] == rest;
    }
  }

  /** Bytes pass the check exactly when they encode some text. */
  lemma Utf8Exactly(b: seq<Byte>)
    ensures ValidUtf8(b) <==> exists s :: Utf8Text(s) == b
  {
    if ValidUtf8(b) {
      var s := Utf8IsText(b);
    } else {
      forall s ensures Utf8Text(s) != b {
        TextIsUtf8(s);
      }
    }
  }

  predicate Unreserved(b: Byte) {
    0x41 <= b <= 0x5A || 0x61 <= b <= 0x7A || 0x30 <= b <= 0x39 || b == 0x2D || b == 0x5F || b == 0x2E || b == 0x7E
  }

  function HexDigit(n: nat): Byte
    requires n < 16
  {
    if n < 10 then 0x30 + n else 0x41 + n - 10
  }

  function EncodeByte(b: Byte): seq<Byte> {
    if Unreserved(b) then [b] else [PERCENT, HexDigit(b / 16), HexDigit(b % 16)]
  }

  const UPPER_DIGITS := "0123456789ABCDEF"
  const LOWER_DIGITS := "0123456789abcdef"

  /** The unreserved characters of section 2.3 of RFC 3986 stand for themselves, and every other byte is
      written with two upper-case digits. */
  lemma EncodeByteExactly(b: Byte)
    ensures var c := b as char;
      EncodeByte(b) ==
        if 'A' <= c <= 'Z' || 'a' <= c <= 'z' || '0' <= c <= '9' || c in {'-', '.', '_', '~'} then [b]
        else ['%' as int, UPPER_DIGITS[b / 16] as int, UPPER_DIGITS[b % 16] as int]
  {
  }

  function Encode(s: seq<Byte>): seq<Byte> {
    if s == [] then [] else EncodeByte(s[0]) + Encode(s[1..])
  }

  function HexValue(b: Byte): Option<nat> {
    if 0x30 <= b <= 0x39 then Some(b - 0x30)
    else if 0x41 <= b <= 0x46 then Some(b - 0x41 + 10)
    else if 0x61 <= b <= 0x66 then Some(b - 0x61 + 10)
    else None
  }

  /** A digit of either case has its place in the row of digits for a value, and nothing else is a digit. */
  lemma HexExactly(b: Byte, v: nat)
    ensures HexValue(b) == Some(v) <==>
              v < 16 && (b == UPPER_DIGITS[v] as int || b == LOWER_DIGITS[v] as int)
  {
  }

  /** `u8::from_str_radix(_, 16)` of two characters: two digits, or a plus sign and a digit. */
  function ParsePair(a: Byte, b: Byte): Option<Byte> {
    var high := if a == PLUS then Some(0) else HexValue(a);
    var low := HexValue(b);
    if high.None? || low.None? || high.value >= 16 || low.value >= 16 then None else Some(16 * high.value + low.value)
  }

  function Cons(b: Byte, rest: Option<seq<Byte>>): Option<seq<Byte>> {
    if rest.None? then None else Some([b] + rest.value)
  }

  /** The decoding loop, before the check that the bytes are UTF-8. */
  function DecodeBytes(s: seq<Byte>): Option<seq<Byte>>
    decreases |s|
  {
    if s == [] then Some([])
    else if s[0] == PERCENT then
      if |s| < 3 || ParsePair(s[1], s[2]).None? then None
      else Cons(ParsePair(s[1], s[2]).value, DecodeBytes(s[3..]))
    else if s[0] == PLUS then Cons(SPACE, DecodeBytes(s[1..]))
    else Cons(s[0], DecodeBytes(s[1..]))
  }

  function Decode(s: seq<Byte>): Option<seq<Byte>> {
    var bytes := DecodeBytes(s);
    if bytes.Some? && ValidUtf8(bytes.value) then bytes else None
  }

  function Extend(output: seq<Byte>, rest: Option<seq<Byte>>): Option<seq<Byte>> {
    if rest.None? then None else Some(output + rest.value)
  }

  lemma ExtendCons(output: seq<Byte>, b: Byte, rest: Option<seq<Byte>>)
    ensures Extend(output, Cons(b, rest)) == Extend(output + [b], rest)
  {
    if rest.Some? {
      assert output + ([b] + rest.value) == output + [b] + rest.value;
    }
  }

  lemma ExtendNothing(rest: Option<seq<Byte>>)
    ensures Extend([], rest) == rest
  {
    if rest.Some? {
      assert [] + rest.value == rest.value;
    }
  }

  method DecodeValue(s: seq<Byte>) returns (r: Option<seq<Byte>>)
    ensures r == Decode(s)
  {
    var output: seq<Byte> := [];
    var index := 0;
    assert s[0..] == s;
    ExtendNothing(DecodeBytes(s));
    while index < |s|
      invariant index <= |s|
      invariant DecodeBytes(s) == Extend(output, DecodeBytes(s[index..]))
    {
      ghost var rest := s[index..];
      if s[index] == PERCENT {
        if index + 3 > |s| { return None; }
        var byte := ParsePair(s[index + 1], s[index + 2]);
        assert rest[1] == s[index + 1] && rest[2] == s[index + 2];
        if byte.None? { return None; }
        assert rest[3..] == s[index + 3..];
        ExtendCons(output, byte.value, DecodeBytes(rest[3..]));
        output := output + [byte.value];
        index := index + 3;
      } else {
        assert rest[1..] == s[index + 1..];
        var byte := if s[index] == PLUS then SPACE else s[index];
        ExtendCons(output, byte, DecodeBytes(rest[1..]));
        output := output + [byte];
        index := index + 1;
      }
    }
    assert s[index..] == [] && output + [] == output;
    return if ValidUtf8(output) then Some(output) else None;
  }

  // ---------- the round trip ----------

  lemma ParseHex(b: Byte)
    ensures ParsePair(HexDigit(b / 16), HexDigit(b % 16)) == Some(b)
    ensures HexDigit(b / 16) != PLUS
  {
    assert b == 16 * (b / 16) + b % 16;
  }

  lemma DecodeHead(b: Byte, rest: seq<Byte>)
    ensures DecodeBytes(EncodeByte(b) + rest) == Cons(b, DecodeBytes(rest))
  {
    ParseHex(b);
    var e := EncodeByte(b);
    assert (e + rest)[|e|..] == rest;
    hide ParsePair, HexDigit;
  }

  lemma {:induction false} DecodeBytesEncode(s: seq<Byte>)
    ensures DecodeBytes(Encode(s)) == Some(s)
  {
    if s != [] {
      DecodeHead(s[0], Encode(s[1..]));
      DecodeBytesEncode(s[1..]);
      hide DecodeBytes;
      assert [s[0]] + s[1..] == s;
    }
  }

  /** Main result: decoding undoes encoding for every UTF-8 string. */
  lemma RoundTrip(s: seq<Byte>)
    requires ValidUtf8(s)
    ensures Decode(Encode(s)) == Some(s)
  {
    DecodeBytesEncode(s);
  }

  predicate AllAscii(s: seq<Byte>) { forall i | 0 <= i < |s| :: s[i] < 0x80 }

  /** An encoded value holds nothing but unreserved characters and percent signs. */
  lemma {:induction false} EncodedIsSafe(s: seq<Byte>)
    ensures forall i | 0 <= i < |Encode(s)| :: Encode(s)[i] == PERCENT || Unreserved(Encode(s)[i])
    ensures AllAscii(Encode(s))
  {
    if s != [] {
      EncodedIsSafe(s[1..]);
      assert Unreserved(HexDigit(s[0] / 16)) && Unreserved(HexDigit(s[0] % 16));
    }
  }

  lemma {:induction false} AsciiIsUtf8(s: seq<Byte>)
    requires AllAscii(s)
    ensures ValidUtf8(s)
  {
    if s != [] {
      AsciiIsUtf8(s[1..]);
    }
  }

  /** The redirect, itself encoded into the authorisation URL, survives both layers: decoding once gives
      the redirect back, and decoding what follows its prefix gives the state. */
  lemma NestedRoundTrip(prefix: seq<Byte>, state: seq<Byte>)
    requires AllAscii(prefix) && ValidUtf8(state)
    ensures var redirect := prefix + Encode(state);
      Decode(Encode(redirect)) == Some(redirect) && Decode(redirect[|prefix|..]) == Some(state)
  {
    var redirect := prefix + Encode(state);
    hide Encode, Decode, ValidUtf8;
    EncodedIsSafe(state);
    AsciiIsUtf8(redirect);
    RoundTrip(redirect);
    RoundTrip(state);
    assert redirect[|prefix|..] == Encode(state);
  }

  // ---------- where decoding departs from the standard ----------

  /** Percent decoding as section 2.1 of RFC 3986 defines it: a percent sign and two hexadecimal digits. */
  function StrictBytes(s: seq<Byte>): Option<seq<Byte>>
    decreases |s|
  {
    if s == [] then Some([])
    else if s[0] == PERCENT then
      if |s| < 3 || HexValue(s[1]).None? || HexValue(s[2]).None? then None
      else Cons(16 * HexValue(s[1]).value + HexValue(s[2]).value, StrictBytes(s[3..]))
    else if s[0] == PLUS then Cons(SPACE, StrictBytes(s[1..]))
    else Cons(s[0], StrictBytes(s[1..]))
  }

  function StrictDecode(s: seq<Byte>): Option<seq<Byte>> {
    var bytes := StrictBytes(s);
    if bytes.Some? && ValidUtf8(bytes.value) then bytes else None
  }

  predicate SignedAt(s: seq<Byte>, i: nat) { i + 1 < |s| && s[i] == PERCENT && s[i + 1] == PLUS }

  predicate Signed(s: seq<Byte>) { exists i | 0 <= i < |s| :: SignedAt(s, i) }

  lemma SignedRest(s: seq<Byte>, k: nat)
    requires k <= |s| && forall i | 0 <= i < k :: !SignedAt(s, i)
    ensures Signed(s) == Signed(s[k..])
  {
    if Signed(s) {
      var i :| 0 <= i < |s| && SignedAt(s, i);
      assert SignedAt(s[k..], i - k);
    }
    if Signed(s[k..]) {
      var i :| 0 <= i < |s[k..]| && SignedAt(s[k..], i);
      assert SignedAt(s, i + k);
    }
  }

  lemma {:induction false} StrictBytesExact(s: seq<Byte>)
    ensures StrictBytes(s) == if Signed(s) then None else DecodeBytes(s)
    decreases |s|
  {
    if s != [] && s[0] == PERCENT {
      if |s| >= 3 && HexValue(s[1]).Some? && HexValue(s[2]).Some? {
        SignedRest(s, 3);
        StrictBytesExact(s[3..]);
      } else if |s| >= 3 && ParsePair(s[1], s[2]).Some? {
        assert SignedAt(s, 0);
      }
    } else if s != [] {
      SignedRest(s, 1);
      StrictBytesExact(s[1..]);
    }
  }

  predicate PairedAt(s: seq<Byte>, i: nat)
    requires i < |s|
  {
    s[i] == PERCENT ==> i + 2 < |s| && ParsePair(s[i + 1], s[i + 2]).Some?
  }

  predicate Paired(s: seq<Byte>) { forall i | 0 <= i < |s| :: PairedAt(s, i) }

  lemma PairedRest(s: seq<Byte>, k: nat)
    requires k <= |s| && forall i | 0 <= i < k :: PairedAt(s, i)
    ensures Paired(s) == Paired(s[k..])
  {
    forall i | 0 <= i < |s| - k ensures PairedAt(s[k..], i) == PairedAt(s, i + k) {}
    if Paired(s[k..]) {
      forall i | 0 <= i < |s| ensures PairedAt(s, i) {
        if i >= k { assert PairedAt(s[k..], i - k); }
      }
    }
  }

  /** The bytes decode exactly when a digit or a plus sign, and then a digit, follow every percent sign. */
  lemma {:induction false} DecodesExactly(s: seq<Byte>)
    ensures DecodeBytes(s).Some? <==> Paired(s)
    decreases |s|
  {
    if s != [] && s[0] == PERCENT {
      if PairedAt(s, 0) {
        PairedRest(s, 3);
        DecodesExactly(s[3..]);
      }
    } else if s != [] {
      PairedRest(s, 1);
      DecodesExactly(s[1..]);
    }
  }

  /** Main result: decoding agrees with the standard exactly on the inputs it refuses and on those where no
      plus sign follows a percent sign; the bytes before the UTF-8 check decode exactly when they are paired. */
  lemma StrictExactly(s: seq<Byte>)
    ensures StrictBytes(s) == DecodeBytes(s) <==> !(Paired(s) && Signed(s))
    ensures StrictDecode(s) == Decode(s) <==> !(Decode(s).Some? && Signed(s))
  {
    StrictBytesExact(s);
    DecodesExactly(s);
  }

  /** Any hexadecimal digit passes behind a sign, and then stands for itself. */
  lemma SignedPairDecodes(digit: Byte)
    requires HexValue(digit).Some?
    ensures Decode([PERCENT, PLUS, digit]) == Some([HexValue(digit).value])
    ensures StrictDecode([PERCENT, PLUS, digit]).None?
  {
    var s, d: Byte := [PERCENT, PLUS, digit], HexValue(digit).value;
    assert s[3..] == [];
    assert DecodeBytes([]) == Some([]);
    assert DecodeBytes(s) == Some([d] + []);
    assert [d] + [] == [d];
    AsciiIsUtf8([d]);
  }

  // ---------- the callback query ----------

  function SplitOnce(s: seq<Byte>): Option<(seq<Byte>, seq<Byte>)> {
    if s == [] then None
    else if s[0] == EQUALS then Some(([], s[1..]))
    else
      match SplitOnce(s[1..])
      case None => None
      case Some((key, value)) => Some(([s[0]] + key, value))
  }

  datatype CallbackError = MalformedQuery | BadEncoding | Denied | DuplicateParameter | MissingCode | MissingState

  datatype Callback = Callback(code: Option<seq<Byte>>, state: Option<seq<Byte>>)

  /** The parameter names "code", "state" and "error". */
  const CODE: seq<Byte> := [0x63, 0x6F, 0x64, 0x65]
  const STATE: seq<Byte> := [0x73, 0x74, 0x61, 0x74, 0x65]
  const ERROR: seq<Byte> := [0x65, 0x72, 0x72, 0x6F, 0x72]

  /** What one part of the query does to what was read before it. */
  function ReadPart(c: Callback, part: seq<Byte>): Result<Callback, CallbackError> {
    if part == [] then Ok(c)
    else
      match SplitOnce(part)
      case None => Err(MalformedQuery)
      case Some((key, value)) =>
        if key == CODE && c.code.None? then
          (if Decode(value).None? then Err(BadEncoding) else Ok(c.(code := Decode(value))))
        else if key == STATE && c.state.None? then
          (if Decode(value).None? then Err(BadEncoding) else Ok(c.(state := Decode(value))))
        else if key == ERROR then Err(Denied)
        else if key == CODE || key == STATE then Err(DuplicateParameter)
        else Ok(c)
  }

  function ReadParts(c: Callback, parts: seq<seq<Byte>>): Result<Callback, CallbackError> {
    if parts == [] then Ok(c)
    else
      match ReadParts(c, parts[..|parts| - 1])
      case Err(e) => Err(e)
      case Ok(before) => ReadPart(before, parts[|parts| - 1])
  }

  function Complete(c: Callback): Result<(seq<Byte>, seq<Byte>), CallbackError> {
    if c.code.None? then Err(MissingCode)
    else if c.state.None? then Err(MissingState)
    else Ok((c.code.value, c.state.value))
  }

  function ReadQuery(query: seq<Byte>): Result<(seq<Byte>, seq<Byte>), CallbackError> {
    match ReadParts(Callback(None, None), Split(query, AMPERSAND))
    case Err(e) => Err(e)
    case Ok(c) => Complete(c)
  }

  lemma {:induction false} ErrorStays(c: Callback, parts: seq<seq<Byte>>, i: nat)
    requires i <= |parts| && ReadParts(c, parts[..i]).Err?
    ensures ReadParts(c, parts) == ReadParts(c, parts[..i])
  {
    hide ReadPart;
    if i == |parts| {
      assert parts[..i] == parts;
    } else {
      assert parts[..|parts| - 1][..i] == parts[..i];
      ErrorStays(c, parts[..|parts| - 1], i);
    }
  }

  lemma {:induction false} SplitOnceNowhere(s: seq<Byte>)
    requires EQUALS !in s
    ensures SplitOnce(s).None?
  {
    if s != [] {
      SplitOnceNowhere(s[1..]);
    }
  }

  lemma {:induction false} SplitOnceAt(key: seq<Byte>, value: seq<Byte>)
    requires EQUALS !in key
    ensures SplitOnce(key + [EQUALS] + value) == Some((key, value))
  {
    var s := key + [EQUALS] + value;
    if key == [] {
      assert s[1..] == value;
    } else {
      assert s[1..] == key[1..] + [EQUALS] + value;
      SplitOnceAt(key[1..], value);
      assert [key[0]] + key[1..] == key;
    }
  }

  /** What a part of the query does: a first code or state is decoded, a second one refused, an error denies the
      sign-in, a part without an equals sign is malformed, and any other parameter is passed over. */
  lemma PartExactly(c: Callback, key: seq<Byte>, value: seq<Byte>)
    requires EQUALS !in key
    ensures var r := ReadPart(c, key + [EQUALS] + value);
      && (key == CODE ==> r == if c.code.Some? then Err(DuplicateParameter)
                               else if Decode(value).None? then Err(BadEncoding)
                               else Ok(Callback(Decode(value), c.state)))
      && (key == STATE ==> r == if c.state.Some? then Err(DuplicateParameter)
                                else if Decode(value).None? then Err(BadEncoding)
                                else Ok(Callback(c.code, Decode(value))))
      && (key == ERROR ==> r == Err(Denied))
      && (key !in {CODE, STATE, ERROR} ==> r == Ok(c))
    ensures ReadPart(c, []) == Ok(c) && (key != [] ==> ReadPart(c, key) == Err(MalformedQuery))
  {
    SplitOnceAt(key, value);
    SplitOnceNowhere(key);
    assert CODE[0] != STATE[0] && CODE[0] != ERROR[0] && STATE[0] != ERROR[0];
    hide SplitOnce, Decode;
  }

  method ReadCallbackQuery(query: seq<Byte>) returns (r: Result<(seq<Byte>, seq<Byte>), CallbackError>)
    ensures r == ReadQuery(query)
  {
    var code: Option<seq<Byte>>, state: Option<seq<Byte>> := None, None;
    var parts := Split(query, AMPERSAND);
    for i := 0 to |parts|
      invariant ReadParts(Callback(None, None), parts[..i]) == Ok(Callback(code, state))
    {
      var part := parts[i];
      assert parts[..i + 1][..i] == parts[..i];
      var next := ReadPart(Callback(code, state), part);
      if next.Err? {
        ErrorStays(Callback(None, None), parts, i + 1);
        return Err(next.error);
      }
      code, state := next.value.code, next.value.state;
    }
    assert parts[..|parts|] == parts;
    return Complete(Callback(code, state));
  }

  // ---------- building a query and reading it back ----------

  function Parameter(key: seq<Byte>, value: seq<Byte>): seq<Byte> { key + [EQUALS] + Encode(value) }

  lemma {:induction false} ReadPartsAppend(c: Callback, a: seq<seq<Byte>>, b: seq<seq<Byte>>)
    requires ReadParts(c, a).Ok?
    ensures ReadParts(c, a + b) == ReadParts(ReadParts(c, a).value, b)
  {
    hide ReadPart;
    if b == [] {
      assert a + b == a;
    } else {
      var n := |b| - 1;
      assert (a + b)[..|a + b| - 1] == a + b[..n];
      ReadPartsAppend(c, a, b[..n]);
    }
  }

  /** A part the loop passes over: empty, or a parameter of another name. */
  predicate Ignorable(part: seq<Byte>) {
    part == [] || (SplitOnce(part).Some? && SplitOnce(part).value.0 !in {CODE, STATE, ERROR})
  }

  lemma {:induction false} ReadIgnorable(c: Callback, parts: seq<seq<Byte>>)
    requires forall i | 0 <= i < |parts| :: Ignorable(parts[i])
    ensures ReadParts(c, parts) == Ok(c)
  {
    if parts != [] {
      ReadIgnorable(c, parts[..|parts| - 1]);
      assert Ignorable(parts[|parts| - 1]);
    }
  }

  lemma ReadCode(c: Callback, code: seq<Byte>)
    requires c.code.None? && ValidUtf8(code)
    ensures ReadParts(c, [Parameter(CODE, code)]) == Ok(c.(code := Some(code)))
  {
    SplitOnceAt(CODE, Encode(code));
    RoundTrip(code);
    assert [Parameter(CODE, code)][..0] == [];
    assert ReadParts(c, []) == Ok(c);
  }

  lemma ReadState(c: Callback, state: seq<Byte>)
    requires c.state.None? && ValidUtf8(state)
    ensures ReadParts(c, [Parameter(STATE, state)]) == Ok(c.(state := Some(state)))
  {
    SplitOnceAt(STATE, Encode(state));
    RoundTrip(state);
    assert [Parameter(STATE, state)][..0] == [];
    assert ReadParts(c, []) == Ok(c);
    assert STATE != CODE by { assert STATE[0] != CODE[0]; }
  }

  ghost predicate Passed(parts: seq<seq<Byte>>) {
    forall i | 0 <= i < |parts| :: Ignorable(parts[i]) && AMPERSAND !in parts[i]
  }

  lemma ParameterWithout(key: seq<Byte>, value: seq<Byte>)
    requires AMPERSAND !in key
    ensures AMPERSAND !in Parameter(key, value)
  {
    EncodedIsSafe(value);
    hide Encode;
  }

  lemma Sandwich(a: seq<seq<Byte>>, p: seq<Byte>, b: seq<seq<Byte>>, q: seq<Byte>, d: seq<seq<Byte>>)
    requires Passed(a) && Passed(b) && Passed(d) && AMPERSAND !in p && AMPERSAND !in q
    ensures var parts := a + [p] + b + [q] + d;
      Split(Join(parts, [AMPERSAND]), AMPERSAND) == parts
  {
    var parts := a + [p] + b + [q] + d;
    hide Ignorable, Split, Join;
    forall i | 0 <= i < |parts| ensures AMPERSAND !in parts[i] {
      if i < |a| {
        assert parts[i] == a[i];
      } else if |a| < i < |a| + 1 + |b| {
        assert parts[i] == b[i - |a| - 1];
      } else if i > |a| + 1 + |b| {
        assert parts[i] == d[i - |a| - |b| - 2];
      }
    }
    SplitJoin(parts, AMPERSAND);
  }

  /** Main result: a query holding the encoded code and state, in either order and among any other
      parameters, is read back as exactly that pair. */
  lemma QueryRoundTrip(
      code: seq<Byte>, state: seq<Byte>, codeFirst: bool, a: seq<seq<Byte>>, b: seq<seq<Byte>>, d: seq<seq<Byte>>)
    requires ValidUtf8(code) && ValidUtf8(state) && Passed(a) && Passed(b) && Passed(d)
    ensures var p, q := Parameter(CODE, code), Parameter(STATE, state);
      var parts := if codeFirst then a + [p] + b + [q] + d else a + [q] + b + [p] + d;
      ReadQuery(Join(parts, [AMPERSAND])) == Ok((code, state))
  {
    var p, q := Parameter(CODE, code), Parameter(STATE, state);
    ParameterWithout(CODE, code);
    ParameterWithout(STATE, state);
    var empty := Callback(None, None);
    if codeFirst {
      Sandwich(a, p, b, q, d);
      ReadIgnorable(empty, a);
      ReadCode(empty, code);
      ReadIgnorable(Callback(Some(code), None), b);
      ReadState(Callback(Some(code), None), state);
      ReadIgnorable(Callback(Some(code), Some(state)), d);
    } else {
      Sandwich(a, q, b, p, d);
      ReadIgnorable(empty, a);
      ReadState(empty, state);
      ReadIgnorable(Callback(None, Some(state)), b);
      ReadCode(Callback(None, Some(state)), code);
      ReadIgnorable(Callback(Some(code), Some(state)), d);
    }
    hide ReadParts, Split, Join, Parameter, Passed, ValidUtf8;
    var first, second := if codeFirst then p else q, if codeFirst then q else p;
    ReadPartsAppend(empty, a, [first]);
    ReadPartsAppend(empty, a + [first], b);
    ReadPartsAppend(empty, a + [first] + b, [second]);
    ReadPartsAppend(empty, a + [first] + b + [second], d);
  }
}
