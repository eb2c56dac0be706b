/**
 * The `items_json` column of the orders table: `create_order` writes the items list
 * with `json.dumps` (default separators `", "` and `": "`, ASCII-only output) and the
 * read queries turn it back into a list with `json.loads`.
 *
 * The encoder writes exactly what `json.dumps` writes for a list of item objects. The
 * decoder follows `json.loads` on those documents: it skips whitespace between tokens,
 * accepts every string escape of JSON and refuses control characters inside strings.
 * A `char` cannot hold a lone surrogate, so the decoder refuses an unpaired surrogate
 * escape, which `json.loads` would accept. It reads the four keys of an item in the
 * order the encoder writes them.
 *
 * Encoders are written in continuation style: `XOnto(x, tail)` is the encoding of `x`
 * followed by `tail`, so that each parsing step of the round-trip proofs meets its
 * token at the front of the input.
 */
module ItemsJson {
  import opened Wrappers
  import opened Orders

  // ---------------------------------------------------------------- characters

  predicate IsWs(c: char) { c == ' ' || c == '\t' || c == '\n' || c == '\r' }

  predicate IsDigit(c: char) { '0' <= c <= '9' }

  const Backspace: char := 8 as char
  const FormFeed: char := 12 as char

  function DigitChar(d: nat): (c: char)
    requires d < 10
    ensures IsDigit(c)
  {
    ('0' as int + d) as char
  }

  function HexDigit(d: nat): (c: char)
    requires d < 16
    ensures '0' <= c <= '9' || 'a' <= c <= 'f'
  {
    if d < 10 then ('0' as int + d) as char else ('a' as int + d - 10) as char
  }

  /** The value of a hexadecimal digit of either case. */
  function HexValue(c: char): (v: Option<nat>)
    ensures v.Some? ==> v.value < 16
  {
    if '0' <= c <= '9' then Some(c as int - '0' as int)
    else if 'a' <= c <= 'f' then Some(c as int - 'a' as int + 10)
    else if 'A' <= c <= 'F' then Some(c as int - 'A' as int + 10)
    else None
  }

  /** Four lower-case hexadecimal digits, most significant first, as `json.dumps` writes them after `\u`. */
  function Hex4(n: nat): (h: string)
    requires n < 0x10000
    ensures |h| == 4 && Printable(h)
  {
    var d3, m1 := n % 16, n / 16;
    var d2, m2 := m1 % 16, m1 / 16;
    var d1, d0 := m2 % 16, m2 / 16;
    [HexDigit(d0), HexDigit(d1), HexDigit(d2), HexDigit(d3)]
  }

  function Hex4Value(h: string): (v: Option<nat>)
    requires |h| == 4
    ensures v.Some? ==> v.value < 0x10000
  {
    var d0 :- HexValue(h[0]);
    var d1 :- HexValue(h[1]);
    var d2 :- HexValue(h[2]);
    var d3 :- HexValue(h[3]);
    Some(((d0 * 16 + d1) * 16 + d2) * 16 + d3)
  }

  // ---------------------------------------------------------------- encoding

  /** Every character is printable ASCII, as `json.dumps` output is by default. */
  predicate Printable(s: string) {
    forall c :: c in s ==> ' ' <= c <= '~'
  }

  /** `json.dumps` escapes a backslash, a quote and everything outside printable ASCII. */
  predicate NeedsEscape(c: char) {
    c == '"' || c == '\\' || !(' ' <= c <= '~')
  }

  /**
   * What follows the backslash of an escaped character: the short forms for the quote,
   * the backslash and five control characters, else `u` and four hex digits, with a
   * UTF-16 surrogate pair for characters beyond the Basic Multilingual Plane.
   */
  function EscapeCode(c: char): (r: string)
    ensures Printable(r)
  {
    if c == '"' then "\""
    else if c == '\\' then "\\"
    else if c == '\n' then "n"
    else if c == '\r' then "r"
    else if c == '\t' then "t"
    else if c == Backspace then "b"
    else if c == FormFeed then "f"
    else if c as int < 0x10000 then "u" + Hex4(c as int)
    else
      var v := c as int - 0x10000;
      "u" + Hex4(0xD800 + v / 0x400) + "\\u" + Hex4(0xDC00 + v % 0x400)
  }

  function EscapeChar(c: char): (r: string)
    ensures Printable(r)
  {
    if NeedsEscape(c) then "\\" + EscapeCode(c) else [c]
  }

  /** The escaped characters of `s`, then `tail`. */
  function EscapeOnto(s: string, tail: string): string
    decreases |s|
  {
    if s == [] then tail else EscapeChar(s[0]) + EscapeOnto(s[1..], tail)
  }

  /** A JSON string literal holding `s`, then `tail`. */
  function StringOnto(s: string, tail: string): string {
    "\"" + EscapeOnto(s, "\"" + tail)
  }

  function NullableStringOnto(s: Option<string>, tail: string): string {
    match s
    case None => "null" + tail
    case Some(v) => StringOnto(v, tail)
  }

  /** The decimal digits of `n`, with no leading zero. */
  function EncodeNat(n: nat): (d: string)
    ensures d != [] && Printable(d)
  {
    if n < 10 then [DigitChar(n)] else EncodeNat(n / 10) + [DigitChar(n % 10)]
  }

  function IntOnto(i: int, tail: string): string {
    if i < 0 then "-" + (EncodeNat(-i) + tail) else EncodeNat(i) + tail
  }

  function NullableIntOnto(i: Option<int>, tail: string): string {
    match i
    case None => "null" + tail
    case Some(v) => IntOnto(v, tail)
  }

  /** One item object with its keys in insertion order, then `tail`. */
  function ItemOnto(it: Item, tail: string): string {
    "{" + ("\"item_id\"" + (": " + NullableStringOnto(it.itemId,
    ", " + ("\"item_name\"" + (": " + NullableStringOnto(it.itemName,
    ", " + ("\"quantity\"" + (": " + NullableIntOnto(it.quantity,
    ", " + ("\"image_url\"" + (": " + StringOnto(it.imageUrl,
    "}" + tail))))))))))))
  }

  /** The items after the first, each preceded by `", "`, then `tail`. */
  function MoreItemsOnto(items: seq<Item>, tail: string): string
    decreases |items|
  {
    if items == [] then tail else ", " + ItemOnto(items[0], MoreItemsOnto(items[1..], tail))
  }

  function ItemsOnto(items: seq<Item>, tail: string): string {
    if items == [] then "[]" + tail
    else "[" + ItemOnto(items[0], MoreItemsOnto(items[1..], "]" + tail))
  }

  /** `json.dumps(items)`. */
  function Encode(items: seq<Item>): (r: string)
    ensures Printable(r)
    ensures r != [] && r[0] == '['
  {
    ItemsOntoPrintable(items, "");
    ItemsOnto(items, "")
  }

  lemma PrintableConcat(a: string, b: string)
    requires Printable(a) && Printable(b)
    ensures Printable(a + b)
  {
  }

  lemma {:induction false} EscapeOntoPrintable(s: string, tail: string)
    requires Printable(tail)
    ensures Printable(EscapeOnto(s, tail))
    decreases |s|
  {
    if s != [] {
      EscapeOntoPrintable(s[1..], tail);
      PrintableConcat(EscapeChar(s[0]), EscapeOnto(s[1..], tail));
    }
  }

  lemma StringOntoPrintable(s: string, tail: string)
    requires Printable(tail)
    ensures Printable(StringOnto(s, tail))
  {
    PrintableConcat("\"", tail);
    EscapeOntoPrintable(s, "\"" + tail);
    PrintableConcat("\"", EscapeOnto(s, "\"" + tail));
  }

  lemma NullableStringOntoPrintable(s: Option<string>, tail: string)
    requires Printable(tail)
    ensures Printable(NullableStringOnto(s, tail))
  {
    match s
    case None => PrintableConcat("null", tail);
    case Some(v) => StringOntoPrintable(v, tail);
  }

  lemma NullableIntOntoPrintable(i: Option<int>, tail: string)
    requires Printable(tail)
    ensures Printable(NullableIntOnto(i, tail))
  {
    match i
    case None => PrintableConcat("null", tail);
    case Some(v) =>
      var d := EncodeNat(if v < 0 then -v else v);
      PrintableConcat(d, tail);
      if v < 0 { PrintableConcat("-", d + tail); }
  }

  /** `"key": value` followed by `tail`, with `value` already known printable. */
  lemma MemberPrintable(key: string, value: string)
    requires Printable(key) && Printable(value)
    ensures Printable(key + (": " + value))
  {
    PrintableConcat(": ", value);
    PrintableConcat(key, ": " + value);
  }

  lemma ItemOntoPrintable(it: Item, tail: string)
    requires Printable(tail)
    ensures Printable(ItemOnto(it, tail))
  {
    PrintableConcat("}", tail);
    StringOntoPrintable(it.imageUrl, "}" + tail);
    var u := "\"image_url\"" + (": " + StringOnto(it.imageUrl, "}" + tail));
    MemberPrintable("\"image_url\"", StringOnto(it.imageUrl, "}" + tail));
    PrintableConcat(", ", u);
    NullableIntOntoPrintable(it.quantity, ", " + u);
    var q := "\"quantity\"" + (": " + NullableIntOnto(it.quantity, ", " + u));
    MemberPrintable("\"quantity\"", NullableIntOnto(it.quantity, ", " + u));
    PrintableConcat(", ", q);
    NullableStringOntoPrintable(it.itemName, ", " + q);
    var n := "\"item_name\"" + (": " + NullableStringOnto(it.itemName, ", " + q));
    MemberPrintable("\"item_name\"", NullableStringOnto(it.itemName, ", " + q));
    PrintableConcat(", ", n);
    NullableStringOntoPrintable(it.itemId, ", " + n);
    var i := "\"item_id\"" + (": " + NullableStringOnto(it.itemId, ", " + n));
    MemberPrintable("\"item_id\"", NullableStringOnto(it.itemId, ", " + n));
    PrintableConcat("{", i);
    assert ItemOnto(it, tail) == "{" + i;
  }

  lemma {:induction false} MoreItemsOntoPrintable(items: seq<Item>, tail: string)
    requires Printable(tail)
    ensures Printable(MoreItemsOnto(items, tail))
    decreases |items|
  {
    if items != [] {
      MoreItemsOntoPrintable(items[1..], tail);
      ItemOntoPrintable(items[0], MoreItemsOnto(items[1..], tail));
      PrintableConcat(", ", ItemOnto(items[0], MoreItemsOnto(items[1..], tail)));
    }
  }

  lemma ItemsOntoPrintable(items: seq<Item>, tail: string)
    requires Printable(tail)
    ensures Printable(ItemsOnto(items, tail))
  {
    if items == [] {
      PrintableConcat("[]", tail);
    } else {
      PrintableConcat("]", tail);
      MoreItemsOntoPrintable(items[1..], "]" + tail);
      ItemOntoPrintable(items[0], MoreItemsOnto(items[1..], "]" + tail));
      PrintableConcat("[", ItemOnto(items[0], MoreItemsOnto(items[1..], "]" + tail)));
    }
  }

  // ---------------------------------------------------------------- decoding

  function SkipWs(s: string): (t: string)
    ensures |t| <= |s|
    ensures t == [] || !IsWs(t[0])
    decreases |s|
  {
    if s != [] && IsWs(s[0]) then SkipWs(s[1..]) else s
  }

  /** Skips whitespace, then consumes `lit`. */
  function Token(s: string, lit: string): (r: Option<string>)
    ensures r.Some? ==> |r.value| + |lit| <= |s|
    ensures r.Some? ==> lit <= SkipWs(s)
  {
    var t := SkipWs(s);
    if lit <= t then Some(t[|lit|..]) else None
  }

  /** The character of one escape sequence, `s` starting just after its backslash. */
  function ParseEscape(s: string): (r: Option<(char, string)>)
    ensures r.Some? ==> |r.value.1| < |s|
  {
    if s == [] then None
    else if s[0] == '"' then Some(('"', s[1..]))
    else if s[0] == '\\' then Some(('\\', s[1..]))
    else if s[0] == '/' then Some(('/', s[1..]))
    else if s[0] == 'b' then Some((Backspace, s[1..]))
    else if s[0] == 'f' then Some((FormFeed, s[1..]))
    else if s[0] == 'n' then Some(('\n', s[1..]))
    else if s[0] == 'r' then Some(('\r', s[1..]))
    else if s[0] == 't' then Some(('\t', s[1..]))
    else if s[0] == 'u' && |s| >= 5 then
      var v :- Hex4Value(s[1..5]);
      if 0xD800 <= v < 0xDC00 then
        if |s| >= 11 && s[5] == '\\' && s[6] == 'u' then
          var w :- Hex4Value(s[7..11]);
          if 0xDC00 <= w < 0xE000 then
            Some(((0x10000 + (v - 0xD800) * 0x400 + (w - 0xDC00)) as char, s[11..]))
          else None
        else None
      else if 0xDC00 <= v < 0xE000 then None
      else Some((v as char, s[5..]))
    else None
  }

  /** The characters of a string literal up to its closing quote, `s` starting after the opening one. */
  function ParseChars(s: string): (r: Option<(string, string)>)
    ensures r.Some? ==> |r.value.1| < |s|
    decreases |s|
  {
    if s == [] then None
    else if s[0] == '"' then Some(([], s[1..]))
    else if s[0] == '\\' then
      var e :- ParseEscape(s[1..]);
      var more :- ParseChars(e.1);
      Some(([e.0] + more.0, more.1))
    else if s[0] < ' ' then None
    else
      var more :- ParseChars(s[1..]);
      Some(([s[0]] + more.0, more.1))
  }

  function ParseString(s: string): (r: Option<(string, string)>)
    ensures r.Some? ==> |r.value.1| < |s|
  {
    var t := SkipWs(s);
    if t != [] && t[0] == '"' then ParseChars(t[1..]) else None
  }

  function ParseNullableString(s: string): (r: Option<(Option<string>, string)>)
    ensures r.Some? ==> |r.value.1| < |s|
  {
    match Token(s, "null")
    case Some(t) => Some((None, t))
    case None =>
      var p :- ParseString(s);
      Some((Some(p.0), p.1))
  }

  /** The number of leading digits of `s`. */
  function DigitRun(s: string): (k: nat)
    ensures k <= |s|
    decreases |s|
  {
    if s != [] && IsDigit(s[0]) then 1 + DigitRun(s[1..]) else 0
  }

  function DigitsValue(ds: string): nat
    decreases |ds|
  {
    if ds == [] then 0
    else DigitsValue(ds[..|ds| - 1]) * 10 + (if IsDigit(ds[|ds| - 1]) then ds[|ds| - 1] as int - '0' as int else 0)
  }

  /** A natural number as JSON writes it: `0`, or digits without a leading zero. */
  function ParseNat(s: string): (r: Option<(nat, string)>)
    ensures r.Some? ==> |r.value.1| < |s|
  {
    if s == [] || !IsDigit(s[0]) then None
    else if s[0] == '0' then Some((0, s[1..]))
    else
      var k := DigitRun(s);
      Some((DigitsValue(s[..k]), s[k..]))
  }

  function ParseInt(s: string): (r: Option<(int, string)>)
    ensures r.Some? ==> |r.value.1| < |s|
  {
    var t := SkipWs(s);
    if t != [] && t[0] == '-' then
      var p :- ParseNat(t[1..]);
      var n: int := 0 - p.0;
      Some((n, p.1))
    else
      var p :- ParseNat(t);
      var n: int := p.0;
      Some((n, p.1))
  }

  function ParseNullableInt(s: string): (r: Option<(Option<int>, string)>)
    ensures r.Some? ==> |r.value.1| < |s|
  {
    match Token(s, "null")
    case Some(t) => Some((None, t))
    case None =>
      var p :- ParseInt(s);
      Some((Some(p.0), p.1))
  }

  /** An object member: the quoted key, a colon, and a string. */
  function StringMember(s: string, key: string): (r: Option<(string, string)>)
    ensures r.Some? ==> |r.value.1| < |s|
  {
    var a :- Token(s, key);
    var b :- Token(a, ":");
    ParseString(b)
  }

  function NullableStringMember(s: string, key: string): (r: Option<(Option<string>, string)>)
    ensures r.Some? ==> |r.value.1| < |s|
  {
    var a :- Token(s, key);
    var b :- Token(a, ":");
    ParseNullableString(b)
  }

  function NullableIntMember(s: string, key: string): (r: Option<(Option<int>, string)>)
    ensures r.Some? ==> |r.value.1| < |s|
  {
    var a :- Token(s, key);
    var b :- Token(a, ":");
    ParseNullableInt(b)
  }

  function ParseItem(s: string): (r: Option<(Item, string)>)
    ensures r.Some? ==> |r.value.1| < |s|
  {
    var a :- Token(s, "{");
    var id :- NullableStringMember(a, "\"item_id\"");
    var b :- Token(id.1, ",");
    var name :- NullableStringMember(b, "\"item_name\"");
    var c :- Token(name.1, ",");
    var qty :- NullableIntMember(c, "\"quantity\"");
    var d :- Token(qty.1, ",");
    var url :- StringMember(d, "\"image_url\"");
    var e :- Token(url.1, "}");
    Some((Item(id.0, name.0, qty.0, url.0), e))
  }

  /** The items after the first, up to and including the closing bracket. */
  function ParseMoreItems(s: string): (r: Option<(seq<Item>, string)>)
    ensures r.Some? ==> |r.value.1| < |s|
    decreases |s|
  {
    match Token(s, "]")
    case Some(t) => Some(([], t))
    case None =>
      var a :- Token(s, ",");
      var item :- ParseItem(a);
      var more :- ParseMoreItems(item.1);
      Some(([item.0] + more.0, more.1))
  }

  function ParseItems(s: string): (r: Option<(seq<Item>, string)>)
    ensures r.Some? ==> SkipWs(s) != [] && SkipWs(s)[0] == '['
  {
    var a :- Token(s, "[");
    match Token(a, "]")
    case Some(t) => Some(([], t))
    case None =>
      var first :- ParseItem(a);
      var more :- ParseMoreItems(first.1);
      Some(([first.0] + more.0, more.1))
  }

  /** `json.loads` on a stored items list; None where it would raise. */
  function Decode(s: string): (r: Option<seq<Item>>)
    ensures r.Some? ==> SkipWs(s) != [] && SkipWs(s)[0] == '['
  {
    var p :- ParseItems(s);
    if SkipWs(p.1) == [] then Some(p.0) else None
  }

  // ---------------------------------------------------------------- round trip

  predicate AllWs(w: string) {
    forall i :: 0 <= i < |w| ==> IsWs(w[i])
  }

  lemma {:induction false} SkipWsPrefix(w: string, s: string)
    requires AllWs(w) && (s == [] || !IsWs(s[0]))
    ensures SkipWs(w + s) == s
    decreases |w|
  {
    if w == [] {
      assert w + s == s;
    } else {
      assert (w + s)[1..] == w[1..] + s;
      SkipWsPrefix(w[1..], s);
    }
  }

  /** A token preceded by whitespace is consumed. */
  lemma TokenAt(w: string, lit: string, rest: string)
    requires AllWs(w) && lit != [] && !IsWs(lit[0])
    ensures Token(w + (lit + rest), lit) == Some(rest)
  {
    SkipWsPrefix(w, lit + rest);
    assert (lit + rest)[|lit|..] == rest;
  }

  /** A token is refused where the input starts with another character. */
  lemma TokenMismatch(w: string, s: string, lit: string)
    requires AllWs(w) && s != [] && !IsWs(s[0]) && lit != [] && s[0] != lit[0]
    ensures Token(w + s, lit) == None
  {
    SkipWsPrefix(w, s);
  }

  /** `, ` or `: ` is consumed down to its space. */
  lemma Separator(w: string, p: char, rest: string)
    requires AllWs(w) && !IsWs(p)
    ensures Token(w + ([p, ' '] + rest), [p]) == Some(" " + rest)
  {
    assert [p, ' '] + rest == [p] + (" " + rest);
    TokenAt(w, [p], " " + rest);
  }

  lemma HexDigitValue(d: nat)
    requires d < 16
    ensures HexValue(HexDigit(d)) == Some(d)
  {
  }

  lemma Hex4RoundTrip(n: nat)
    requires n < 0x10000
    ensures Hex4Value(Hex4(n)) == Some(n)
  {
    var d3, m1 := n % 16, n / 16;
    var d2, m2 := m1 % 16, m1 / 16;
    var d1, d0 := m2 % 16, m2 / 16;
    assert d0 < 16;
    HexDigitValue(d0);
    HexDigitValue(d1);
    HexDigitValue(d2);
    HexDigitValue(d3);
    assert ((d0 * 16 + d1) * 16 + d2) * 16 + d3 == n;
  }

  /** A `\\uXXXX` escape of a character of the Basic Multilingual Plane. */
  lemma BmpEscapeRoundTrip(c: char, tail: string)
    requires c as int < 0x10000
    ensures ParseEscape("u" + Hex4(c as int) + tail) == Some((c, tail))
  {
    var h := Hex4(c as int);
    var s := "u" + h + tail;
    assert s[1..5] == h && s[5..] == tail;
    Hex4RoundTrip(c as int);
  }

  /** A pair of a high and a low surrogate escape reads as the character it combines to. */
  lemma SurrogatePairRoundTrip(hi: nat, lo: nat, tail: string)
    requires 0xD800 <= hi < 0xDC00 && 0xDC00 <= lo < 0xE000
    ensures ParseEscape("u" + Hex4(hi) + "\\u" + Hex4(lo) + tail)
         == Some(((0x10000 + (hi - 0xD800) * 0x400 + (lo - 0xDC00)) as char, tail))
  {
    var s := "u" + Hex4(hi) + "\\u" + Hex4(lo) + tail;
    assert s[1..5] == Hex4(hi) && s[5] == '\\' && s[6] == 'u' && s[7..11] == Hex4(lo) && s[11..] == tail;
    Hex4RoundTrip(hi);
    Hex4RoundTrip(lo);
  }

  /** A surrogate pair `\\uD8XX\\uDCXX` of a character beyond the Basic Multilingual Plane. */
  lemma SurrogateEscapeRoundTrip(c: char, tail: string)
    requires c as int >= 0x10000
    ensures var v := c as int - 0x10000;
      ParseEscape("u" + Hex4(0xD800 + v / 0x400) + "\\u" + Hex4(0xDC00 + v % 0x400) + tail) == Some((c, tail))
  {
    var v := c as int - 0x10000;
    var q, m := v / 0x400, v % 0x400;
    assert q * 0x400 + m == v;
    assert q < 0x400;
    SurrogatePairRoundTrip(0xD800 + q, 0xDC00 + m, tail);
  }

  /** Decoding an escape sequence gives back the escaped character. */
  lemma EscapeCodeRoundTrip(c: char, tail: string)
    requires NeedsEscape(c)
    ensures ParseEscape(EscapeCode(c) + tail) == Some((c, tail))
  {
    if c == '"' || c == '\\' || c == '\n' || c == '\r' || c == '\t' || c == Backspace || c == FormFeed {
      assert (EscapeCode(c) + tail)[1..] == tail;
    } else if c as int < 0x10000 {
      BmpEscapeRoundTrip(c, tail);
    } else {
      SurrogateEscapeRoundTrip(c, tail);
    }
  }

  /** One encoded character in front of a readable rest is read back in front of it. */
  lemma CharStep(c: char, rest: string, cs: string, t: string)
    requires ParseChars(rest) == Some((cs, t))
    ensures ParseChars(EscapeChar(c) + rest) == Some(([c] + cs, t))
  {
    if NeedsEscape(c) {
      assert EscapeChar(c) + rest == "\\" + (EscapeCode(c) + rest);
      EscapedCharStep(c, rest, cs, t);
    } else {
      assert EscapeChar(c) == [c];
      PlainCharStep(c, rest, cs, t);
    }
  }

  lemma PlainCharStep(c: char, rest: string, cs: string, t: string)
    requires !NeedsEscape(c) && ParseChars(rest) == Some((cs, t))
    ensures ParseChars([c] + rest) == Some(([c] + cs, t))
  {
    var x := [c] + rest;
    assert x[0] == c && x[1..] == rest;
  }

  lemma EscapedCharStep(c: char, rest: string, cs: string, t: string)
    requires NeedsEscape(c) && ParseChars(rest) == Some((cs, t))
    ensures ParseChars("\\" + (EscapeCode(c) + rest)) == Some(([c] + cs, t))
  {
    var x := "\\" + (EscapeCode(c) + rest);
    EscapeCodeRoundTrip(c, rest);
    assert x[0] == '\\' && x[1..] == EscapeCode(c) + rest;
  }

  /** The characters of an encoded string are read back up to its closing quote. */
  lemma {:induction false} ParseCharsRoundTrip(s: string, tail: string)
    ensures ParseChars(EscapeOnto(s, "\"" + tail)) == Some((s, tail))
    decreases |s|
  {
    if s == [] {
      assert ("\"" + tail)[1..] == tail;
    } else {
      ParseCharsRoundTrip(s[1..], tail);
      CharStep(s[0], EscapeOnto(s[1..], "\"" + tail), s[1..], tail);
      assert s == [s[0]] + s[1..];
    }
  }

  lemma StringRoundTrip(w: string, s: string, tail: string)
    requires AllWs(w)
    ensures ParseString(w + StringOnto(s, tail)) == Some((s, tail))
  {
    var x := StringOnto(s, tail);
    SkipWsPrefix(w, x);
    assert x[1..] == EscapeOnto(s, "\"" + tail);
    ParseCharsRoundTrip(s, tail);
  }

  lemma NullableStringRoundTrip(w: string, s: Option<string>, tail: string)
    requires AllWs(w)
    ensures ParseNullableString(w + NullableStringOnto(s, tail)) == Some((s, tail))
  {
    match s
    case None =>
      TokenAt(w, "null", tail);
    case Some(v) =>
      TokenMismatch(w, StringOnto(v, tail), "null");
      StringRoundTrip(w, v, tail);
  }

  lemma {:induction false} EncodeNatAllDigits(n: nat)
    ensures forall i :: 0 <= i < |EncodeNat(n)| ==> IsDigit(EncodeNat(n)[i])
  {
    if n >= 10 { EncodeNatAllDigits(n / 10); }
  }

  /** Only zero is written with a leading `0`. */
  lemma {:induction false} EncodeNatLeadingZero(n: nat)
    ensures EncodeNat(n)[0] == '0' <==> n == 0
  {
    if n >= 10 {
      EncodeNatLeadingZero(n / 10);
      assert EncodeNat(n)[0] == EncodeNat(n / 10)[0];
    }
  }

  lemma {:induction false} DigitRunOf(d: string, tail: string)
    requires forall i :: 0 <= i < |d| ==> IsDigit(d[i])
    requires tail == [] || !IsDigit(tail[0])
    ensures DigitRun(d + tail) == |d|
    decreases |d|
  {
    if d == [] {
      assert d + tail == tail;
    } else {
      assert (d + tail)[1..] == d[1..] + tail;
      DigitRunOf(d[1..], tail);
    }
  }

  /** Reading the digits of `n` gives `n`. */
  lemma {:induction false} DigitsValueOf(n: nat)
    ensures DigitsValue(EncodeNat(n)) == n
  {
    var d := EncodeNat(n);
    if n < 10 {
      assert d[..0] == [];
    } else {
      DigitsValueOf(n / 10);
      assert d[..|d| - 1] == EncodeNat(n / 10);
    }
  }

  lemma NatRoundTrip(n: nat, tail: string)
    requires tail == [] || !IsDigit(tail[0])
    ensures ParseNat(EncodeNat(n) + tail) == Some((n, tail))
  {
    var d := EncodeNat(n);
    var s := d + tail;
    EncodeNatLeadingZero(n);
    EncodeNatAllDigits(n);
    if n == 0 {
      assert s[1..] == tail;
    } else {
      DigitRunOf(d, tail);
      assert s[..|d|] == d && s[|d|..] == tail;
      DigitsValueOf(n);
    }
  }

  lemma IntRoundTrip(w: string, i: int, tail: string)
    requires AllWs(w) && (tail == [] || !IsDigit(tail[0]))
    ensures ParseInt(w + IntOnto(i, tail)) == Some((i, tail))
  {
    var x := IntOnto(i, tail);
    EncodeNatAllDigits(if i < 0 then -i else i);
    SkipWsPrefix(w, x);
    if i < 0 {
      assert x[1..] == EncodeNat(-i) + tail;
      NatRoundTrip(-i, tail);
    } else {
      NatRoundTrip(i, tail);
    }
  }

  lemma NullableIntRoundTrip(w: string, i: Option<int>, tail: string)
    requires AllWs(w) && (tail == [] || !IsDigit(tail[0]))
    ensures ParseNullableInt(w + NullableIntOnto(i, tail)) == Some((i, tail))
  {
    match i
    case None =>
      TokenAt(w, "null", tail);
    case Some(v) =>
      var x := IntOnto(v, tail);
      EncodeNatAllDigits(if v < 0 then -v else v);
      TokenMismatch(w, x, "null");
      IntRoundTrip(w, v, tail);
  }

  /** A key and its colon, as `json.dumps` writes them, are consumed down to the value. */
  lemma KeyAt(w: string, key: string, x: string)
    requires AllWs(w) && key != [] && !IsWs(key[0])
    ensures Token(w + (key + (": " + x)), key) == Some(": " + x)
    ensures Token(": " + x, ":") == Some(" " + x)
  {
    TokenAt(w, key, ": " + x);
    assert "" + ([':', ' '] + x) == ": " + x;
    Separator("", ':', x);
  }

  /** The comma before the next member is consumed down to its space. */
  lemma CommaAt(x: string)
    ensures Token(", " + x, ",") == Some(" " + x)
  {
    assert "" + ([',', ' '] + x) == ", " + x;
    Separator("", ',', x);
  }

  lemma NullableStringMemberRoundTrip(w: string, key: string, v: Option<string>, tail: string)
    requires AllWs(w) && key != [] && !IsWs(key[0])
    ensures NullableStringMember(w + (key + (": " + NullableStringOnto(v, tail))), key) == Some((v, tail))
  {
    KeyAt(w, key, NullableStringOnto(v, tail));
    assert AllWs(" ");
    NullableStringRoundTrip(" ", v, tail);
  }

  lemma NullableIntMemberRoundTrip(w: string, key: string, v: Option<int>, tail: string)
    requires AllWs(w) && key != [] && !IsWs(key[0]) && (tail == [] || !IsDigit(tail[0]))
    ensures NullableIntMember(w + (key + (": " + NullableIntOnto(v, tail))), key) == Some((v, tail))
  {
    KeyAt(w, key, NullableIntOnto(v, tail));
    assert AllWs(" ");
    NullableIntRoundTrip(" ", v, tail);
  }

  lemma StringMemberRoundTrip(w: string, key: string, v: string, tail: string)
    requires AllWs(w) && key != [] && !IsWs(key[0])
    ensures StringMember(w + (key + (": " + StringOnto(v, tail))), key) == Some((v, tail))
  {
    KeyAt(w, key, StringOnto(v, tail));
    assert AllWs(" ");
    StringRoundTrip(" ", v, tail);
  }

  lemma ItemRoundTrip(w: string, it: Item, tail: string)
    requires AllWs(w)
    ensures ParseItem(w + ItemOnto(it, tail)) == Some((it, tail))
  {
    var close := "}" + tail;
    var u := "\"image_url\"" + (": " + StringOnto(it.imageUrl, close));
    var q := "\"quantity\"" + (": " + NullableIntOnto(it.quantity, ", " + u));
    var n := "\"item_name\"" + (": " + NullableStringOnto(it.itemName, ", " + q));
    var i := "\"item_id\"" + (": " + NullableStringOnto(it.itemId, ", " + n));
    assert ItemOnto(it, tail) == "{" + i;
    assert AllWs("") && AllWs(" ");
    TokenAt(w, "{", i);
    assert "" + i == i;
    NullableStringMemberRoundTrip("", "\"item_id\"", it.itemId, ", " + n);
    CommaAt(n);
    NullableStringMemberRoundTrip(" ", "\"item_name\"", it.itemName, ", " + q);
    CommaAt(q);
    NullableIntMemberRoundTrip(" ", "\"quantity\"", it.quantity, ", " + u);
    CommaAt(u);
    StringMemberRoundTrip(" ", "\"image_url\"", it.imageUrl, close);
    assert "" + close == close;
    TokenAt("", "}", tail);
  }

  /** How the list reader goes on after a `,` that is followed by a readable item. */
  lemma MoreItemsUnfold(s: string, a: string, it: Item, rest: string, items: seq<Item>, tail: string)
    requires Token(s, "]").None? && Token(s, ",") == Some(a)
    requires ParseItem(a) == Some((it, rest)) && ParseMoreItems(rest) == Some((items, tail))
    ensures ParseMoreItems(s) == Some(([it] + items, tail))
  {
  }

  /** One `, {...}` in front of a readable rest of the list is read back in front of it. */
  lemma MoreItemsStep(it: Item, rest: string, items: seq<Item>, tail: string)
    requires ParseMoreItems(rest) == Some((items, tail))
    ensures ParseMoreItems(", " + ItemOnto(it, rest)) == Some(([it] + items, tail))
  {
    assert AllWs("") && AllWs(" ");
    var y := ItemOnto(it, rest);
    var x := ", " + y;
    assert "" + x == x && "" + ([',', ' '] + y) == x;
    TokenMismatch("", x, "]");
    Separator("", ',', y);
    ItemRoundTrip(" ", it, rest);
    MoreItemsUnfold(x, " " + y, it, rest, items, tail);
  }

  lemma {:induction false} MoreItemsRoundTrip(items: seq<Item>, tail: string)
    ensures ParseMoreItems(MoreItemsOnto(items, "]" + tail)) == Some((items, tail))
    decreases |items|
  {
    if items == [] {
      assert AllWs("");
      assert "" + ("]" + tail) == "]" + tail;
      TokenAt("", "]", tail);
    } else {
      MoreItemsRoundTrip(items[1..], tail);
      MoreItemsStep(items[0], MoreItemsOnto(items[1..], "]" + tail), items[1..], tail);
      assert items == [items[0]] + items[1..];
    }
  }

  lemma EmptyItemsRoundTrip(tail: string)
    ensures ParseItems(ItemsOnto([], tail)) == Some(([], tail))
  {
    assert AllWs("");
    assert ItemsOnto([], tail) == "" + ("[" + ("]" + tail));
    TokenAt("", "[", "]" + tail);
    assert "" + ("]" + tail) == "]" + tail;
    TokenAt("", "]", tail);
  }

  /** `[` and a first item in front of a readable rest of the list is read back as the whole list. */
  lemma FirstItemStep(it: Item, rest: string, more: seq<Item>, tail: string)
    requires ParseMoreItems(rest) == Some((more, tail))
    ensures ParseItems("[" + ItemOnto(it, rest)) == Some(([it] + more, tail))
  {
    assert AllWs("");
    var x := ItemOnto(it, rest);
    assert "[" + x == "" + ("[" + x);
    TokenAt("", "[", x);
    assert "" + x == x;
    TokenMismatch("", x, "]");
    ItemRoundTrip("", it, rest);
  }

  lemma HeadAndRest(items: seq<Item>)
    requires items != []
    ensures [items[0]] + items[1..] == items
  {
  }

  lemma NonEmptyItemsRoundTrip(items: seq<Item>, tail: string)
    requires items != []
    ensures ParseItems(ItemsOnto(items, tail)) == Some((items, tail))
  {
    var rest := MoreItemsOnto(items[1..], "]" + tail);
    MoreItemsRoundTrip(items[1..], tail);
    FirstItemStep(items[0], rest, items[1..], tail);
    HeadAndRest(items);
  }

  lemma ItemsRoundTrip(items: seq<Item>, tail: string)
    ensures ParseItems(ItemsOnto(items, tail)) == Some((items, tail))
  {
    if items == [] { EmptyItemsRoundTrip(tail); } else { NonEmptyItemsRoundTrip(items, tail); }
  }

  /** What `create_order` stores in `items_json`, `json.loads` turns back into the same items. */
  lemma DecodeEncode(items: seq<Item>)
    ensures Decode(Encode(items)) == Some(items)
  {
    ItemsRoundTrip(items, "");
  }
}
