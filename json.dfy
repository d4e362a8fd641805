/** The two columns derived from the distribution dict: its compact JSON text
    `json.dumps(dist, ensure_ascii=False, separators=(",", ":"))`, and the
    largest count `max(dist.values())`; each is None for an empty dict. A
    decoder for the same text is the partner of the encoder. */
module Json {
  import opened Text
  import opened OrderedDict

  /** The lower-case hexadecimal digit for v. */
  function HexDigit(v: nat): (c: char)
    requires v < 16
  {
    if v < 10 then '0' + v as char else 'a' + (v - 10) as char
  }

  /** The value of a hexadecimal digit of either case. */
  function HexValue(c: char): (r: Option<nat>)
    ensures r.Some? ==> r.value < 16
  {
    if '0' <= c <= '9' then Some(c as int - '0' as int)
    else if 'a' <= c <= 'f' then Some(c as int - 'a' as int + 10)
    else if 'A' <= c <= 'F' then Some(c as int - 'A' as int + 10)
    else None
  }

  lemma HexRoundTrip(v: nat)
    requires v < 16
    ensures HexValue(HexDigit(v)) == Some(v)
  {
  }

  /** How the encoder writes one character of a string with ensure_ascii off:
      the quote, the backslash and the control characters are escaped (the
      five with a short form by it, the others as \u00XX), every other
      character is written as it is. */
  function EscapeChar(c: char): (e: string)
    ensures |e| >= 1 && e[0] != '"'
    ensures e[0] != '\\' <==> c != '"' && c != '\\' && c >= ' '
  {
    if c == '"' then ['\\', '"']
    else if c == '\\' then ['\\', '\\']
    else if c == '\U{8}' then ['\\', 'b']
    else if c == '\U{C}' then ['\\', 'f']
    else if c == '\n' then ['\\', 'n']
    else if c == '\r' then ['\\', 'r']
    else if c == '\t' then ['\\', 't']
    else if c < ' ' then ['\\', 'u', '0', '0', HexDigit(c as int / 16), HexDigit(c as int % 16)]
    else [c]
  }

  function Escape(s: string): string {
    if s == [] then [] else EscapeChar(s[0]) + Escape(s[1..])
  }

  /** `"key":count`. */
  function EncodeItem(e: Entry): string {
    ['"'] + Escape(e.key) + ['"', ':'] + NatToString(e.count)
  }

  function EncodeItems(d: Dist): string {
    if d == [] then []
    else if |d| == 1 then EncodeItem(d[0])
    else EncodeItem(d[0]) + [','] + EncodeItems(d[1..])
  }

  /** The compact encoding: items in dict order, no spaces. */
  function Encode(d: Dist): string {
    ['{'] + EncodeItems(d) + ['}']
  }

  /** One character of a JSON string body at the head of s, with what follows it. */
  function DecodeChar(s: string): (r: Option<(char, string)>)
    ensures r.Some? ==> |r.value.1| < |s|
  {
    if s == [] || s[0] == '"' then None
    else if s[0] != '\\' then (if s[0] < ' ' then None else Some((s[0], s[1..])))
    else if |s| < 2 then None
    else
      match ShortEscape(s[1])
      case Some(c) => Some((c, s[2..]))
      case None =>
        if s[1] != 'u' || |s| < 6 then None
        else
          match UnicodeEscape(s[2], s[3], s[4], s[5])
          case Some(c) => Some((c, s[6..]))
          case None => None
  }

  /** The character a two-character escape `\e` stands for. */
  function ShortEscape(e: char): Option<char> {
    if e == '"' || e == '\\' || e == '/' then Some(e)
    else if e == 'b' then Some('\U{8}')
    else if e == 'f' then Some('\U{C}')
    else if e == 'n' then Some('\n')
    else if e == 'r' then Some('\r')
    else if e == 't' then Some('\t')
    else None
  }

  /** The character a `\uXXXX` escape stands for; a lone surrogate is refused. */
  function UnicodeEscape(a: char, b: char, c: char, d: char): Option<char> {
    var h3, h2, h1, h0 := HexValue(a), HexValue(b), HexValue(c), HexValue(d);
    if h3.None? || h2.None? || h1.None? || h0.None? then None
    else
      var code := h3.value * 4096 + h2.value * 256 + h1.value * 16 + h0.value;
      if 0xD800 <= code < 0xE000 then None else Some(code as char)
  }

  /** A JSON string body up to its closing quote: the text it stands for and
      what follows the quote. */
  function DecodeString(s: string): (r: Option<(string, string)>)
    ensures r.Some? ==> |r.value.1| < |s|
    decreases |s|
  {
    if s == [] then None
    else if s[0] == '"' then Some(([], s[1..]))
    else
      match DecodeChar(s)
      case None => None
      case Some((c, rest)) =>
        match DecodeString(rest)
        case None => None
        case Some((k, tail)) => Some(([c] + k, tail))
  }

  /** A count: digits without a leading zero, and what follows them. */
  function DecodeCount(v: string): (r: Option<(nat, string)>)
    ensures r.Some? ==> |r.value.1| < |v|
  {
    var e := RunEnd(v, 0, Digit);
    if e == 0 || (v[0] == '0' && e > 1) then None
    else
      Some((DigitsValue(v[..e]), v[e..]))
  }

  /** One `"key":count` item, and what follows it. */
  function DecodeItem(s: string): (r: Option<(Entry, string)>)
    ensures r.Some? ==> |r.value.1| < |s|
  {
    if s == [] || s[0] != '"' then None
    else
      match DecodeString(s[1..])
      case None => None
      case Some((k, rest)) =>
        if rest == [] || rest[0] != ':' then None
        else
          match DecodeCount(rest[1..])
          case None => None
          case Some((n, tail)) => Some((Entry(k, n), tail))
  }

  /** A non-empty, comma-separated list of items. */
  function DecodeItems(s: string): Option<Dist>
    decreases |s|
  {
    match DecodeItem(s)
    case None => None
    case Some((item, tail)) =>
      if tail == [] then Some([item])
      else if tail[0] != ',' then None
      else
        match DecodeItems(tail[1..])
        case None => None
        case Some(d) => Some([item] + d)
  }

  /** Reading back a JSON object whose values are natural numbers. */
  function Decode(s: string): Option<Dist> {
    if |s| < 2 || s[0] != '{' || s[|s| - 1] != '}' then None
    else if |s| == 2 then Some([])
    else DecodeItems(s[1..|s| - 1])
  }

  /** An escaped character reads back as itself. */
  lemma DecodeEscapedChar(c: char, rest: string)
    ensures DecodeChar(EscapeChar(c) + rest) == Some((c, rest))
  {
    var s := EscapeChar(c) + rest;
    if c < ' ' && c != '\U{8}' && c != '\U{C}' && c != '\n' && c != '\r' && c != '\t' {
      var hi, lo := c as int / 16, c as int % 16;
      assert s[..6] == ['\\', 'u', '0', '0', HexDigit(hi), HexDigit(lo)];
      assert ShortEscape('u').None?;
      UnicodeRead(c);
      assert s[6..] == rest;
    } else if |EscapeChar(c)| == 2 {
      assert s[..2] == EscapeChar(c) && s[2..] == rest;
    } else {
      assert s[1..] == rest;
    }
  }

  lemma UnicodeRead(c: char)
    requires c < ' '
    ensures UnicodeEscape('0', '0', HexDigit(c as int / 16), HexDigit(c as int % 16)) == Some(c)
  {
    var hi, lo := c as int / 16, c as int % 16;
    HexRoundTrip(hi);
    HexRoundTrip(lo);
    assert HexValue('0') == Some(0);
    assert 0 * 4096 + 0 * 256 + hi * 16 + lo == c as int;
  }

  /** An escaped key followed by the closing quote reads back as the key. */
  lemma {:induction false} DecodeEscapedString(k: string, tail: string)
    ensures DecodeString(Escape(k) + ['"'] + tail) == Some((k, tail))
    decreases |k|
  {
    var s := Escape(k) + ['"'] + tail;
    if k == [] {
      assert s == ['"'] + tail;
    } else {
      var rest := Escape(k[1..]) + ['"'] + tail;
      assert s == EscapeChar(k[0]) + rest;
      DecodeEscapedChar(k[0], rest);
      DecodeEscapedString(k[1..], tail);
      assert [k[0]] + k[1..] == k;
    }
  }

  /** The printed count is read back in full, and as the same number. */
  lemma CountRead(n: nat, rest: string)
    requires rest == [] || rest[0] == ','
    ensures DecodeCount(NatToString(n) + rest) == Some((n, rest))
  {
    var s := NatToString(n);
    var v := s + rest;
    assert forall q :: 0 <= q < |s| ==> v[q] == s[q];
    RunEndIs(v, 0, |s|, Digit);
    assert v[..|s|] == s && v[|s|..] == rest;
    if s[0] == '0' {
      assert NatToString(0) == "0";
    }
  }

  /** One encoded item reads back as itself. */
  lemma ItemRead(e: Entry, rest: string)
    requires rest == [] || rest[0] == ','
    ensures DecodeItem(EncodeItem(e) + rest) == Some((e, rest))
  {
    var num := NatToString(e.count);
    var after := [':'] + num + rest;
    var s := EncodeItem(e) + rest;
    ItemShape(Escape(e.key), num, rest);
    assert s[1..] == Escape(e.key) + ['"'] + after;
    DecodeEscapedString(e.key, after);
    CountRead(e.count, rest);
    ItemParts(s, e.key, num, rest, e.count);
  }

  lemma ItemParts(s: string, k: string, num: string, rest: string, n: nat)
    requires s != [] && s[0] == '"'
    requires DecodeString(s[1..]) == Some((k, [':'] + num + rest))
    requires DecodeCount(num + rest) == Some((n, rest))
    ensures DecodeItem(s) == Some((Entry(k, n), rest))
  {
    assert ([':'] + num + rest)[1..] == num + rest;
  }

  lemma ItemShape(x: string, num: string, rest: string)
    ensures (['"'] + x + ['"', ':'] + num) + rest == ['"'] + (x + ['"'] + ([':'] + num + rest))
  {
  }

  lemma {:induction false} DecodeEncodedItems(d: Dist)
    requires d != []
    ensures DecodeItems(EncodeItems(d)) == Some(d)
    decreases |d|
  {
    if |d| == 1 {
      assert EncodeItems(d) == EncodeItem(d[0]) + [];
      ItemRead(d[0], []);
      ItemsOne(EncodeItems(d), d[0]);
      assert d == [d[0]];
    } else {
      var more := EncodeItems(d[1..]);
      DecodeEncodedItems(d[1..]);
      assert EncodeItems(d) == EncodeItem(d[0]) + ([','] + more);
      NextItem(d[0], more, d[1..]);
      assert [d[0]] + d[1..] == d;
    }
  }

  /** An item, a comma and a list that reads back as tail. */
  lemma NextItem(e: Entry, more: string, tail: Dist)
    requires DecodeItems(more) == Some(tail)
    ensures DecodeItems(EncodeItem(e) + ([','] + more)) == Some([e] + tail)
  {
    ItemRead(e, [','] + more);
    ItemsCons(EncodeItem(e) + ([','] + more), e, more, tail);
  }

  lemma ItemsOne(s: string, e: Entry)
    requires DecodeItem(s) == Some((e, []))
    ensures DecodeItems(s) == Some([e])
  {
  }

  lemma ItemsCons(s: string, e: Entry, more: string, d: Dist)
    requires DecodeItem(s) == Some((e, [','] + more))
    requires DecodeItems(more) == Some(d)
    ensures DecodeItems(s) == Some([e] + d)
  {
    assert ([','] + more)[1..] == more;
  }

  /** Decoding the encoding gives back the dict, keys in the same order. */
  lemma RoundTrip(d: Dist)
    ensures Decode(Encode(d)) == Some(d)
  {
    var s := Encode(d);
    if d == [] {
      assert s == "{}";
    } else {
      assert s[1..|s| - 1] == EncodeItems(d);
      DecodeEncodedItems(d);
      assert |EncodeItem(d[0])| >= 3;
    }
  }

  /** A key made of characters that need no escape is written as it is. */
  lemma {:induction false} EscapeNothing(k: string)
    requires forall q :: 0 <= q < |k| ==> k[q] != '"' && k[q] != '\\' && k[q] >= ' '
    ensures Escape(k) == k
  {
    if k != [] {
      EscapeNothing(k[1..]);
      assert [k[0]] + k[1..] == k;
    }
  }

  /** Region names (CJK ideographs and ·) are written as they are. */
  lemma RegionKeyVerbatim(k: string)
    requires forall q :: 0 <= q < |k| ==> IsRegionChar(k[q])
    ensures Escape(k) == k
  {
    EscapeNothing(k);
  }

  /** The structured-JSON column: the compact encoding, or None for an empty
      dict; the text always decodes to the dict. */
  function JsonColumn(d: Dist): (r: Option<string>)
    ensures r.None? <==> d == []
    ensures r.Some? ==> Decode(r.value) == Some(d)
  {
    if d == [] then None
    else
      RoundTrip(d);
      Some(Encode(d))
  }

  /** The single-region maximum column: `max(dist.values())`, or None for an
      empty dict. */
  function MaxCount(d: Dist): (r: Option<nat>)
    ensures r.None? <==> d == []
    ensures r.Some? ==> forall i :: 0 <= i < |d| ==> d[i].count <= r.value
    ensures r.Some? ==> exists i :: 0 <= i < |d| && d[i].count == r.value
  {
    if d == [] then None
    else
      match MaxCount(d[1..])
      case None => Some(d[0].count)
      case Some(m) =>
        assert forall i :: 1 <= i < |d| ==> d[i] == d[1..][i - 1];
        Some(if d[0].count >= m then d[0].count else m)
  }
}
