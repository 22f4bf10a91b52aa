/** The filters of the memo list as text in the address bar. */
module UrlFilters {
  import opened Wrappers
  import opened Strings

  // ----- UTF-8 and percent-encoding

  type Byte = b: int | 0 <= b < 256

  predicate IsScalar(n: int) { 0 <= n < 0xD800 || 0xE000 <= n < 0x11_0000 }

  function Utf8(n: int): seq<Byte>
    requires IsScalar(n)
  {
    if n < 0x80 then [n]
    else if n < 0x800 then [0xC0 + n / 64, 0x80 + n % 64]
    else if n < 0x1_0000 then [0xE0 + n / 4096, 0x80 + n / 64 % 64, 0x80 + n % 64]
    else [0xF0 + n / 262144, 0x80 + n / 4096 % 64, 0x80 + n / 64 % 64, 0x80 + n % 64]
  }

  predicate IsContinuation(b: Byte) { 0x80 <= b < 0xC0 }

  /** How many bytes a character takes that starts with this one; 0 for none. */
  function CharLength(b: Byte): (n: nat)
    ensures n <= 4
  {
    if b < 0x80 then 1 else if b < 0xC0 then 0 else if b < 0xE0 then 2 else if b < 0xF0 then 3 else if b < 0xF8 then 4
      else 0
  }

  /** The character of these bytes: no overlong form, no surrogate, nothing beyond the last one. */
  function Character(bs: seq<Byte>): (n: Option<int>)
    ensures n.Some? ==> IsScalar(n.value)
  {
    if |bs| == 1 && bs[0] < 0x80 then Some(bs[0])
    else if |bs| == 2 && 0xC0 <= bs[0] < 0xE0 && IsContinuation(bs[1]) then
      var n: int := (bs[0] as int - 0xC0) * 64 + (bs[1] as int - 0x80);
      if n >= 0x80 then Some(n) else None
    else if |bs| == 3 && 0xE0 <= bs[0] < 0xF0 && IsContinuation(bs[1]) && IsContinuation(bs[2]) then
      var n: int := (bs[0] as int - 0xE0) * 4096 + (bs[1] as int - 0x80) * 64 + (bs[2] as int - 0x80);
      if n >= 0x800 && IsScalar(n) then Some(n) else None
    else if |bs| == 4 && 0xF0 <= bs[0] < 0xF8 && IsContinuation(bs[1]) && IsContinuation(bs[2])
      && IsContinuation(bs[3]) then
      var n: int :=
          (bs[0] as int - 0xF0) * 262144 + (bs[1] as int - 0x80) * 4096 + (bs[2] as int - 0x80) * 64
          + (bs[3] as int - 0x80);
      if n >= 0x1_0000 && IsScalar(n) then Some(n) else None
    else None
  }

  lemma Utf8RoundTrip(n: int)
    requires IsScalar(n)
    ensures Character(Utf8(n)) == Some(n) && |Utf8(n)| == CharLength(Utf8(n)[0])
  {
    if n < 0x1_0000 { ShortRoundTrip(n); } else { LongRoundTrip(n); }
  }

  lemma ShortRoundTrip(n: int)
    requires IsScalar(n) && n < 0x1_0000
    ensures Character(Utf8(n)) == Some(n) && |Utf8(n)| == CharLength(Utf8(n)[0])
  {
    SixBits(n);
    SixBits(n / 64);
    assert n / 4096 == n / 64 / 64;
  }

  lemma LongRoundTrip(n: int)
    requires IsScalar(n) && n >= 0x1_0000
    ensures Character(Utf8(n)) == Some(n) && |Utf8(n)| == CharLength(Utf8(n)[0])
  {
    SixBits(n);
    SixBits(n / 64);
    SixBits(n / 64 / 64);
    assert n / 4096 == n / 64 / 64 && n / 262144 == n / 64 / 64 / 64;
  }

  lemma SixBits(n: nat)
    ensures n == n / 64 * 64 + n % 64 && 0 <= n % 64 < 64
  {
  }

  function HexDigit(d: int): char
    requires 0 <= d < 16
  {
    if d < 10 then '0' + d as char else 'A' + (d - 10) as char
  }

  function HexValue(c: char): (d: Option<int>)
    ensures d.Some? ==> 0 <= d.value < 16
  {
    if '0' <= c <= '9' then Some((c - '0') as int)
    else if 'A' <= c <= 'F' then Some((c - 'A') as int + 10)
    else if 'a' <= c <= 'f' then Some((c - 'a') as int + 10)
    else None
  }

  function Percent(b: Byte): string { ['%', HexDigit(b / 16), HexDigit(b % 16)] }

  function PercentAll(bs: seq<Byte>): string
  {
    if bs == [] then "" else Percent(bs[0]) + PercentAll(bs[1..])
  }

  function ReadPercent(s: string): Option<Byte>
  {
    if |s| < 3 || s[0] != '%' then None
    else
      match (HexValue(s[1]), HexValue(s[2]))
      case (Some(h), Some(l)) => Some(16 * h + l)
      case _ => None
  }

  function ReadPercents(s: string, n: nat): (r: Option<seq<Byte>>)
    ensures r.Some? ==> |s| >= 3 * n
  {
    if n == 0 then Some([])
    else
      match ReadPercent(s)
      case None => None
      case Some(b) =>
        match ReadPercents(s[3..], n - 1)
        case None => None
        case Some(bs) => Some([b] + bs)
  }

  predicate IsUnescaped(c: char)
  {
    'a' <= c <= 'z' || 'A' <= c <= 'Z' || '0' <= c <= '9' ||
    c == '-' || c == '_' || c == '.' || c == '!' || c == '~' || c == '*' || c == '\'' || c == '(' || c == ')'
  }

  function EncodeURIComponent(s: string): string
  {
    if s == "" then ""
    else (if IsUnescaped(s[0]) then [s[0]] else PercentAll(Utf8(s[0] as int))) + EncodeURIComponent(s[1..])
  }

  /** None is the error of malformed text. */
  function DecodeURIComponent(s: string): Option<string>
  {
    if s == "" then Some("")
    else if s[0] != '%' then
      match DecodeURIComponent(s[1..])
      case None => None
      case Some(rest) => Some([s[0]] + rest)
    else
      match ReadPercent(s)
      case None => None
      case Some(b) =>
        if CharLength(b) == 0 then None
        else
          match ReadPercents(s, CharLength(b))
          case None => None
          case Some(bs) =>
            match Character(bs)
            case None => None
            case Some(n) =>
              match DecodeURIComponent(s[3 * CharLength(b)..])
              case None => None
              case Some(rest) => Some([n as char] + rest)
  }

  lemma ReadsPercent(b: Byte, rest: string)
    ensures |Percent(b)| == 3 && ReadPercent(Percent(b) + rest) == Some(b) && (Percent(b) + rest)[3..] == rest
  {
  }

  lemma {:induction false} ReadsPercents(bs: seq<Byte>, rest: string)
    ensures |PercentAll(bs)| == 3 * |bs|
    ensures ReadPercents(PercentAll(bs) + rest, |bs|) == Some(bs)
  {
    hide Percent, ReadPercent;
    if bs != [] {
      var s, tail := PercentAll(bs) + rest, PercentAll(bs[1..]) + rest;
      assert s == Percent(bs[0]) + tail;
      ReadsPercent(bs[0], tail);
      ReadsPercents(bs[1..], rest);
      assert bs == [bs[0]] + bs[1..];
    }
  }

  /** The escape of one character is read back as it. */
  lemma ReadsEscaped(c: char, rest: string)
    ensures var s := PercentAll(Utf8(c as int)) + rest;
            DecodeURIComponent(s) ==
            match DecodeURIComponent(rest) case None => None case Some(t) => Some([c] + t)
  {
    var bs := Utf8(c as int);
    var s := PercentAll(bs) + rest;
    Utf8RoundTrip(c as int);
    ReadsPercents(bs, rest);
    ReadsPercent(bs[0], PercentAll(bs[1..]) + rest);
    assert s == Percent(bs[0]) + (PercentAll(bs[1..]) + rest);
    assert s[3 * |bs|..] == rest;
    hide PercentAll, ReadPercents, ReadPercent, Utf8, Character, CharLength;
  }

  /** Decoding undoes encoding. */
  lemma {:induction false} DecodesEncoded(s: string)
    ensures DecodeURIComponent(EncodeURIComponent(s)) == Some(s)
  {
    if s != "" {
      var rest := EncodeURIComponent(s[1..]);
      DecodesEncoded(s[1..]);
      assert s == [s[0]] + s[1..];
      if IsUnescaped(s[0]) {
        assert ([s[0]] + rest)[1..] == rest;
      } else {
        hide DecodeURIComponent, Utf8, PercentAll;
        ReadsEscaped(s[0], rest);
      }
    }
  }

  lemma {:induction false} PercentAllChars(bs: seq<Byte>, c: char)
    requires c == ',' || c == ':'
    ensures c !in PercentAll(bs)
  {
    if bs != [] { PercentAllChars(bs[1..], c); }
  }

  lemma {:induction false} EncodedChars(s: string, c: char)
    requires c == ',' || c == ':'
    ensures c !in EncodeURIComponent(s)
  {
    hide PercentAll, Utf8;
    if s != "" {
      EncodedChars(s[1..], c);
      PercentAllChars(Utf8(s[0] as int), c);
    }
  }

  // ----- Filters

  datatype Factor = TagSearch | Visibility | ContentSearch | DisplayTime | Pinned | HasLink | HasTaskList | HasCode

  function FactorName(f: Factor): string
  {
    match f
    case TagSearch => "tagSearch"
    case Visibility => "visibility"
    case ContentSearch => "contentSearch"
    case DisplayTime => "displayTime"
    case Pinned => "pinned"
    case HasLink => "property.hasLink"
    case HasTaskList => "property.hasTaskList"
    case HasCode => "property.hasCode"
  }

  /** A filter as it is parsed: the name of its factor is not checked. */
  datatype MemoFilter = MemoFilter(factor: string, value: string)

  predicate IsKnown(f: MemoFilter) { exists k: Factor :: f.factor == FactorName(k) }

  function GetMemoFilterKey(f: MemoFilter): string { f.factor + ":" + f.value }

  function StringifyFilter(f: MemoFilter): string { f.factor + ":" + EncodeURIComponent(f.value) }

  function StringifyAll(fs: seq<MemoFilter>): seq<string>
  {
    seq(|fs|, k requires 0 <= k < |fs| => StringifyFilter(fs[k]))
  }

  function StringifyFilters(fs: seq<MemoFilter>): string { Join(StringifyAll(fs), ",") }

  function ParseFilter(s: string): Option<MemoFilter>
  {
    var parts := Split(s, ':');
    match DecodeURIComponent(if |parts| > 1 then parts[1] else "")
    case None => None
    case Some(value) => Some(MemoFilter(parts[0], value))
  }

  function ParseAll(pieces: seq<string>): Option<seq<MemoFilter>>
  {
    if pieces == [] then Some([])
    else
      match ParseFilter(pieces[0])
      case None => None
      case Some(f) =>
        match ParseAll(pieces[1..])
        case None => None
        case Some(fs) => Some([f] + fs)
  }

  /** Malformed text anywhere leaves no filters at all. */
  function ParseFilterQuery(query: Option<string>): seq<MemoFilter>
  {
    if query.None? || query.value == "" then []
    else match ParseAll(Split(query.value, ',')) case None => [] case Some(fs) => fs
  }

  predicate PlainName(s: string) { s != "" && forall k :: 0 <= k < |s| ==> s[k] != ':' && s[k] != ',' }

  lemma NamesArePlain(k: Factor)
    ensures PlainName(FactorName(k))
  {
    match k {
      case TagSearch => assert PlainName("tagSearch");
      case Visibility => assert PlainName("visibility");
      case ContentSearch => assert PlainName("contentSearch");
      case DisplayTime => assert PlainName("displayTime");
      case Pinned => assert PlainName("pinned");
      case HasLink => assert PlainName("property.hasLink");
      case HasTaskList => assert PlainName("property.hasTaskList");
      case HasCode => assert PlainName("property.hasCode");
    }
  }

  lemma FactorNamesArePlain(f: MemoFilter)
    requires IsKnown(f)
    ensures f.factor != "" && ':' !in f.factor && ',' !in f.factor
  {
    var k: Factor :| f.factor == FactorName(k);
    hide FactorName;
    NamesArePlain(k);
  }

  lemma ParsesStringified(f: MemoFilter)
    requires IsKnown(f)
    ensures ParseFilter(StringifyFilter(f)) == Some(f) && ',' !in StringifyFilter(f) && StringifyFilter(f) != ""
  {
    hide DecodeURIComponent, EncodeURIComponent, IsKnown;
    var value := EncodeURIComponent(f.value);
    FactorNamesArePlain(f);
    EncodedChars(f.value, ':');
    EncodedChars(f.value, ',');
    SplitFirst(f.factor, value, ':');
    SplitOne(value, ':');
    assert f.factor + [':'] + value == StringifyFilter(f);
    DecodesEncoded(f.value);
  }

  lemma {:induction false} ParsesAll(fs: seq<MemoFilter>)
    requires forall k :: 0 <= k < |fs| ==> IsKnown(fs[k])
    ensures ParseAll(StringifyAll(fs)) == Some(fs)
  {
    hide ParseFilter, StringifyFilter, IsKnown;
    if fs != [] {
      ParsesStringified(fs[0]);
      ParsesAll(fs[1..]);
      assert StringifyAll(fs)[1..] == StringifyAll(fs[1..]);
      assert fs == [fs[0]] + fs[1..];
    }
  }

  /** Filters survive the way through the address bar, whatever their values hold. */
  lemma FiltersRoundTrip(fs: seq<MemoFilter>)
    requires forall k :: 0 <= k < |fs| ==> IsKnown(fs[k])
    ensures ParseFilterQuery(Some(StringifyFilters(fs))) == fs
  {
    hide ParseFilter, StringifyFilter, IsKnown, ParseAll;
    var pieces := StringifyAll(fs);
    if fs != [] {
      forall k | 0 <= k < |fs| ensures ',' !in pieces[k] && pieces[k] != "" { ParsesStringified(fs[k]); }
      assert forall p :: p in pieces ==> ',' !in p;
      SplitJoin(pieces, ',');
      ParsesAll(fs);
      assert Join(pieces, ",") != "" by { assert pieces[0] != ""; }
    }
  }

  /** The key of a filter identifies it. */
  lemma FilterKeyIsInjective(f: MemoFilter, g: MemoFilter)
    requires IsKnown(f) && IsKnown(g) && GetMemoFilterKey(f) == GetMemoFilterKey(g)
    ensures f == g
  {
    hide IsKnown;
    FactorNamesArePlain(f);
    FactorNamesArePlain(g);
    SplitsOnce(f.factor, f.value, g.factor, g.value, ':');
  }

  // ----- What the text looks like

  /** The characters that stand for themselves. */
  lemma UnescapedCharacters(c: char)
    ensures IsUnescaped(c) <==> c in LOWER || c in UPPER || c in DIGITS || c in "-_.!~*'()"
  {
    Alphanumerics(c);
  }

  /** Hexadecimal digits are written in upper case and read in either case. */
  lemma HexDigits(d: int)
    requires 0 <= d < 16
    ensures HexDigit(d) == "0123456789ABCDEF"[d]
    ensures HexValue("0123456789ABCDEF"[d]) == Some(d) && HexValue("0123456789abcdef"[d]) == Some(d)
    ensures HexValue('G') == None && HexValue('g') == None && HexValue('/') == None && HexValue(':') == None
  {
  }

  /** Bytes are the character n exactly when they are its own encoding. */
  lemma OnlyItsOwnBytes(bs: seq<Byte>, n: int)
    ensures Character(bs) == Some(n) <==> IsScalar(n) && bs == Utf8(n)
  {
    if IsScalar(n) { Utf8RoundTrip(n); }
    if Character(bs) == Some(n) { BytesOf(bs, n); }
  }

  lemma BytesOf(bs: seq<Byte>, n: int)
    requires Character(bs) == Some(n)
    ensures bs == Utf8(n)
  {
    if |bs| == 2 {
      TwoParts(bs[0] as int - 0xC0, bs[1] as int - 0x80);
    } else if |bs| == 3 {
      ThreeBytes(bs[0], bs[1], bs[2], n);
      assert bs == [bs[0], bs[1], bs[2]];
    } else if |bs| == 4 {
      FourBytes(bs[0], bs[1], bs[2], bs[3], n);
      assert bs == [bs[0], bs[1], bs[2], bs[3]];
    }
  }

  lemma ThreeBytes(a: Byte, b: Byte, c: Byte, n: int)
    requires 0xE0 <= a < 0xF0 && IsContinuation(b) && IsContinuation(c) && 0x800 <= n < 0x1_0000 && IsScalar(n)
    requires n == (a as int - 0xE0) * 4096 + (b as int - 0x80) * 64 + (c as int - 0x80)
    ensures Utf8(n) == [a, b, c]
  {
    var x, y, z := a as int - 0xE0, b as int - 0x80, c as int - 0x80;
    TwoParts(x * 64 + y, z);
    TwoParts(x, y);
    assert n / 4096 == n / 64 / 64;
  }

  lemma FourBytes(a: Byte, b: Byte, c: Byte, d: Byte, n: int)
    requires 0xF0 <= a < 0xF8 && IsContinuation(b) && IsContinuation(c) && IsContinuation(d)
    requires 0x1_0000 <= n && IsScalar(n)
    requires n == (a as int - 0xF0) * 262144 + (b as int - 0x80) * 4096 + (c as int - 0x80) * 64 + (d as int - 0x80)
    ensures Utf8(n) == [a, b, c, d]
  {
    var w, x, y, z := a as int - 0xF0, b as int - 0x80, c as int - 0x80, d as int - 0x80;
    TwoParts((w * 64 + x) * 64 + y, z);
    TwoParts(w * 64 + x, y);
    TwoParts(w, x);
    assert n / 4096 == n / 64 / 64 && n / 262144 == n / 64 / 64 / 64;
  }

  lemma TwoParts(a: int, b: int)
    requires 0 <= b < 64
    ensures (a * 64 + b) / 64 == a && (a * 64 + b) % 64 == b
  {
  }

  lemma EncodesOne(c: char)
    ensures !IsUnescaped(c) ==> EncodeURIComponent([c]) == PercentAll(Utf8(c as int))
  {
    assert [c][1..] == "";
    hide PercentAll, Utf8;
    assert EncodeURIComponent("") == "";
  }

  /** Characters of one to four bytes. */
  lemma KnownEncodings()
    ensures EncodeURIComponent("/") == "%2F" && EncodeURIComponent("\U{e9}") == "%C3%A9"
    ensures EncodeURIComponent("\U{20ac}") == "%E2%82%AC" && EncodeURIComponent("\U{1f600}") == "%F0%9F%98%80"
  {
    hide EncodeURIComponent, PercentAll;
    EncodesOne('/');
    EncodesOne('\U{e9}');
    EncodesOne('\U{20ac}');
    EncodesOne('\U{1f600}');
    assert Utf8(0x2F) == [0x2F] && Utf8(0xE9) == [0xC3, 0xA9] && Utf8(0x20AC) == [0xE2, 0x82, 0xAC];
    assert Utf8(0x1F600) == [0xF0, 0x9F, 0x98, 0x80];
    EscapeOne(0x2F);
    EscapeTwo(0xC3, 0xA9);
    EscapeThree(0xE2, 0x82, 0xAC);
    EscapeFour(0xF0, 0x9F, 0x98, 0x80);
  }

  lemma EscapeOne(a: Byte)
    ensures PercentAll([a]) == Percent(a)
  {
    assert [a][1..] == [];
  }

  lemma EscapeTwo(a: Byte, b: Byte)
    ensures PercentAll([a, b]) == Percent(a) + Percent(b)
  {
    assert [a, b][1..] == [b];
    EscapeOne(b);
  }

  lemma EscapeThree(a: Byte, b: Byte, c: Byte)
    ensures PercentAll([a, b, c]) == Percent(a) + Percent(b) + Percent(c)
  {
    assert [a, b, c][1..] == [b, c];
    EscapeTwo(b, c);
  }

  lemma EscapeFour(a: Byte, b: Byte, c: Byte, d: Byte)
    ensures PercentAll([a, b, c, d]) == Percent(a) + Percent(b) + Percent(c) + Percent(d)
  {
    assert [a, b, c, d][1..] == [b, c, d];
    EscapeThree(b, c, d);
  }

  /** The factors of filters. */
  lemma KnownFactors(f: MemoFilter)
    ensures IsKnown(f) <==>
              f.factor in {"tagSearch", "visibility", "contentSearch", "displayTime", "pinned", "property.hasLink",
                           "property.hasTaskList", "property.hasCode"}
  {
    if IsKnown(f) { var k: Factor :| f.factor == FactorName(k); }
    assert FactorName(TagSearch) == "tagSearch" && FactorName(Visibility) == "visibility"
           && FactorName(ContentSearch) == "contentSearch" && FactorName(DisplayTime) == "displayTime"
           && FactorName(Pinned) == "pinned" && FactorName(HasLink) == "property.hasLink"
           && FactorName(HasTaskList) == "property.hasTaskList" && FactorName(HasCode) == "property.hasCode";
  }

  /** Filters are joined by commas, and their parts by a colon. */
  lemma KnownText(f: MemoFilter, g: MemoFilter)
    ensures StringifyFilters([f, g]) ==
              f.factor + ":" + EncodeURIComponent(f.value) + "," + g.factor + ":" + EncodeURIComponent(g.value)
  {
    hide EncodeURIComponent;
    var pieces := StringifyAll([f, g]);
    assert pieces == [StringifyFilter(f), StringifyFilter(g)] && pieces[1..] == [StringifyFilter(g)];
    assert Join([StringifyFilter(g)], ",") == StringifyFilter(g);
    assert StringifyFilter(f) + "," + StringifyFilter(g) ==
             f.factor + ":" + EncodeURIComponent(f.value) + "," + g.factor + ":" + EncodeURIComponent(g.value);
  }

  /** A filter without a colon has the empty value; malformed text leaves no filters. */
  lemma KnownQueries(name: string)
    requires ':' !in name && ',' !in name && name != ""
    ensures ParseFilterQuery(Some(name)) == [MemoFilter(name, "")] && ParseFilterQuery(Some("")) == []
    ensures ParseFilterQuery(None) == [] && ParseFilterQuery(Some(name + ":%zz")) == []
  {
    SplitOne(name, ',');
    SplitOne(name, ':');
    assert DecodeURIComponent("") == Some("") && DecodeURIComponent("%zz") == None;
    var bad := name + ":%zz";
    SplitOne(bad, ',');
    assert bad == name + [':'] + "%zz";
    SplitFirst(name, "%zz", ':');
    SplitOne("%zz", ':');
    hide DecodeURIComponent, Split;
    assert ParseFilter(name) == Some(MemoFilter(name, "")) && ParseFilter(bad) == None;
    assert [name][1..] == [] && ParseAll([]) == Some([]);
    hide ParseFilter;
    assert [MemoFilter(name, "")] + [] == [MemoFilter(name, "")];
    assert ParseAll([name]) == Some([MemoFilter(name, "")] + []);
    assert ParseAll([bad]) == None;
  }
}
