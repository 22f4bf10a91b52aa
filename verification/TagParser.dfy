/** Which text after `#` becomes a tag, and why tags fit the patterns that filters search for. */
module TagParser {
  import opened Wrappers
  import opened Strings
  import Like

  const MAX_TAG_LENGTH := 100

  datatype Category = Letter | Number | Symbol | OtherCategory

  /** The Unicode category of a character: the ASCII table, and any assignment beyond it. */
  function CategoryOf(c: char, beyond: char -> Category): Category
  {
    if 'a' <= c <= 'z' || 'A' <= c <= 'Z' then Letter
    else if '0' <= c <= '9' then Number
    else if c == '$' || c == '+' || c == '<' || c == '=' || c == '>' || c == '^' || c == '`' || c == '|'
      || c == '~' then Symbol
    else if c as int < 0x80 then OtherCategory
    else beyond(c)
  }

  predicate IsValidTagRune(c: char, beyond: char -> Category)
  {
    CategoryOf(c, beyond) != OtherCategory || c == '_' || c == '-' || c == '/'
  }

  /** A line as the decoder reads it: characters, and bytes that are no UTF-8. */
  datatype Glyph = Rune(c: char) | BadByte

  predicate TagHere(line: seq<Glyph>, i: int, beyond: char -> Category)
  {
    0 <= i < |line| && line[i].Rune? && IsValidTagRune(line[i].c, beyond)
  }

  /** `tag` is the longest run of tag characters after the `#`, cut at the maximal length. */
  predicate IsMunch(line: seq<Glyph>, tag: string, beyond: char -> Category)
  {
    && 1 <= |tag| <= MAX_TAG_LENGTH && |tag| < |line| && line[0] == Rune('#')
    && (forall k :: 0 < k <= |tag| ==> TagHere(line, k, beyond) && line[k] == Rune(tag[k - 1]))
    && (|tag| == MAX_TAG_LENGTH || !TagHere(line, |tag| + 1, beyond))
  }

  method Parse(line: seq<Glyph>, beyond: char -> Category) returns (tag: Option<string>, advanced: nat)
    ensures tag.Some? <==> |line| > 1 && line[0] == Rune('#') && TagHere(line, 1, beyond)
    ensures tag.Some? ==> IsMunch(line, tag.value, beyond) && advanced == 1 + |tag.value|
    ensures tag.None? ==> advanced == 0
  {
    if |line| == 0 || line[0] != Rune('#') { return None, 0; }
    if |line| > 1 {
      if line[1] == Rune('#') { return None, 0; }
      if line[1] == Rune(' ') { return None, 0; }
    } else {
      return None, 0;
    }
    var tagStart := 1;
    var pos, runeCount := tagStart, 0;
    var name := "";
    while pos < |line|
      invariant tagStart <= pos <= |line| && runeCount == pos - 1 == |name| <= MAX_TAG_LENGTH
      invariant forall k :: 0 < k <= |name| ==> TagHere(line, k, beyond) && line[k] == Rune(name[k - 1])
    {
      if line[pos].BadByte? { break; }
      if !IsValidTagRune(line[pos].c, beyond) { break; }
      runeCount := runeCount + 1;
      if runeCount > MAX_TAG_LENGTH { break; }
      name := name + [line[pos].c];
      pos := pos + 1;
    }
    assert |name| == MAX_TAG_LENGTH || !TagHere(line, pos, beyond);
    if pos <= tagStart { return None, 0; }
    return Some(name), pos;
  }

  /** There is only one such run. */
  lemma MunchIsUnique(line: seq<Glyph>, a: string, b: string, beyond: char -> Category)
    requires IsMunch(line, a, beyond) && IsMunch(line, b, beyond)
    ensures a == b
  {
    forall k | 0 <= k < |a| && k < |b| ensures a[k] == b[k] { assert line[k + 1] == Rune(a[k]); }
  }

  /** Whatever Unicode says beyond ASCII, a parsed tag holds none of the characters that separate tags
      in JSON text, that LIKE treats as `%`, or that either escapes. */
  lemma ParsedTagsFitPatterns(line: seq<Glyph>, tag: string, beyond: char -> Category)
    requires IsMunch(line, tag, beyond)
    ensures Like.IsTag(tag)
  {
    forall k | 0 <= k < |tag| ensures Like.TagChar(tag[k]) {
      assert TagHere(line, k + 1, beyond) && line[k + 1].c == tag[k];
    }
  }

  /** The characters of tags: these of ASCII, and beyond it what is a letter, a number or a symbol. */
  lemma TagCharacters(c: char, beyond: char -> Category)
    ensures c as int < 0x80 ==>
              (IsValidTagRune(c, beyond) <==> c in LOWER || c in UPPER || c in DIGITS || c in "$+<=>^`|~_-/")
    ensures c as int >= 0x80 ==> (IsValidTagRune(c, beyond) <==> beyond(c) in {Letter, Number, Symbol})
  {
    Alphanumerics(c);
  }
}
