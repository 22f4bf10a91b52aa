/** SQL LIKE over the JSON text of a tag list, and the facts about the list it decides. */
module Like {

  /** How a database folds letter case before it compares two characters. */
  type Fold = char -> char

  /** `text LIKE pattern`: `%` stands for any run of characters, `_` for one character, and, where
      the dialect has an escape character, a backslash makes the next character stand for itself. */
  predicate Matches(pattern: string, text: string, fold: Fold, escapes: bool)
    decreases |pattern|, |text|
  {
    if pattern == "" then text == ""
    else if pattern[0] == '%' then
      Matches(pattern[1..], text, fold, escapes) || (text != "" && Matches(pattern, text[1..], fold, escapes))
    else if escapes && pattern[0] == '\\' then
      |pattern| >= 2 && text != "" && fold(pattern[1]) == fold(text[0])
        && Matches(pattern[2..], text[1..], fold, escapes)
    else
      text != "" && (pattern[0] == '_' || fold(pattern[0]) == fold(text[0]))
        && Matches(pattern[1..], text[1..], fold, escapes)
  }

  /** `lit`, in which only `_` is special, stands at position `i` of `text`. */
  predicate At(lit: string, text: string, i: int, fold: Fold)
  {
    0 <= i <= i + |lit| <= |text| &&
    forall k :: 0 <= k < |lit| ==> lit[k] == '_' || fold(lit[k]) == fold(text[i + k])
  }

  predicate Occurs(lit: string, text: string, fold: Fold)
  {
    exists i :: 0 <= i <= |text| && At(lit, text, i, fold)
  }

  /** No character of `s` has a meaning of its own beyond `_`. */
  predicate NoPercent(s: string, escapes: bool) { '%' !in s && NoEscape(s, escapes) }

  predicate NoEscape(s: string, escapes: bool) { escapes ==> '\\' !in s }

  lemma {:induction false} MatchesPrefix(lit: string, text: string, fold: Fold, escapes: bool)
    requires NoPercent(lit, escapes)
    ensures Matches(lit + "%", text, fold, escapes) <==> At(lit, text, 0, fold)
    decreases |lit|
  {
    var p := lit + "%";
    if lit == "" {
      assert p == "%";
      PercentMatchesAll(text, fold, escapes);
    } else {
      assert p[1..] == lit[1..] + "%";
      if text != "" {
        MatchesPrefix(lit[1..], text[1..], fold, escapes);
        if At(lit[1..], text[1..], 0, fold) && (lit[0] == '_' || fold(lit[0]) == fold(text[0])) {
          forall k | 0 <= k < |lit| ensures lit[k] == '_' || fold(lit[k]) == fold(text[0 + k]) {
            if k > 0 { assert lit[1..][k - 1] == lit[k] && text[1..][0 + (k - 1)] == text[k]; }
          }
        }
        if At(lit, text, 0, fold) {
          forall k | 0 <= k < |lit[1..]| ensures lit[1..][k] == '_' || fold(lit[1..][k]) == fold(text[1..][0 + k]) {
            assert lit[1..][k] == lit[k + 1] && text[1..][0 + k] == text[0 + (k + 1)];
          }
          assert text[0] == text[0 + 0];
        }
      }
    }
  }

  lemma {:induction false} PercentMatchesAll(text: string, fold: Fold, escapes: bool)
    ensures Matches("%", text, fold, escapes)
    decreases |text|
  {
    assert "%"[1..] == "";
    if text != "" { PercentMatchesAll(text[1..], fold, escapes); }
  }

  /** `%lit%` matches exactly the texts in which `lit` occurs. */
  lemma {:induction false} MatchesInfix(lit: string, text: string, fold: Fold, escapes: bool)
    requires NoPercent(lit, escapes)
    ensures Matches("%" + lit + "%", text, fold, escapes) <==> Occurs(lit, text, fold)
    decreases |text|
  {
    hide Matches, At;
    InfixStep(lit, text, fold, escapes);
    MatchesPrefix(lit, text, fold, escapes);
    if text != "" {
      MatchesInfix(lit, text[1..], fold, escapes);
      OccursStep(lit, text, fold);
    } else {
      assert Occurs(lit, text, fold) <==> At(lit, text, 0, fold);
    }
  }

  lemma InfixStep(lit: string, text: string, fold: Fold, escapes: bool)
    ensures Matches("%" + lit + "%", text, fold, escapes) <==>
            Matches(lit + "%", text, fold, escapes)
              || (text != "" && Matches("%" + lit + "%", text[1..], fold, escapes))
  {
    var p := "%" + lit + "%";
    assert p[1..] == lit + "%";
  }

  lemma OccursStep(lit: string, text: string, fold: Fold)
    requires text != ""
    ensures Occurs(lit, text, fold) <==> At(lit, text, 0, fold) || Occurs(lit, text[1..], fold)
  {
    forall i | 0 < i <= |text| ensures At(lit, text, i, fold) <==> At(lit, text[1..], i - 1, fold) {
      AtTail(lit, text, i, fold);
    }
    if Occurs(lit, text[1..], fold) {
      var i :| 0 <= i <= |text[1..]| && At(lit, text[1..], i, fold);
      assert At(lit, text, i + 1, fold);
    }
    if Occurs(lit, text, fold) {
      var i :| 0 <= i <= |text| && At(lit, text, i, fold);
      if i > 0 { assert At(lit, text[1..], i - 1, fold); }
    }
  }

  lemma AtTail(lit: string, text: string, i: int, fold: Fold)
    requires 0 < i <= |text|
    ensures At(lit, text, i, fold) <==> At(lit, text[1..], i - 1, fold)
  {
    assert forall j :: 0 <= j < |text[1..]| ==> text[1..][j] == text[j + 1];
  }

  // ----- The JSON text of a tag list

  function Quote(t: string): string { "\"" + t + "\"" }

  function Items(tags: seq<string>, sep: string): string
  {
    if tags == [] then ""
    else if |tags| == 1 then Quote(tags[0])
    else Quote(tags[0]) + sep + Items(tags[1..], sep)
  }

  /** SQLite separates the elements by a comma, PostgreSQL and MySQL by a comma and a blank. */
  predicate IsSeparator(sep: string) { sep == "," || sep == ", " }

  function JsonText(tags: seq<string>, sep: string): string { "[" + Items(tags, sep) + "]" }

  /** The characters the text has outside its tags. */
  predicate Structural(c: char) { c == '"' || c == '[' || c == ']' || c == ',' || c == ' ' }

  /** The characters a tag can hold: neither structural nor special to LIKE or JSON. */
  predicate TagChar(c: char) { !Structural(c) && c != '%' && c != '\\' }

  predicate IsTag(t: string) { t != "" && forall k :: 0 <= k < |t| ==> TagChar(t[k]) }

  /** Letter case is a matter of the characters of tags: no other character is taken for another. */
  ghost predicate KeepsStructure(fold: Fold)
  {
    forall a, b :: !TagChar(a) && fold(a) == fold(b) ==> a == b
  }

  /** A search text made of tag characters without the one-character wildcard. */
  predicate Plain(s: string) { forall k :: 0 <= k < |s| ==> TagChar(s[k]) && s[k] != '_' }

  /** `c` can match no character of `lit`. */
  predicate Foreign(c: char, lit: string, fold: Fold)
  {
    forall k :: 0 <= k < |lit| ==> lit[k] != '_' && fold(lit[k]) != fold(c)
  }

  /** A character that `lit` cannot match splits the places where it can occur. */
  lemma OccursSplit(lit: string, a: string, c: char, b: string, fold: Fold)
    requires lit != "" && Foreign(c, lit, fold)
    ensures Occurs(lit, a + [c] + b, fold) <==> Occurs(lit, a, fold) || Occurs(lit, b, fold)
  {
    var s := a + [c] + b;
    if Occurs(lit, s, fold) {
      var i :| 0 <= i <= |s| && At(lit, s, i, fold);
      assert s[|a|] == c;
      forall j | i <= j < i + |lit| ensures s[j] != c {
        assert s[i + (j - i)] == s[j] && fold(lit[j - i]) != fold(c);
      }
      if i + |lit| <= |a| {
        assert At(lit, a, i, fold) by { assert forall j :: 0 <= j < |a| ==> s[j] == a[j]; }
      } else {
        assert At(lit, b, i - |a| - 1, fold) by { assert forall j :: 0 <= j < |b| ==> b[j] == s[|a| + 1 + j]; }
      }
    }
    if Occurs(lit, a, fold) {
      var i :| 0 <= i <= |a| && At(lit, a, i, fold);
      assert At(lit, s, i, fold) by { assert forall j :: 0 <= j < |a| ==> s[j] == a[j]; }
    }
    if Occurs(lit, b, fold) {
      var i :| 0 <= i <= |b| && At(lit, b, i, fold);
      assert At(lit, s, |a| + 1 + i, fold) by { assert forall j :: 0 <= j < |b| ==> s[|a| + 1 + j] == b[j]; }
    }
  }

  lemma OccursInNothing(lit: string, fold: Fold)
    requires lit != ""
    ensures !Occurs(lit, "", fold)
  {
  }

  predicate OccursInSome(lit: string, tags: seq<string>, fold: Fold)
  {
    exists k :: 0 <= k < |tags| && Occurs(lit, Quote(tags[k]), fold)
  }

  lemma {:induction false} OccursInItems(lit: string, tags: seq<string>, sep: string, fold: Fold)
    requires lit != "" && Foreign(',', lit, fold) && Foreign(' ', lit, fold) && IsSeparator(sep)
    ensures Occurs(lit, Items(tags, sep), fold) <==> OccursInSome(lit, tags, fold)
  {
    hide Occurs, Foreign;
    if tags == [] {
      OccursInNothing(lit, fold);
    } else if |tags| == 1 {
      assert OccursInSome(lit, tags, fold) <==> Occurs(lit, Quote(tags[0]), fold);
    } else {
      var rest := Items(tags[1..], sep);
      OccursInItems(lit, tags[1..], sep, fold);
      if sep == "," {
        assert Items(tags, sep) == Quote(tags[0]) + [','] + rest;
        OccursSplit(lit, Quote(tags[0]), ',', rest, fold);
      } else {
        assert Items(tags, sep) == Quote(tags[0]) + [','] + ([' '] + rest);
        OccursSplit(lit, Quote(tags[0]), ',', [' '] + rest, fold);
        assert [' '] + rest == "" + [' '] + rest;
        OccursSplit(lit, "", ' ', rest, fold);
        OccursInNothing(lit, fold);
      }
      assert OccursInSome(lit, tags, fold) <==>
               Occurs(lit, Quote(tags[0]), fold) || OccursInSome(lit, tags[1..], fold) by {
        assert forall k :: 0 < k < |tags| ==> tags[k] == tags[1..][k - 1];
        if OccursInSome(lit, tags[1..], fold) {
          var k :| 0 <= k < |tags[1..]| && Occurs(lit, Quote(tags[1..][k]), fold);
          assert tags[k + 1] == tags[1..][k];
        }
      }
    }
  }

  lemma OccursInJson(lit: string, tags: seq<string>, sep: string, fold: Fold)
    requires lit != "" && IsSeparator(sep)
    requires Foreign(',', lit, fold) && Foreign(' ', lit, fold) && Foreign('[', lit, fold) && Foreign(']', lit, fold)
    ensures Occurs(lit, JsonText(tags, sep), fold) <==> OccursInSome(lit, tags, fold)
  {
    hide Occurs, Foreign;
    var items := Items(tags, sep);
    assert JsonText(tags, sep) == ("" + ['['] + items) + [']'] + "";
    OccursSplit(lit, "" + ['['] + items, ']', "", fold);
    OccursSplit(lit, "", '[', items, fold);
    OccursInNothing(lit, fold);
    OccursInItems(lit, tags, sep, fold);
  }

  // ----- What a tag is compared with

  /** `p` stands at position `i` of `t`, up to letter case. */
  predicate Here(p: string, t: string, i: int, fold: Fold)
  {
    0 <= i <= i + |p| <= |t| && forall k :: 0 <= k < |p| ==> fold(p[k]) == fold(t[i + k])
  }

  predicate SameUpToCase(t: string, s: string, fold: Fold) { |t| == |s| && Here(s, t, 0, fold) }

  predicate StartsWith(t: string, p: string, fold: Fold) { Here(p, t, 0, fold) }

  predicate EndsWith(t: string, p: string, fold: Fold) { Here(p, t, |t| - |p|, fold) }

  predicate Has(t: string, p: string, fold: Fold) { exists i :: 0 <= i <= |t| && Here(p, t, i, fold) }

  /** Without wildcards, the two ways of standing somewhere agree. */
  lemma NoWildcards(p: string, t: string, fold: Fold)
    requires forall k :: 0 <= k < |p| ==> p[k] != '_'
    ensures forall i :: At(p, t, i, fold) <==> Here(p, t, i, fold)
    ensures Occurs(p, t, fold) <==> Has(t, p, fold)
  {
  }

  lemma PlainIsForeign(p: string, q: string, r: string, c: char, fold: Fold)
    requires Plain(p) && KeepsStructure(fold)
    requires c == '[' || c == ']' || c == ',' || c == ' '
    requires (q == "" || q == "\"") && (r == "" || r == "\"")
    ensures Foreign(c, q + p + r, fold)
  {
  }

  lemma QuoteForeign(t: string, fold: Fold)
    requires IsTag(t) && KeepsStructure(fold)
    ensures forall k :: 0 <= k < |t| ==> fold('"') != fold(t[k])
  {
  }

  /** A quote met inside `"t"` is one of the two at its ends. */
  lemma QuotesAtEnds(t: string, i: int, fold: Fold)
    requires IsTag(t) && KeepsStructure(fold)
    requires 0 <= i < |Quote(t)| && fold(Quote(t)[i]) == fold('"')
    ensures i == 0 || i == |t| + 1
  {
    QuoteForeign(t, fold);
    assert forall j :: 1 <= j <= |t| ==> Quote(t)[j] == t[j - 1];
  }

  lemma AtInside(lit: string, t: string, i: int, fold: Fold)
    requires 0 <= i && i + |lit| <= |t|
    ensures At(lit, t, i, fold) <==> At(lit, Quote(t), i + 1, fold)
  {
    assert forall j :: 0 <= j < |t| ==> Quote(t)[j + 1] == t[j];
  }

  /** `"p` occurs in `"t"` exactly when `t` starts with `p`. */
  lemma QuotedPrefix(p: string, t: string, fold: Fold)
    requires IsTag(t) && Plain(p) && KeepsStructure(fold)
    ensures Occurs("\"" + p, Quote(t), fold) <==> StartsWith(t, p, fold)
  {
    NoWildcards(p, t, fold);
    var lit, s := "\"" + p, Quote(t);
    assert forall k :: 0 <= k < |p| ==> lit[k + 1] == p[k];
    if Occurs(lit, s, fold) {
      var i :| 0 <= i <= |s| && At(lit, s, i, fold);
      assert fold(s[i + 0]) == fold(lit[0]);
      QuotesAtEnds(t, i, fold);
      if i == 0 {
        PrefixFits(p, t, fold);
        assert At(p, s, 1, fold);
        AtInside(p, t, 0, fold);
      }
    }
    if StartsWith(t, p, fold) {
      AtInside(p, t, 0, fold);
      assert At(lit, s, 0, fold);
    }
  }

  /** A text of tag characters that stands after the opening quote ends before the closing one. */
  lemma PrefixFits(p: string, t: string, fold: Fold)
    requires IsTag(t) && Plain(p) && KeepsStructure(fold)
    requires |p| <= |t| + 1 && forall k :: 0 <= k < |p| ==> fold(p[k]) == fold(Quote(t)[k + 1])
    ensures |p| <= |t|
  {
    forall j | 1 <= j <= |p| ensures Quote(t)[j] != '"' { assert fold(p[j - 1]) == fold(Quote(t)[j - 1 + 1]); }
    assert Quote(t)[|t| + 1] == '"';
  }

  /** `p"` occurs in `"t"` exactly when `t` ends with `p`. */
  lemma QuotedSuffix(p: string, t: string, fold: Fold)
    requires IsTag(t) && Plain(p) && KeepsStructure(fold)
    ensures Occurs(p + "\"", Quote(t), fold) <==> EndsWith(t, p, fold)
  {
    NoWildcards(p, t, fold);
    var lit, s := p + "\"", Quote(t);
    if Occurs(lit, s, fold) {
      var i :| 0 <= i <= |s| && At(lit, s, i, fold);
      SuffixFound(p, t, i, fold);
    }
    if EndsWith(t, p, fold) { SuffixOccurs(p, t, fold); }
  }

  lemma SuffixFound(p: string, t: string, i: int, fold: Fold)
    requires IsTag(t) && Plain(p) && KeepsStructure(fold)
    requires 0 <= i <= |Quote(t)| && At(p + "\"", Quote(t), i, fold)
    ensures |p| <= |t| && At(p, t, |t| - |p|, fold)
  {
    var lit, s := p + "\"", Quote(t);
    assert forall k :: 0 <= k < |p| ==> lit[k] == p[k];
    assert fold(s[i + |p|]) == fold(lit[|p|]);
    QuotesAtEnds(t, i + |p|, fold);
    if p != "" {
      assert fold(s[i + 0]) == fold(lit[0]);
      assert fold(p[0]) != fold('"') && s[0] == '"';
      AtInside(p, t, i - 1, fold);
      assert At(p, s, i, fold);
    }
  }

  lemma SuffixOccurs(p: string, t: string, fold: Fold)
    requires |p| <= |t| && At(p, t, |t| - |p|, fold)
    ensures Occurs(p + "\"", Quote(t), fold)
  {
    var lit, s := p + "\"", Quote(t);
    assert forall k :: 0 <= k < |p| ==> lit[k] == p[k];
    AtInside(p, t, |t| - |p|, fold);
    assert s[|t| + 1] == '"';
    assert At(lit, s, |t| - |p| + 1, fold);
  }

  /** `"p"` occurs in `"t"` exactly when `t` is `p`. */
  lemma QuotedWhole(p: string, t: string, fold: Fold)
    requires IsTag(t) && Plain(p) && KeepsStructure(fold)
    ensures Occurs(Quote(p), Quote(t), fold) <==> SameUpToCase(t, p, fold)
  {
    NoWildcards(p, t, fold);
    if Occurs(Quote(p), Quote(t), fold) {
      var i :| 0 <= i <= |Quote(t)| && At(Quote(p), Quote(t), i, fold);
      WholeFound(p, t, i, fold);
    }
    if SameUpToCase(t, p, fold) { WholeOccurs(p, t, fold); }
  }

  lemma WholeFound(p: string, t: string, i: int, fold: Fold)
    requires IsTag(t) && Plain(p) && KeepsStructure(fold)
    requires 0 <= i <= |Quote(t)| && At(Quote(p), Quote(t), i, fold)
    ensures |p| == |t| && At(p, t, 0, fold)
  {
    var lit, s := Quote(p), Quote(t);
    assert forall k :: 0 <= k < |p| ==> lit[k + 1] == p[k];
    assert fold(s[i + 0]) == fold(lit[0]) && fold(s[i + (|p| + 1)]) == fold(lit[|p| + 1]);
    QuotesAtEnds(t, i, fold);
    QuotesAtEnds(t, i + |p| + 1, fold);
    assert i == 0 && |p| == |t|;
    assert At(p, s, 1, fold);
    AtInside(p, t, 0, fold);
  }

  lemma WholeOccurs(p: string, t: string, fold: Fold)
    requires |p| == |t| && At(p, t, 0, fold)
    ensures Occurs(Quote(p), Quote(t), fold)
  {
    assert forall k :: 0 <= k < |p| ==> Quote(p)[k + 1] == p[k];
    AtInside(p, t, 0, fold);
    assert At(Quote(p), Quote(t), 0, fold);
  }

  /** A non-empty text of tag characters occurs in `"t"` exactly when it occurs in `t`. */
  lemma QuotedInfix(p: string, t: string, fold: Fold)
    requires Plain(p) && p != "" && KeepsStructure(fold)
    ensures Occurs(p, Quote(t), fold) <==> Has(t, p, fold)
  {
    NoWildcards(p, t, fold);
    assert Foreign('"', p, fold);
    assert Quote(t) == "" + ['"'] + (t + ['"'] + "");
    OccursSplit(p, "", '"', t + ['"'] + "", fold);
    OccursSplit(p, t, '"', "", fold);
    OccursInNothing(p, fold);
  }

  // ----- The patterns the renderer builds, against lists of tags

  predicate AllTags(tags: seq<string>) { forall k :: 0 <= k < |tags| ==> IsTag(tags[k]) }

  predicate SomeTagIs(tags: seq<string>, s: string, fold: Fold)
  {
    exists k :: 0 <= k < |tags| && SameUpToCase(tags[k], s, fold)
  }

  predicate SomeTagStartsWith(tags: seq<string>, p: string, fold: Fold)
  {
    exists k :: 0 <= k < |tags| && StartsWith(tags[k], p, fold)
  }

  predicate SomeTagEndsWith(tags: seq<string>, p: string, fold: Fold)
  {
    exists k :: 0 <= k < |tags| && EndsWith(tags[k], p, fold)
  }

  predicate SomeTagHas(tags: seq<string>, p: string, fold: Fold)
  {
    exists k :: 0 <= k < |tags| && Has(tags[k], p, fold)
  }

  lemma WholeTagPattern(tags: seq<string>, s: string, sep: string, fold: Fold, escapes: bool)
    requires AllTags(tags) && Plain(s) && IsSeparator(sep) && KeepsStructure(fold)
    ensures Matches("%\"" + s + "\"%", JsonText(tags, sep), fold, escapes) <==> SomeTagIs(tags, s, fold)
  {
    hide Matches, Occurs, JsonText, IsTag, SameUpToCase, Plain;
    var lit := "\"" + s + "\"";
    assert "%\"" + s + "\"%" == "%" + lit + "%";
    PlainNoPercent("\"", s, "\"", escapes);
    MatchesInfix(lit, JsonText(tags, sep), fold, escapes);
    ForeignAll("\"", s, "\"", fold);
    OccursInJson(lit, tags, sep, fold);
    forall k | 0 <= k < |tags| { QuotedWhole(s, tags[k], fold); }
    assert lit == Quote(s);
  }

  lemma TagPrefixPattern(tags: seq<string>, p: string, sep: string, fold: Fold, escapes: bool)
    requires AllTags(tags) && Plain(p) && IsSeparator(sep) && KeepsStructure(fold)
    ensures Matches("%\"" + p + "%", JsonText(tags, sep), fold, escapes) <==> SomeTagStartsWith(tags, p, fold)
  {
    hide Matches, Occurs, JsonText, IsTag, StartsWith, Plain;
    var lit := "\"" + p;
    assert "%\"" + p + "%" == "%" + lit + "%";
    assert lit == "\"" + p + "";
    PlainNoPercent("\"", p, "", escapes);
    MatchesInfix(lit, JsonText(tags, sep), fold, escapes);
    ForeignAll("\"", p, "", fold);
    OccursInJson(lit, tags, sep, fold);
    forall k | 0 <= k < |tags| { QuotedPrefix(p, tags[k], fold); }
  }

  lemma TagSuffixPattern(tags: seq<string>, p: string, sep: string, fold: Fold, escapes: bool)
    requires AllTags(tags) && Plain(p) && IsSeparator(sep) && KeepsStructure(fold)
    ensures Matches("%" + p + "\"%", JsonText(tags, sep), fold, escapes) <==> SomeTagEndsWith(tags, p, fold)
  {
    hide Matches, Occurs, JsonText, IsTag, EndsWith, Plain;
    var lit := p + "\"";
    assert "%" + p + "\"%" == "%" + lit + "%";
    assert lit == "" + p + "\"";
    PlainNoPercent("", p, "\"", escapes);
    MatchesInfix(lit, JsonText(tags, sep), fold, escapes);
    ForeignAll("", p, "\"", fold);
    OccursInJson(lit, tags, sep, fold);
    forall k | 0 <= k < |tags| { QuotedSuffix(p, tags[k], fold); }
  }

  /** The empty text occurs in every JSON text, so the list must be known not to be empty. */
  lemma TagInfixPattern(tags: seq<string>, p: string, sep: string, fold: Fold, escapes: bool)
    requires tags != [] && Plain(p) && IsSeparator(sep) && KeepsStructure(fold)
    ensures Matches("%" + p + "%", JsonText(tags, sep), fold, escapes) <==> SomeTagHas(tags, p, fold)
  {
    hide Matches, JsonText;
    assert p == "" + p + "";
    PlainNoPercent("", p, "", escapes);
    MatchesInfix(p, JsonText(tags, sep), fold, escapes);
    if p == "" {
      assert At(p, JsonText(tags, sep), 0, fold) && Here(p, tags[0], 0, fold);
      assert Has(tags[0], p, fold);
    } else {
      hide Occurs, Plain;
      ForeignAll("", p, "", fold);
      OccursInJson(p, tags, sep, fold);
      forall k | 0 <= k < |tags| { QuotedInfix(p, tags[k], fold); }
    }
  }

  lemma PlainNoPercent(q: string, p: string, r: string, escapes: bool)
    requires Plain(p) && (q == "" || q == "\"") && (r == "" || r == "\"")
    ensures NoPercent(q + p + r, escapes)
  {
    forall c | c in q + p + r ensures c != '%' && c != '\\' {
      if c in p { var k :| 0 <= k < |p| && p[k] == c; }
    }
  }

  lemma ForeignAll(q: string, p: string, r: string, fold: Fold)
    requires Plain(p) && KeepsStructure(fold)
    requires (q == "" || q == "\"") && (r == "" || r == "\"")
    ensures forall c :: c == '[' || c == ']' || c == ',' || c == ' ' ==> Foreign(c, q + p + r, fold)
  {
    forall c | c == '[' || c == ']' || c == ',' || c == ' ' { PlainIsForeign(p, q, r, c, fold); }
  }

  // ----- With wildcards: every tag that fits still matches

  /** A pattern matches what it says literally, whatever its wildcards can match besides. */
  lemma {:induction false} LiteralMatches(p: string, rest: string, text: string, fold: Fold, escapes: bool)
    requires NoEscape(p, escapes) && Here(p, text, 0, fold)
    requires Matches(rest, text[|p|..], fold, escapes)
    ensures Matches(p + rest, text, fold, escapes)
    decreases |p|
  {
    if p == "" {
      assert p + rest == rest && text[0..] == text;
    } else {
      assert (p + rest)[1..] == p[1..] + rest && text[1..][|p| - 1..] == text[|p|..];
      assert fold(p[0]) == fold(text[0 + 0]);
      forall k | 0 <= k < |p[1..]| ensures fold(p[1..][k]) == fold(text[1..][0 + k]) {
        assert p[1..][k] == p[k + 1] && text[1..][0 + k] == text[0 + (k + 1)];
      }
      LiteralMatches(p[1..], rest, text[1..], fold, escapes);
    }
  }

  lemma {:induction false} PercentSkips(rest: string, a: string, b: string, fold: Fold, escapes: bool)
    requires Matches("%" + rest, b, fold, escapes)
    ensures Matches("%" + rest, a + b, fold, escapes)
    decreases |a|
  {
    if a == "" {
      assert a + b == b;
    } else {
      assert (a + b)[1..] == a[1..] + b;
      PercentSkips(rest, a[1..], b, fold, escapes);
    }
  }

  /** What stands somewhere in a text is found there. */
  lemma HereIsFound(p: string, text: string, i: int, fold: Fold, escapes: bool)
    requires NoEscape(p, escapes) && Here(p, text, i, fold)
    ensures Matches("%" + p + "%", text, fold, escapes)
  {
    hide NoEscape;
    var a, b := text[..i], text[i..];
    assert text == a + b;
    assert Here(p, b, 0, fold) by { assert forall k :: 0 <= k < |b| ==> b[k] == text[i..][k]; }
    PercentMatchesAll(b[|p|..], fold, escapes);
    LiteralMatches(p, "%", b, fold, escapes);
    assert "%" + p + "%" == "%" + (p + "%") && ("%" + (p + "%"))[1..] == p + "%";
    PercentSkips(p + "%", a, b, fold, escapes);
  }

  /** A search text with wildcards loses no tag it should find. */
  lemma TrueCasesMatch(tags: seq<string>, k: nat, p: string, sep: string, fold: Fold, escapes: bool)
    requires k < |tags| && NoEscape(p, escapes)
    ensures SameUpToCase(tags[k], p, fold) ==> Matches("%\"" + p + "\"%", JsonText(tags, sep), fold, escapes)
    ensures StartsWith(tags[k], p, fold) ==> Matches("%\"" + p + "%", JsonText(tags, sep), fold, escapes)
    ensures EndsWith(tags[k], p, fold) ==> Matches("%" + p + "\"%", JsonText(tags, sep), fold, escapes)
    ensures Has(tags[k], p, fold) ==> Matches("%" + p + "%", JsonText(tags, sep), fold, escapes)
  {
    hide Matches, JsonText, Here;
    var text, t := JsonText(tags, sep), tags[k];
    var a, b := Surroundings(tags, k, sep);
    assert "%\"" + p + "\"%" == "%" + ("\"" + p + "\"") + "%";
    assert "%\"" + p + "%" == "%" + ("\"" + p) + "%";
    assert "%" + p + "\"%" == "%" + (p + "\"") + "%";
    if SameUpToCase(t, p, fold) {
      Quoted(p, t, 0, a, b, true, true, fold);
      HereIsFound("\"" + p + "\"", text, |a|, fold, escapes);
    }
    if StartsWith(t, p, fold) {
      Quoted(p, t, 0, a, b, true, false, fold);
      HereIsFound("\"" + p, text, |a|, fold, escapes);
    }
    if EndsWith(t, p, fold) {
      Quoted(p, t, |t| - |p|, a, b, false, true, fold);
      HereIsFound(p + "\"", text, |a| + 1 + |t| - |p|, fold, escapes);
    }
    if Has(t, p, fold) {
      var i :| 0 <= i <= |t| && Here(p, t, i, fold);
      Quoted(p, t, i, a, b, false, false, fold);
      HereIsFound(p, text, |a| + 1 + i, fold, escapes);
    }
  }

  /** A text that stands in a tag stands in the JSON text, together with the quotes it touches. */
  lemma Quoted(p: string, t: string, i: int, a: string, b: string, left: bool, right: bool, fold: Fold)
    requires Here(p, t, i, fold) && (left ==> i == 0) && (right ==> i == |t| - |p|)
    ensures left && right ==> Here("\"" + p + "\"", a + Quote(t) + b, |a|, fold)
    ensures left && !right ==> Here("\"" + p, a + Quote(t) + b, |a|, fold)
    ensures !left && right ==> Here(p + "\"", a + Quote(t) + b, |a| + 1 + i, fold)
    ensures !left && !right ==> Here(p, a + Quote(t) + b, |a| + 1 + i, fold)
  {
    var text := a + Quote(t) + b;
    assert text[|a|] == '"' && text[|a| + 1 + |t|] == '"';
    assert forall j :: |a| < j <= |a| + |t| ==> text[j] == t[j - |a| - 1];
  }

  lemma AddQuotes(p: string, escapes: bool)
    requires NoPercent(p, escapes)
    ensures NoPercent("\"" + p + "\"", escapes) && NoPercent("\"" + p, escapes) && NoPercent(p + "\"", escapes)
  {
  }

  /** A text that stands between quotes stands there together with them. */
  lemma WithQuotes(p: string, s: string, i: int, left: bool, right: bool, fold: Fold)
    requires At(p, s, i, fold)
    requires left ==> i >= 1 && s[i - 1] == '"'
    requires right ==> i + |p| < |s| && s[i + |p|] == '"'
    ensures Occurs((if left then "\"" else "") + p + (if right then "\"" else ""), s, fold)
    ensures left && !right ==> Occurs("\"" + p, s, fold)
    ensures !left && right ==> Occurs(p + "\"", s, fold)
    ensures !left && !right ==> Occurs(p, s, fold)
  {
    var lit := (if left then "\"" else "") + p + (if right then "\"" else "");
    assert At(lit, s, if left then i - 1 else i, fold);
    assert left && !right ==> lit == "\"" + p;
    assert !left && right ==> lit == p + "\"";
    assert !left && !right ==> lit == p;
  }

  lemma OccursInside(lit: string, a: string, m: string, b: string, fold: Fold)
    ensures Occurs(lit, m, fold) ==> Occurs(lit, a + m + b, fold)
  {
    if Occurs(lit, m, fold) {
      var i :| 0 <= i <= |m| && At(lit, m, i, fold);
      assert forall j :: 0 <= j < |m| ==> (a + m + b)[|a| + j] == m[j];
      assert At(lit, a + m + b, |a| + i, fold);
    }
  }

  /** The text around the `k`-th tag. */
  lemma {:induction false} Surroundings(tags: seq<string>, k: nat, sep: string) returns (a: string, b: string)
    requires k < |tags|
    ensures JsonText(tags, sep) == a + Quote(tags[k]) + b
  {
    var x, y := AroundItem(tags, k, sep);
    a, b := "[" + x, y + "]";
  }

  lemma {:induction false} AroundItem(tags: seq<string>, k: nat, sep: string) returns (a: string, b: string)
    requires k < |tags|
    ensures Items(tags, sep) == a + Quote(tags[k]) + b
  {
    if |tags| == 1 {
      a, b := "", "";
    } else if k == 0 {
      a, b := "", sep + Items(tags[1..], sep);
    } else {
      var x, y := AroundItem(tags[1..], k - 1, sep);
      a, b := Quote(tags[0]) + sep + x, y;
    }
  }

  /** A text that occurs, occurs without its end. */
  lemma ShorterOccurs(p: string, q: string, text: string, fold: Fold)
    ensures Occurs(p + q, text, fold) ==> Occurs(p, text, fold)
  {
    if Occurs(p + q, text, fold) {
      var i :| 0 <= i <= |text| && At(p + q, text, i, fold);
      assert forall k :: 0 <= k < |p| ==> (p + q)[k] == p[k];
      assert At(p, text, i, fold);
    }
  }

  // ----- With wildcards: what is found besides

  /** A text that a pattern matches, with an x for every wildcard. A backslash at the end escapes the
      percent sign that follows the searched text. */
  function Filling(p: string, escapes: bool): string
  {
    if p == "" then ""
    else if p[0] == '%' || p[0] == '_' then "x" + Filling(p[1..], escapes)
    else if escapes && p[0] == '\\' then
      if |p| == 1 then "%" else [p[1]] + Filling(p[2..], escapes)
    else [p[0]] + Filling(p[1..], escapes)
  }

  lemma {:induction false} FillingMatches(p: string, fold: Fold, escapes: bool)
    ensures Matches(p + "%", Filling(p, escapes), fold, escapes)
    decreases |p|
  {
    var pattern, text := p + "%", Filling(p, escapes);
    if p == "" {
      assert pattern == "%";
      PercentMatchesAll("", fold, escapes);
    } else if escapes && p[0] == '\\' {
      if |p| == 1 {
        assert pattern[1] == '%' && pattern[2..] == "";
      } else {
        assert pattern[1] == p[1] && pattern[2..] == p[2..] + "%" && text[1..] == Filling(p[2..], escapes);
        FillingMatches(p[2..], fold, escapes);
      }
    } else {
      assert pattern[1..] == p[1..] + "%" && text[1..] == Filling(p[1..], escapes);
      FillingMatches(p[1..], fold, escapes);
      if p[0] == '%' {
        assert pattern == "%" + (p[1..] + "%");
        OneSkipped(p[1..] + "%", text, fold, escapes);
      }
    }
  }

  lemma OneSkipped(rest: string, text: string, fold: Fold, escapes: bool)
    requires text != "" && Matches(rest, text[1..], fold, escapes)
    ensures Matches("%" + rest, text, fold, escapes)
  {
    assert ("%" + rest)[1..] == rest;
    assert Matches("%" + rest, text[1..], fold, escapes);
  }

  /** Letter case leaves an x, a percent sign and what LIKE treats specially apart. */
  ghost predicate TellsApart(fold: Fold)
  {
    fold('x') != fold('%') && fold('x') != fold('_') && fold('\\') != fold('%')
  }

  /** Filling in a special character gives a shorter text or another one. */
  lemma {:induction false} FillingDiffers(p: string, fold: Fold, escapes: bool)
    requires TellsApart(fold)
    ensures |Filling(p, escapes)| <= |p|
    ensures (!NoPercent(p, escapes) || '_' in p) ==> !SameUpToCase(Filling(p, escapes), p, fold)
    decreases |p|
  {
    var text := Filling(p, escapes);
    if p != "" {
      assert p == [p[0]] + p[1..];
      if escapes && p[0] == '\\' {
        if |p| > 1 { FillingDiffers(p[2..], fold, escapes); } else { assert fold(p[0]) != fold(text[0 + 0]); }
      } else {
        FillingDiffers(p[1..], fold, escapes);
        if SameUpToCase(text, p, fold) {
          assert fold(p[0]) == fold(text[0 + 0]);
          assert text[1..] == Filling(p[1..], escapes);
          forall k | 0 <= k < |p[1..]| ensures fold(p[1..][k]) == fold(text[1..][0 + k]) {
            assert p[1..][k] == p[k + 1] && text[1..][0 + k] == text[0 + (k + 1)];
          }
          assert SameUpToCase(text[1..], p[1..], fold);
        }
      }
    }
  }

  /** A search by LIKE finds exactly the texts that have the searched one, for every text it is asked
      of, if and only if the searched text has no character that LIKE treats specially. */
  lemma SearchIsExact(p: string, fold: Fold, escapes: bool)
    requires TellsApart(fold)
    ensures (forall text :: Matches("%" + p + "%", text, fold, escapes) <==> Has(text, p, fold)) <==>
              NoPercent(p, escapes) && '_' !in p
  {
    hide Matches, NoPercent, Has;
    if NoPercent(p, escapes) && '_' !in p {
      forall text ensures Matches("%" + p + "%", text, fold, escapes) <==> Has(text, p, fold) {
        SafeSearch(p, text, fold, escapes);
      }
    } else {
      var text := Filling(p, escapes);
      FoundBesides(p, fold, escapes);
    }
  }

  lemma SafeSearch(p: string, text: string, fold: Fold, escapes: bool)
    requires NoPercent(p, escapes) && '_' !in p
    ensures Matches("%" + p + "%", text, fold, escapes) <==> Has(text, p, fold)
  {
    hide Matches;
    MatchesInfix(p, text, fold, escapes);
    assert forall k :: 0 <= k < |p| ==> p[k] in p;
    NoWildcards(p, text, fold);
  }

  lemma FoundBesides(p: string, fold: Fold, escapes: bool)
    requires TellsApart(fold) && (!NoPercent(p, escapes) || '_' in p)
    ensures var text := Filling(p, escapes);
            Matches("%" + p + "%", text, fold, escapes) && !Has(text, p, fold)
  {
    hide NoPercent, Filling;
    var text := Filling(p, escapes);
    FillingMatches(p, fold, escapes);
    assert "%" + p + "%" == "%" + (p + "%") && ("%" + (p + "%"))[1..] == p + "%";
    FillingDiffers(p, fold, escapes);
  }

  predicate TagText(p: string) { forall k :: 0 <= k < |p| ==> TagChar(p[k]) }

  /** A tag that fits a text of tag characters, with an x for every `_`. */
  function Filled(p: string): string { seq(|p|, k requires 0 <= k < |p| => if p[k] == '_' then 'x' else p[k]) }

  lemma FilledFits(p: string, fold: Fold)
    requires TagText(p) && '_' in p
    ensures IsTag(Filled(p)) && At(p, Filled(p), 0, fold)
    ensures fold('x') != fold('_') ==> !Has(Filled(p), p, fold) && p != Filled(p)
  {
    FilledIsTag(p);
    hide IsTag, TagText;
    var k :| 0 <= k < |p| && p[k] == '_';
    FilledAt(p, Filled(p), fold);
    if fold('x') != fold('_') { FilledDiffers(p, Filled(p), k, fold); }
  }

  lemma FilledAt(p: string, t: string, fold: Fold)
    requires |t| == |p| && forall k :: 0 <= k < |p| ==> p[k] == '_' || t[k] == p[k]
    ensures At(p, t, 0, fold)
  {
    forall k | 0 <= k < |p| ensures p[k] == '_' || fold(p[k]) == fold(t[0 + k]) {
      assert t[0 + k] == t[k];
    }
  }

  lemma FilledDiffers(p: string, t: string, k: nat, fold: Fold)
    requires |t| == |p| && k < |p| && fold(t[k]) != fold(p[k])
    ensures !Has(t, p, fold) && p != t
  {
    assert t[0 + k] == t[k];
  }

  lemma FilledIsTag(p: string)
    requires TagText(p) && p != ""
    ensures IsTag(Filled(p))
  {
    var t := Filled(p);
    assert TagChar('x');
    forall k | 0 <= k < |t| ensures TagChar(t[k]) { assert TagChar(p[k]); }
  }

  /** What fits a tag is found in the JSON text of its list. */
  lemma FilledOccurs(p: string, t: string, sep: string, fold: Fold)
    requires At(p, t, 0, fold) && |p| == |t|
    ensures var text := JsonText([t], sep);
            && Occurs("\"" + p + "\"", text, fold) && Occurs("\"" + p, text, fold)
            && Occurs(p + "\"", text, fold) && Occurs(p, text, fold)
  {
    hide At, Occurs;
    AtInside(p, t, 0, fold);
    WithQuotes(p, Quote(t), 1, true, true, fold);
    WithQuotes(p, Quote(t), 1, true, false, fold);
    WithQuotes(p, Quote(t), 1, false, true, fold);
    WithQuotes(p, Quote(t), 1, false, false, fold);
    assert JsonText([t], sep) == "[" + Quote(t) + "]";
    OccursInside("\"" + p + "\"", "[", Quote(t), "]", fold);
    OccursInside("\"" + p, "[", Quote(t), "]", fold);
    OccursInside(p + "\"", "[", Quote(t), "]", fold);
    OccursInside(p, "[", Quote(t), "]", fold);
  }

  /** `_` stands for a letter of another tag, and for the quote that ends one. */
  lemma UnderscoreOccurs(sep: string, fold: Fold)
    ensures Occurs("\"a_b", JsonText(["axb"], sep), fold) && Occurs("a_", JsonText(["a"], sep), fold)
  {
    var s, t := JsonText(["axb"], sep), JsonText(["a"], sep);
    assert s == "[" + (Quote("axb") + "]") && t == "[" + (Quote("a") + "]");
    assert s[1] == '"' && s[2] == 'a' && s[4] == 'b' && t[2] == 'a';
    assert At("\"a_b", s, 1, fold);
    assert At("a_", t, 2, fold);
  }

  lemma CommaOccurs(sep: string, fold: Fold)
    requires IsSeparator(sep)
    ensures Occurs(",", JsonText(["a", "b"], sep), fold)
  {
    var text := JsonText(["a", "b"], sep);
    assert ["a", "b"][1..] == ["b"];
    assert Items(["a", "b"], sep) == Quote("a") + sep + Quote("b");
    assert text == ("[" + Quote("a")) + (sep + Quote("b") + "]") && |"[" + Quote("a")| == 4;
    assert text[4 + 0] == ',';
    assert At(",", text, 4, fold);
  }
}
