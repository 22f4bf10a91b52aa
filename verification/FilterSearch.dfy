/** What the searches in texts and tag lists find: when it is what they were asked for, exactly, and
    what they find besides. */
module FilterSearch {
  import opened Wrappers
  import opened FilterSchema
  import opened FilterRows
  import opened Cel
  import opened Sql
  import opened FilterFold
  import Like
  import TagLists

  predicate ValueFits(v: Val, kind: FieldKind)
  {
    match kind
    case Scalar => v.VNull? || v.VInt? || v.VStr?
    case BoolColumn => v.VNull? || v.VBool?
    case JSONBool => v.VNull? || v.VBool?
    case JSONList => v.VNull? || (v.VList? && Like.AllTags(v.l))
    case VirtualAlias => true
  }

  predicate Escapes(d: Dialect) { d != SQLite }

  // ----- Searches in a text column

  /** No character of the text is special to the dialect's LIKE. */
  predicate LikeSafe(s: string, d: Dialect) { Like.NoPercent(s, Escapes(d)) && '_' !in s }

  /** What a search in a text is asked for. */
  function Asked(v: Val, text: string, coll: Collation): Truth
  {
    match v case VStr(s) => Of(Like.Has(s, text, coll.text)) case _ => Unknown
  }

  lemma ContainsMeaning(n: string, text: string, schema: Schema, row: Row, d: Dialect, coll: Collation)
    requires n in schema && schema[n].kind == Scalar && ValueFits(Stored(row, schema[n]), Scalar) && LikeSafe(text, d)
    ensures Eval(ContainsTree(n, text, schema, d).value, row, d, coll) == Asked(Stored(row, schema[n]), text, coll)
  {
    hide Like.Matches, LikeSafe;
    var v := Stored(row, schema[n]);
    if v.VStr? { SafeText(text, v.s, d, coll.text); }
  }

  lemma SafeText(text: string, s: string, d: Dialect, fold: Like.Fold)
    requires LikeSafe(text, d)
    ensures Like.Matches("%" + text + "%", s, fold, Escapes(d)) <==> Like.Has(s, text, fold)
  {
    Like.SafeSearch(text, s, fold, Escapes(d));
  }

  function WithText(c: Column, s: string): Row { Row(map[c := VStr(s)], map[]) }

  /** A search in a text column is right on every row if and only if the searched text has no character
      that the dialect's LIKE treats specially. */
  lemma ContainsExactly(n: string, text: string, schema: Schema, d: Dialect, coll: Collation)
    requires n in schema && schema[n].kind == Scalar && Like.TellsApart(coll.text)
    ensures (forall row :: ValueFits(Stored(row, schema[n]), Scalar) ==>
               Eval(ContainsTree(n, text, schema, d).value, row, d, coll) == Asked(Stored(row, schema[n]), text, coll))
            <==> LikeSafe(text, d)
  {
    hide Eval, Asked, Like.TellsApart;
    if LikeSafe(text, d) {
      forall row | ValueFits(Stored(row, schema[n]), Scalar)
        ensures Eval(ContainsTree(n, text, schema, d).value, row, d, coll) == Asked(Stored(row, schema[n]), text, coll)
      {
        ContainsMeaning(n, text, schema, row, d, coll);
      }
    } else {
      var row := WithText(schema[n].column, Like.Filling(text, Escapes(d)));
      FoundWrongly(n, text, schema, d, coll);
    }
  }

  /** The text with an x for every wildcard is found and does not have the searched text. */
  lemma FoundWrongly(n: string, text: string, schema: Schema, d: Dialect, coll: Collation)
    requires n in schema && schema[n].kind == Scalar && Like.TellsApart(coll.text) && !LikeSafe(text, d)
    ensures var row := WithText(schema[n].column, Like.Filling(text, Escapes(d)));
            && ValueFits(Stored(row, schema[n]), Scalar)
            && Eval(ContainsTree(n, text, schema, d).value, row, d, coll) == True
            && Asked(Stored(row, schema[n]), text, coll) == False
  {
    hide Like.Matches, Like.Has, Like.NoPercent, Like.Filling, Like.TellsApart;
    Like.FoundBesides(text, coll.text, Escapes(d));
  }

  /** A search for `50%` finds the text 50, and where LIKE escapes, one for `a\b` does not find `a\b`. */
  lemma PercentFindsOthers(n: string, schema: Schema, d: Dialect)
    requires n in schema && schema[n].kind == Scalar
    ensures var coll := Collation(c => c, c => c);
            var fifty, path := WithText(schema[n].column, "50"), WithText(schema[n].column, "a\\b");
            && Eval(ContainsTree(n, "50%", schema, d).value, fifty, d, coll) == True
            && Asked(Stored(fifty, schema[n]), "50%", coll) == False
            && (Eval(ContainsTree(n, "a\\b", schema, d).value, path, d, coll) == True <==> d == SQLite)
            && Asked(Stored(path, schema[n]), "a\\b", coll) == True
  {
    hide Like.Matches, Like.Has;
    var coll := Collation(c => c, c => c);
    FiftyIsFound(coll.text, Escapes(d));
    PathIsFound(coll.text, Escapes(d));
    assert "%" + "50%" + "%" == "%50%%" && "%" + "a\\b" + "%" == "%a\\b%";
  }

  lemma FiftyIsFound(fold: Like.Fold, escapes: bool)
    ensures Like.Matches("%50%%", "50", fold, escapes) && !Like.Has("50", "50%", fold)
  {
    assert "50%%"[1..] == "0%%" && "0%%"[1..] == "%%" && "%%"[1..] == "%" && "50"[1..] == "0" && "0"[1..] == "";
    Like.PercentMatchesAll("", fold, escapes);
    assert Like.Matches("0%%", "0", fold, escapes);
    assert Like.Matches("50%%", "50", fold, escapes);
    assert "%50%%"[1..] == "50%%";
  }

  lemma PathIsFound(fold: Like.Fold, escapes: bool)
    requires forall c :: fold(c) == c
    ensures Like.Matches("%a\\b%", "a\\b", fold, escapes) <==> !escapes
    ensures Like.Has("a\\b", "a\\b", fold)
  {
    var p := "a\\b";
    assert Like.Here(p, p, 0, fold);
    assert "%" + p + "%" == "%a\\b%" && "%" + "a\\b%" == "%a\\b%";
    if !escapes {
      Like.HereIsFound(p, p, 0, fold, escapes);
    } else {
      PathIsLost(fold);
    }
  }

  lemma PathIsLost(fold: Like.Fold)
    requires forall c :: fold(c) == c
    ensures !Like.Matches("%a\\b%", "a\\b", fold, true)
  {
    var q, u := "a\\b%", "a\\b";
    assert q[1..][1] == 'b' && u[1..][0] == '\\' && !Like.Matches(q, u, fold, true);
    assert u[1..][1..] == "b" && u[1..][1..][1..] == "";
    assert !Like.Matches(q, u[1..], fold, true);
    assert !Like.Matches(q, "b", fold, true) && !Like.Matches(q, "", fold, true);
    Like.InfixStep("a\\b", u, fold, true);
    Like.InfixStep("a\\b", u[1..], fold, true);
    Like.InfixStep("a\\b", "b", fold, true);
    Like.InfixStep("a\\b", "", fold, true);
    assert "a\\b" + "%" == q;
  }

  // ----- Searches in a list of tags

  function ExactPattern(s: string): string { "%\"" + s + "\"%" }

  function PrefixPattern(s: string): string { "%\"" + s + "%" }

  /** The pattern matches the JSON text of some list of tags. */
  predicate Finds(pattern: string, d: Dialect)
  {
    TagLists.CanMatch(pattern, TagLists.Begin, Escapes(d), Separator(d))
  }

  /** A search made of patterns is right when the searched text can be one of tags and has no wildcard,
      or when it cannot and none of the patterns finds any list. */
  predicate RightSearch(s: string, patterns: seq<string>, d: Dialect)
  {
    if Like.TagText(s) then '_' !in s
    else forall k :: 0 <= k < |patterns| ==> !Finds(patterns[k], d)
  }

  /** A text with a character that no tag holds has nothing to do with any tag. */
  lemma NothingInTag(t: string, s: string, fold: Like.Fold)
    requires Like.IsTag(t) && !Like.TagText(s) && Like.KeepsStructure(fold)
    ensures !Like.Has(t, s, fold) && t != s
    ensures !Like.StartsWith(t, s, fold) && !Like.EndsWith(t, s, fold) && !Like.SameUpToCase(t, s, fold)
  {
    var k :| 0 <= k < |s| && !Like.TagChar(s[k]);
    forall i ensures !Like.Here(s, t, i, fold) {
      if 0 <= i <= i + |s| <= |t| {
        assert Like.TagChar(t[i + k]);
        assert fold(s[k]) != fold(t[i + k]);
      }
    }
  }

  lemma NotFound(pattern: string, tags: seq<string>, d: Dialect, fold: Like.Fold)
    requires !Finds(pattern, d) && Like.AllTags(tags) && tags != [] && Like.KeepsStructure(fold)
    ensures !Like.Matches(pattern, Like.JsonText(tags, Separator(d)), fold, Escapes(d))
  {
    hide Like.Matches, Like.JsonText, Like.KeepsStructure, TagLists.CanMatch;
    TagLists.ScanDecides(pattern, fold, Escapes(d), Separator(d));
  }

  lemma FoundIn(pattern: string, d: Dialect, fold: Like.Fold) returns (tags: seq<string>)
    requires Finds(pattern, d) && Like.KeepsStructure(fold)
    ensures Like.AllTags(tags) && tags != []
    ensures Like.Matches(pattern, Like.JsonText(tags, Separator(d)), fold, Escapes(d))
  {
    hide Like.Matches, Like.JsonText, Like.KeepsStructure, TagLists.CanMatch;
    TagLists.ScanDecides(pattern, fold, Escapes(d), Separator(d));
    tags :| Like.AllTags(tags) && tags != []
            && Like.Matches(pattern, Like.JsonText(tags, Separator(d)), fold, Escapes(d));
  }

  /** The text of the empty list has no quote. */
  lemma NotInEmpty(rest: string, d: Dialect, fold: Like.Fold)
    requires Like.KeepsStructure(fold)
    ensures !Like.Matches("%\"" + rest, Like.JsonText([], Separator(d)), fold, Escapes(d))
  {
    var p, text := "%\"" + rest, Like.JsonText([], Separator(d));
    assert text == "[]" && text[1..] == "]" && text[1..][1..] == "";
    assert p[1..][0] == '"' && !Like.TagChar('"');
    assert !Like.Matches(p, "", fold, Escapes(d));
    assert !Like.Matches(p, "]", fold, Escapes(d)) by { assert "]"[1..] == ""; }
  }

  lemma QuotedNotFound(s: string, tags: seq<string>, d: Dialect, fold: Like.Fold)
    requires Like.AllTags(tags) && Like.KeepsStructure(fold)
    ensures !Finds(ExactPattern(s), d) ==>
              !Like.Matches(ExactPattern(s), Like.JsonText(tags, Separator(d)), fold, Escapes(d))
    ensures !Finds(PrefixPattern(s), d) ==>
              !Like.Matches(PrefixPattern(s), Like.JsonText(tags, Separator(d)), fold, Escapes(d))
  {
    hide Like.Matches, Like.JsonText, Finds, Like.KeepsStructure;
    if tags == [] {
      NotInEmpty(s + "\"%", d, fold);
      NotInEmpty(s + "%", d, fold);
      assert ExactPattern(s) == "%\"" + (s + "\"%") && PrefixPattern(s) == "%\"" + (s + "%");
    } else {
      if !Finds(ExactPattern(s), d) { NotFound(ExactPattern(s), tags, d, fold); }
      if !Finds(PrefixPattern(s), d) { NotFound(PrefixPattern(s), tags, d, fold); }
    }
  }

  lemma TagTextIsPlain(s: string)
    requires Like.TagText(s) && '_' !in s
    ensures Like.Plain(s)
  {
  }

  /** The exact test of a tag: LIKE with quotes in SQLite, membership of the JSON text elsewhere. */
  function ExactLeaf(x: Operand, s: string, d: Dialect): Leaf<Val>
  {
    if d == SQLite then LikePattern(x, VStr(ExactPattern(s)), false) else HasElement(x, VStr("\"" + s + "\""))
  }

  predicate RightElement(s: string, d: Dialect) { d == SQLite ==> RightSearch(s, [ExactPattern(s)], d) }

  predicate TagAmong(tags: seq<string>, s: string, d: Dialect, coll: Collation)
  {
    if d == SQLite then Like.SomeTagIs(tags, s, coll.json) else s in tags
  }

  lemma HasElementMeaning(x: Operand, s: string, row: Row, d: Dialect, coll: Collation)
    requires EvalOperand(x, row).VList?
    ensures EvalLeaf(HasElement(x, VStr("\"" + s + "\"")), row, d, coll) == Of(s in EvalOperand(x, row).l)
  {
    var tags := EvalOperand(x, row).l;
    forall k | 0 <= k < |tags| ensures Like.Quote(tags[k]) == "\"" + s + "\"" <==> tags[k] == s {
      if Like.Quote(tags[k]) == "\"" + s + "\"" { assert Like.Quote(tags[k])[1..|tags[k]| + 1] == tags[k]; }
    }
  }

  /** LIKE with quotes on both sides. */
  lemma WholeMeaning(s: string, tags: seq<string>, d: Dialect, fold: Like.Fold)
    requires RightSearch(s, [ExactPattern(s)], d) && Like.AllTags(tags) && Like.KeepsStructure(fold)
    ensures Like.Matches(ExactPattern(s), Like.JsonText(tags, Separator(d)), fold, Escapes(d)) <==>
              Like.SomeTagIs(tags, s, fold)
  {
    hide Like.Matches, Like.JsonText, Like.TagText, Like.IsTag, Like.SameUpToCase, Finds, Like.KeepsStructure;
    if Like.TagText(s) {
      TagTextIsPlain(s);
      Like.WholeTagPattern(tags, s, Separator(d), fold, Escapes(d));
    } else {
      assert [ExactPattern(s)][0] == ExactPattern(s) && [PrefixPattern(s)][0] == PrefixPattern(s);
      QuotedNotFound(s, tags, d, fold);
      forall k | 0 <= k < |tags| { NothingInTag(tags[k], s, fold); }
    }
  }

  /** LIKE with a quote before. */
  lemma PrefixMeaning(s: string, tags: seq<string>, d: Dialect, fold: Like.Fold)
    requires RightSearch(s, [PrefixPattern(s)], d) && Like.AllTags(tags) && Like.KeepsStructure(fold)
    ensures Like.Matches(PrefixPattern(s), Like.JsonText(tags, Separator(d)), fold, Escapes(d)) <==>
              Like.SomeTagStartsWith(tags, s, fold)
  {
    hide Like.Matches, Like.JsonText, Like.TagText, Like.IsTag, Like.StartsWith, Finds, Like.KeepsStructure;
    if Like.TagText(s) {
      TagTextIsPlain(s);
      Like.TagPrefixPattern(tags, s, Separator(d), fold, Escapes(d));
    } else {
      assert [ExactPattern(s)][0] == ExactPattern(s) && [PrefixPattern(s)][0] == PrefixPattern(s);
      QuotedNotFound(s, tags, d, fold);
      forall k | 0 <= k < |tags| { NothingInTag(tags[k], s, fold); }
    }
  }

  lemma ExactMeaning(x: Operand, s: string, row: Row, d: Dialect, coll: Collation)
    requires x.JsonOp? && ValueFits(EvalOperand(x, row), JSONList)
    requires RightElement(s, d) && Like.KeepsStructure(coll.json)
    ensures var v := EvalOperand(x, row);
            EvalLeaf(ExactLeaf(x, s, d), row, d, coll) == if v.VNull? then Unknown else Of(TagAmong(v.l, s, d, coll))
  {
    hide Like.Matches, Like.JsonText, Like.AllTags, Like.SomeTagIs, RightSearch;
    var v := EvalOperand(x, row);
    if v.VList? {
      HasElementMeaning(x, s, row, d, coll);
      if d == SQLite { WholeMeaning(s, v.l, d, coll.json); }
    }
  }

  lemma EvalPair(a: Leaf<Val>, b: Leaf<Val>, row: Row, d: Dialect, coll: Collation)
    ensures Eval(TOr([TLeaf(a), TLeaf(b)]), row, d, coll) == Or3(EvalLeaf(a, row, d, coll), EvalLeaf(b, row, d, coll))
  {
    hide EvalLeaf;
    var ts := EvalAll([TLeaf(a), TLeaf(b)], row, d, coll);
    assert ts == [EvalLeaf(a, row, d, coll), EvalLeaf(b, row, d, coll)];
    assert ts[1..] == [EvalLeaf(b, row, d, coll)] && ts[1..][1..] == [];
    assert Or3All(ts[1..]) == Or3(ts[1], Or3All([]));
  }

  // ----- One listed tag

  function ListedPatterns(s: string, d: Dialect): seq<string>
  {
    (if d == SQLite then [ExactPattern(s)] else []) + [PrefixPattern(s + "/")]
  }

  predicate RightListed(s: string, d: Dialect) { RightSearch(s, ListedPatterns(s, d), d) }

  lemma ListedPieces(s: string, d: Dialect)
    requires RightListed(s, d)
    ensures RightElement(s, d) && RightSearch(s + "/", [PrefixPattern(s + "/")], d)
  {
    hide Finds, Like.TagChar;
    SlashIsTag(s);
    var patterns := ListedPatterns(s, d);
    if !Like.TagText(s) {
      assert patterns[|patterns| - 1] == PrefixPattern(s + "/");
      if d == SQLite { assert patterns[0] == ExactPattern(s); }
    }
  }

  lemma SlashIsTag(s: string)
    ensures Like.TagText(s + "/") <==> Like.TagText(s)
    ensures '_' in s + "/" <==> '_' in s
  {
    assert Like.TagChar('/');
    if Like.TagText(s + "/") {
      forall k | 0 <= k < |s| ensures Like.TagChar(s[k]) { assert (s + "/")[k] == s[k]; }
    }
  }

  lemma ListedTagMeaning(x: Operand, s: string, row: Row, d: Dialect, coll: Collation)
    requires x.JsonOp? && ValueFits(EvalOperand(x, row), JSONList)
    requires RightListed(s, d) && Like.KeepsStructure(coll.json)
    ensures var v := EvalOperand(x, row);
            Eval(ListedTagTree(x, s, d), row, d, coll) == if v.VNull? then Unknown else Of(TagListed(v.l, s, coll, d))
  {
    hide Like.Matches, Like.JsonText, Like.AllTags, Like.SomeTagIs, Like.SomeTagStartsWith, RightSearch, Eval;
    var v := EvalOperand(x, row);
    ListedPieces(s, d);
    ExactMeaning(x, s, row, d, coll);
    if v.VList? { PrefixMeaning(s + "/", v.l, d, coll.json); }
    ListedShape(x, s, d);
    EvalPair(ExactLeaf(x, s, d), LikePattern(x, VStr(PrefixPattern(s + "/")), false), row, d, coll);
  }

  lemma ListedShape(x: Operand, s: string, d: Dialect)
    ensures ListedTagTree(x, s, d) ==
            TOr([TLeaf(ExactLeaf(x, s, d)), TLeaf(LikePattern(x, VStr(PrefixPattern(s + "/")), false))])
  {
    assert "%\"" + s + "/%" == "%\"" + (s + "/") + "%";
  }

  // ----- Tests on the elements of a list

  function TestOf(p: PredicateExpr): string
  {
    match p case StartsWithP(_) => "startsWith" case EndsWithP(_) => "endsWith" case ContainsP(_) => "contains"
  }

  function TextOf(p: PredicateExpr): string
  {
    match p case StartsWithP(s) => s case EndsWithP(s) => s case ContainsP(s) => s
  }

  predicate SomeTagPasses(tags: seq<string>, fn: string, s: string, fold: Like.Fold)
  {
    exists k :: 0 <= k < |tags| && TagTest(fn, tags[k], s, fold)
  }

  lemma NoTagPasses(fn: string, s: string, fold: Like.Fold)
    ensures !SomeTagPasses([], fn, s, fold)
  {
  }

  function TestTree(x: Operand, p: PredicateExpr, d: Dialect): Tree<Val>
  {
    match p
    case StartsWithP(s) => PrefixTree(x, s, d)
    case EndsWithP(s) => TLeaf(LikePattern(x, VStr("%" + s + "\"%"), false))
    case ContainsP(s) => TLeaf(LikePattern(x, VStr("%" + s + "%"), false))
  }

  function TestPatterns(p: PredicateExpr, d: Dialect): seq<string>
  {
    match p
    case StartsWithP(s) => (if d == Postgres then [] else [ExactPattern(s)]) + [PrefixPattern(s)]
    case EndsWithP(s) => ["%" + s + "\"%"]
    case ContainsP(s) => ["%" + s + "%"]
  }

  predicate RightTest(p: PredicateExpr, d: Dialect) { RightSearch(TextOf(p), TestPatterns(p, d), d) }

  /** One of the patterns matches the JSON text of the list. */
  predicate AnyMatches(patterns: seq<string>, tags: seq<string>, d: Dialect, fold: Like.Fold)
  {
    exists k :: 0 <= k < |patterns| && Like.Matches(patterns[k], Like.JsonText(tags, Separator(d)), fold, Escapes(d))
  }

  /** A test on a list is a search for its patterns, beside the membership of the tag itself. */
  lemma TestIsSearch(x: Operand, p: PredicateExpr, row: Row, d: Dialect, coll: Collation)
    requires x.JsonOp? && EvalOperand(x, row).VList?
    ensures var tags := EvalOperand(x, row).l;
            Eval(TestTree(x, p, d), row, d, coll) ==
            Of((p.StartsWithP? && d == Postgres && TextOf(p) in tags) ||
               AnyMatches(TestPatterns(p, d), tags, d, coll.json))
  {
    hide Like.Matches, Like.JsonText;
    var text := Like.JsonText(EvalOperand(x, row).l, Separator(d));
    var patterns := TestPatterns(p, d);
    HasElementMeaning(x, TextOf(p), row, d, coll);
    if p.StartsWithP? {
      var tree := PrefixTree(x, p.prefix, d);
      EvalPair(tree.kids[0].leaf, tree.kids[1].leaf, row, d, coll);
      assert patterns[|patterns| - 1] == PrefixPattern(p.prefix);
      if d != Postgres { assert patterns[0] == ExactPattern(p.prefix); }
    } else {
      assert |patterns| == 1 && Eval(TestTree(x, p, d), row, d, coll) ==
                                Of(Like.Matches(patterns[0], text, coll.json, Escapes(d)));
    }
  }

  lemma TestMeaning(x: Operand, p: PredicateExpr, row: Row, d: Dialect, coll: Collation)
    requires x.JsonOp? && EvalOperand(x, row).VList? && Like.AllTags(EvalOperand(x, row).l)
             && EvalOperand(x, row).l != []
    requires RightTest(p, d) && Like.KeepsStructure(coll.json)
    ensures Eval(TestTree(x, p, d), row, d, coll) ==
              Of(SomeTagPasses(EvalOperand(x, row).l, TestOf(p), TextOf(p), coll.json))
  {
    hide Like.Matches, Like.JsonText, Like.IsTag, Like.TagText, Eval, TagTest, TestTree, TestPatterns;
    var tags, s := EvalOperand(x, row).l, TextOf(p);
    TestIsSearch(x, p, row, d, coll);
    if Like.TagText(s) {
      TagTextIsPlain(s);
      PlainTest(p, tags, d, coll.json);
    } else {
      forall k | 0 <= k < |TestPatterns(p, d)|
        ensures !Like.Matches(TestPatterns(p, d)[k], Like.JsonText(tags, Separator(d)), coll.json, Escapes(d))
      {
        NotFound(TestPatterns(p, d)[k], tags, d, coll.json);
      }
      NoTagOfThese(tags, TestOf(p), s, coll.json);
    }
  }

  lemma NoTagOfThese(tags: seq<string>, fn: string, s: string, fold: Like.Fold)
    requires Like.AllTags(tags) && !Like.TagText(s) && Like.KeepsStructure(fold)
    ensures !SomeTagPasses(tags, fn, s, fold) && s !in tags && !Like.SomeTagIs(tags, s, fold)
  {
    hide Like.IsTag, Like.TagText, Like.StartsWith, Like.EndsWith, Like.Has, Like.SameUpToCase, Like.KeepsStructure;
    forall k | 0 <= k < |tags| { NothingInTag(tags[k], s, fold); }
  }

  /** The patterns of a text without wildcards; the exact one adds nothing to the prefix. */
  lemma PlainTest(p: PredicateExpr, tags: seq<string>, d: Dialect, fold: Like.Fold)
    requires Like.AllTags(tags) && tags != [] && Like.Plain(TextOf(p)) && Like.KeepsStructure(fold)
    ensures (p.StartsWithP? && d == Postgres && TextOf(p) in tags) || AnyMatches(TestPatterns(p, d), tags, d, fold) <==>
              SomeTagPasses(tags, TestOf(p), TextOf(p), fold)
  {
    hide Like.Matches, Like.JsonText, Like.IsTag, Like.Plain, Like.EndsWith, Like.Has, Like.KeepsStructure;
    var s, patterns := TextOf(p), TestPatterns(p, d);
    assert AnyMatches(patterns, tags, d, fold) <==>
             Like.Matches(patterns[0], Like.JsonText(tags, Separator(d)), fold, Escapes(d)) ||
             (|patterns| == 2 && Like.Matches(patterns[1], Like.JsonText(tags, Separator(d)), fold, Escapes(d)));
    match p {
      case EndsWithP(_) =>
        Like.TagSuffixPattern(tags, s, Separator(d), fold, Escapes(d));
        assert SomeTagPasses(tags, "endsWith", s, fold) <==> Like.SomeTagEndsWith(tags, s, fold);
      case ContainsP(_) =>
        Like.TagInfixPattern(tags, s, Separator(d), fold, Escapes(d));
        assert SomeTagPasses(tags, "contains", s, fold) <==> Like.SomeTagHas(tags, s, fold);
      case StartsWithP(_) =>
        Like.TagPrefixPattern(tags, s, Separator(d), fold, Escapes(d));
        Like.WholeTagPattern(tags, s, Separator(d), fold, Escapes(d));
        WholeStarts(tags, s, fold);
    }
  }

  lemma WholeStarts(tags: seq<string>, s: string, fold: Like.Fold)
    ensures s in tags ==> Like.SomeTagStartsWith(tags, s, fold)
    ensures Like.SomeTagIs(tags, s, fold) ==> Like.SomeTagStartsWith(tags, s, fold)
    ensures Like.SomeTagStartsWith(tags, s, fold) <==> SomeTagPasses(tags, "startsWith", s, fold)
  {
    if s in tags {
      var k :| 0 <= k < |tags| && tags[k] == s;
      assert Like.StartsWith(tags[k], s, fold);
    }
    if Like.SomeTagIs(tags, s, fold) {
      var k :| 0 <= k < |tags| && Like.SameUpToCase(tags[k], s, fold);
      assert Like.StartsWith(tags[k], s, fold);
    }
    assert forall k :: 0 <= k < |tags| ==> TagTest("startsWith", tags[k], s, fold) == Like.StartsWith(tags[k], s, fold);
  }

  // ----- Exactly the right searches

  function WithTags(x: Operand, tags: seq<string>): Row
    requires x.JsonOp?
  {
    Row(map[], map[(x.column, x.path) := VList(tags)])
  }

  /** The row has a list of tags where `x` looks. */
  predicate HasTags(x: Operand, row: Row) { EvalOperand(x, row).VList? && Like.AllTags(EvalOperand(x, row).l) }

  ghost predicate TestIsRight(x: Operand, p: PredicateExpr, d: Dialect, coll: Collation)
  {
    forall row :: HasTags(x, row) && EvalOperand(x, row).l != [] ==>
      Eval(TestTree(x, p, d), row, d, coll) ==
      Of(SomeTagPasses(EvalOperand(x, row).l, TestOf(p), TextOf(p), coll.json))
  }

  /** A test on a list is right on every list of tags if and only if its text is made of tag characters
      other than `_`, or holds another character and no pattern of the test finds any list. */
  lemma TestExactly(x: Operand, p: PredicateExpr, d: Dialect, coll: Collation)
    requires x.JsonOp? && Like.KeepsStructure(coll.json) && coll.json('x') != coll.json('_')
    ensures TestIsRight(x, p, d, coll) <==> RightTest(p, d)
  {
    hide RightTest, Eval, TestTree, SomeTagPasses, Like.KeepsStructure, Like.IsTag, AnyMatches;
    if RightTest(p, d) {
      forall row | HasTags(x, row) && EvalOperand(x, row).l != []
        ensures Eval(TestTree(x, p, d), row, d, coll) ==
                Of(SomeTagPasses(EvalOperand(x, row).l, TestOf(p), TextOf(p), coll.json))
      {
        TestMeaning(x, p, row, d, coll);
      }
    } else {
      var tags := WrongTest(p, d, coll.json);
      var row := WithTags(x, tags);
      assert HasTags(x, row) && EvalOperand(x, row).l == tags;
      TestIsSearch(x, p, row, d, coll);
    }
  }

  /** A list that the test finds and no element of which passes it. */
  lemma WrongTest(p: PredicateExpr, d: Dialect, fold: Like.Fold) returns (tags: seq<string>)
    requires !RightTest(p, d) && Like.KeepsStructure(fold) && fold('x') != fold('_')
    ensures Like.AllTags(tags) && tags != []
    ensures AnyMatches(TestPatterns(p, d), tags, d, fold) && !SomeTagPasses(tags, TestOf(p), TextOf(p), fold)
  {
    hide Like.Matches, Like.JsonText, Like.TagText, Like.IsTag, Like.Has, Like.StartsWith, Like.EndsWith,
         Like.KeepsStructure, Finds;
    var s, patterns := TextOf(p), TestPatterns(p, d);
    if Like.TagText(s) {
      tags := [Like.Filled(s)];
      FilledIsFound(s, d, fold);
      HasAll(Like.Filled(s), s, fold);
      assert Like.Matches(patterns[|patterns| - 1], Like.JsonText(tags, Separator(d)), fold, Escapes(d));
    } else {
      var k :| 0 <= k < |patterns| && Finds(patterns[k], d);
      tags := FoundIn(patterns[k], d, fold);
      NoTagOfThese(tags, TestOf(p), s, fold);
    }
  }

  /** What starts or ends with a text, or is it, has it. */
  lemma HasAll(t: string, s: string, fold: Like.Fold)
    ensures Like.StartsWith(t, s, fold) || Like.EndsWith(t, s, fold) || Like.SameUpToCase(t, s, fold) ==>
              Like.Has(t, s, fold)
  {
  }

  /** The tag with an x for every `_` is found by all patterns, and does not have the text. */
  lemma FilledIsFound(s: string, d: Dialect, fold: Like.Fold)
    requires Like.TagText(s) && '_' in s
    ensures var t := Like.Filled(s);
            var text := Like.JsonText([t], Separator(d));
            && Like.IsTag(t)
            && (fold('x') != fold('_') ==> !Like.Has(t, s, fold) && s != t)
            && Like.Matches(ExactPattern(s), text, fold, Escapes(d))
            && Like.Matches(PrefixPattern(s), text, fold, Escapes(d))
            && Like.Matches("%" + s + "\"%", text, fold, Escapes(d))
            && Like.Matches("%" + s + "%", text, fold, Escapes(d))
  {
    hide Like.Matches, Like.JsonText, Like.IsTag, Like.Has, Like.Filled, Like.At, Like.Occurs;
    var t := Like.Filled(s);
    var text := Like.JsonText([t], Separator(d));
    Like.FilledFits(s, fold);
    FilledLength(s);
    Like.FilledOccurs(s, t, Separator(d), fold);
    TagTextIsSafe(s, Escapes(d));
    Like.AddQuotes(s, Escapes(d));
    assert ExactPattern(s) == "%" + ("\"" + s + "\"") + "%" && PrefixPattern(s) == "%" + ("\"" + s) + "%";
    assert "%" + s + "\"%" == "%" + (s + "\"") + "%";
    Like.MatchesInfix("\"" + s + "\"", text, fold, Escapes(d));
    Like.MatchesInfix("\"" + s, text, fold, Escapes(d));
    Like.MatchesInfix(s + "\"", text, fold, Escapes(d));
    Like.MatchesInfix(s, text, fold, Escapes(d));
  }

  lemma FilledLength(s: string)
    ensures |Like.Filled(s)| == |s|
  {
  }

  lemma TagTextIsSafe(s: string, escapes: bool)
    requires Like.TagText(s)
    ensures Like.NoPercent(s, escapes)
  {
    forall c | c in s ensures c != '%' && c != '\\' { var k :| 0 <= k < |s| && s[k] == c; }
  }

  ghost predicate ListedIsRight(x: Operand, s: string, d: Dialect, coll: Collation)
  {
    forall row :: HasTags(x, row) ==>
      Eval(ListedTagTree(x, s, d), row, d, coll) == Of(TagListed(EvalOperand(x, row).l, s, coll, d))
  }

  /** The same for a tag listed in `tag in [...]`, on every list, the empty one included. */
  lemma ListedExactly(x: Operand, s: string, d: Dialect, coll: Collation)
    requires x.JsonOp? && Like.KeepsStructure(coll.json) && coll.json('x') != coll.json('_')
    ensures ListedIsRight(x, s, d, coll) <==> RightListed(s, d)
  {
    hide RightListed, Eval, ListedTagTree, TagListed, Like.KeepsStructure, Like.IsTag, AnyMatches;
    if RightListed(s, d) {
      forall row | HasTags(x, row)
        ensures Eval(ListedTagTree(x, s, d), row, d, coll) == Of(TagListed(EvalOperand(x, row).l, s, coll, d))
      {
        ListedTagMeaning(x, s, row, d, coll);
      }
    } else {
      var tags := WrongListed(s, d, coll.json);
      var row := WithTags(x, tags);
      assert HasTags(x, row) && EvalOperand(x, row).l == tags;
      ListedIsSearch(x, s, row, d, coll);
      assert !TagListed(tags, s, coll, d) by { NotListed(tags, s, coll, d); }
    }
  }

  lemma NotListed(tags: seq<string>, s: string, coll: Collation, d: Dialect)
    requires s !in tags && !Like.SomeTagIs(tags, s, coll.json) && !Like.SomeTagStartsWith(tags, s + "/", coll.json)
    ensures !TagListed(tags, s, coll, d)
  {
  }

  lemma ListedIsSearch(x: Operand, s: string, row: Row, d: Dialect, coll: Collation)
    requires x.JsonOp? && EvalOperand(x, row).VList?
    ensures AnyMatches(ListedPatterns(s, d), EvalOperand(x, row).l, d, coll.json) ==>
              Eval(ListedTagTree(x, s, d), row, d, coll) == True
  {
    hide Like.Matches, Like.JsonText, ExactPattern, PrefixPattern;
    ListedShape(x, s, d);
    EvalPair(ExactLeaf(x, s, d), LikePattern(x, VStr(PrefixPattern(s + "/")), false), row, d, coll);
    HasElementMeaning(x, s, row, d, coll);
    hide Eval;
  }

  lemma WrongListed(s: string, d: Dialect, fold: Like.Fold) returns (tags: seq<string>)
    requires !RightListed(s, d) && Like.KeepsStructure(fold) && fold('x') != fold('_')
    ensures Like.AllTags(tags) && AnyMatches(ListedPatterns(s, d), tags, d, fold)
    ensures s !in tags && !Like.SomeTagIs(tags, s, fold) && !Like.SomeTagStartsWith(tags, s + "/", fold)
  {
    hide Like.Matches, Like.JsonText, Like.TagText, Like.IsTag, Like.Has, Like.StartsWith, Like.KeepsStructure, Finds,
         ExactPattern, PrefixPattern, Like.Filled;
    var patterns := ListedPatterns(s, d);
    SlashIsTag(s);
    if Like.TagText(s) {
      tags := [Like.Filled(s + "/")];
      FilledIsFound(s + "/", d, fold);
      FilledLength(s + "/");
      HasAll(tags[0], s + "/", fold);
      assert patterns[|patterns| - 1] == PrefixPattern(s + "/");
    } else {
      var k :| 0 <= k < |patterns| && Finds(patterns[k], d);
      tags := FoundIn(patterns[k], d, fold);
      NoTagOfThese(tags, "startsWith", s, fold);
      NoTagOfThese(tags, "startsWith", s + "/", fold);
      WholeStarts(tags, s + "/", fold);
    }
  }

  ghost predicate ElementIsRight(x: Operand, s: string, d: Dialect, coll: Collation)
  {
    forall row :: HasTags(x, row) ==>
      EvalLeaf(ExactLeaf(x, s, d), row, d, coll) == Of(TagAmong(EvalOperand(x, row).l, s, d, coll))
  }

  /** The same for a literal looked for among the elements; outside SQLite it is always right. */
  lemma ElementExactly(x: Operand, s: string, d: Dialect, coll: Collation)
    requires x.JsonOp? && Like.KeepsStructure(coll.json) && coll.json('x') != coll.json('_')
    ensures ElementIsRight(x, s, d, coll) <==> RightElement(s, d)
  {
    hide RightSearch, EvalLeaf, TagAmong, Like.KeepsStructure, Like.IsTag;
    if RightElement(s, d) {
      forall row | HasTags(x, row)
        ensures EvalLeaf(ExactLeaf(x, s, d), row, d, coll) == Of(TagAmong(EvalOperand(x, row).l, s, d, coll))
      {
        ExactMeaning(x, s, row, d, coll);
      }
    } else {
      var tags := WrongElement(s, coll.json);
      var row := WithTags(x, tags);
      assert HasTags(x, row) && EvalOperand(x, row).l == tags;
      ElementIsFound(x, s, row, coll);
      assert !TagAmong(tags, s, d, coll) by { NotAmong(tags, s, coll); }
    }
  }

  lemma ElementIsFound(x: Operand, s: string, row: Row, coll: Collation)
    requires x.JsonOp? && EvalOperand(x, row).VList?
    requires Like.Matches(ExactPattern(s), Like.JsonText(EvalOperand(x, row).l, Separator(SQLite)), coll.json, false)
    ensures EvalLeaf(ExactLeaf(x, s, SQLite), row, SQLite, coll) == True
  {
  }

  lemma NotAmong(tags: seq<string>, s: string, coll: Collation)
    requires !Like.SomeTagIs(tags, s, coll.json)
    ensures !TagAmong(tags, s, SQLite, coll)
  {
  }

  lemma WrongElement(s: string, fold: Like.Fold) returns (tags: seq<string>)
    requires !RightSearch(s, [ExactPattern(s)], SQLite) && Like.KeepsStructure(fold) && fold('x') != fold('_')
    ensures Like.AllTags(tags) && !Like.SomeTagIs(tags, s, fold)
    ensures Like.Matches(ExactPattern(s), Like.JsonText(tags, Separator(SQLite)), fold, false)
  {
    hide Like.Matches, Like.JsonText, Like.TagText, Like.IsTag, Like.Has, Like.SameUpToCase, Like.KeepsStructure, Finds,
         ExactPattern, Like.Filled;
    if Like.TagText(s) {
      tags := [Like.Filled(s)];
      FilledIsFound(s, SQLite, fold);
      HasAll(tags[0], s, fold);
    } else {
      assert Finds(ExactPattern(s), SQLite);
      tags := FoundIn(ExactPattern(s), SQLite, fold);
      NoTagOfThese(tags, "contains", s, fold);
    }
  }

  // ----- What is found with wildcards

  /** What a test searches the JSON text for. */
  function PatternOf(p: PredicateExpr): string
  {
    match p
    case StartsWithP(s) => "\"" + s
    case EndsWithP(s) => s + "\""
    case ContainsP(s) => s
  }

  /** Whatever the argument, a test on a list holds exactly when its pattern stands somewhere in the
      JSON text, where `_` stands for any one character, be it part of a tag, a quote or a separator. */
  lemma TestWithWildcards(x: Operand, p: PredicateExpr, row: Row, d: Dialect, coll: Collation)
    requires x.JsonOp? && EvalOperand(x, row).VList? && Like.NoPercent(TextOf(p), Escapes(d))
    ensures Eval(TestTree(x, p, d), row, d, coll) ==
            Of(Like.Occurs(PatternOf(p), Like.JsonText(EvalOperand(x, row).l, Separator(d)), coll.json))
  {
    hide Like.Matches, Like.JsonText, Like.Occurs, Like.NoPercent, Eval, TestTree;
    var tags := EvalOperand(x, row).l;
    var text := Like.JsonText(tags, Separator(d));
    var s, patterns := TextOf(p), TestPatterns(p, d);
    TestIsSearch(x, p, row, d, coll);
    Like.AddQuotes(s, Escapes(d));
    match p {
      case StartsWithP(_) =>
        StartsWithWildcards(s, tags, d, coll.json);
        assert patterns[|patterns| - 1] == PrefixPattern(s);
      case EndsWithP(_) =>
        assert "%" + s + "\"%" == "%" + (s + "\"") + "%";
        Like.MatchesInfix(s + "\"", text, coll.json, Escapes(d));
        assert patterns[0] == "%" + s + "\"%";
      case ContainsP(_) =>
        Like.MatchesInfix(s, text, coll.json, Escapes(d));
        assert patterns[0] == "%" + s + "%";
    }
  }

  /** The exact test beside the prefix test adds nothing here either. */
  lemma StartsWithWildcards(s: string, tags: seq<string>, d: Dialect, fold: Like.Fold)
    requires Like.NoPercent(s, Escapes(d))
    ensures var text := Like.JsonText(tags, Separator(d));
            && (Like.Matches(PrefixPattern(s), text, fold, Escapes(d)) <==> Like.Occurs("\"" + s, text, fold))
            && (Like.Matches(ExactPattern(s), text, fold, Escapes(d)) ==> Like.Occurs("\"" + s, text, fold))
            && (s in tags ==> Like.Occurs("\"" + s, text, fold))
  {
    hide Like.Matches, Like.JsonText, Like.Occurs;
    var text := Like.JsonText(tags, Separator(d));
    Like.AddQuotes(s, Escapes(d));
    assert ExactPattern(s) == "%" + ("\"" + s + "\"") + "%" && PrefixPattern(s) == "%" + ("\"" + s) + "%";
    Like.MatchesInfix("\"" + s + "\"", text, fold, Escapes(d));
    Like.MatchesInfix("\"" + s, text, fold, Escapes(d));
    Like.ShorterOccurs("\"" + s, "\"", text, fold);
    if k: nat :| k < |tags| && tags[k] == s {
      assert Like.StartsWith(tags[k], s, fold);
      Like.TrueCasesMatch(tags, k, s, Separator(d), fold, Escapes(d));
    }
  }

  /** The same for the search in a text column. */
  lemma ContainsWithWildcards(n: string, text: string, schema: Schema, row: Row, d: Dialect, coll: Collation)
    requires n in schema && schema[n].kind == Scalar && Stored(row, schema[n]).VStr? && Like.NoPercent(text, Escapes(d))
    ensures Eval(ContainsTree(n, text, schema, d).value, row, d, coll) ==
            Of(Like.Occurs(text, Stored(row, schema[n]).s, coll.text))
  {
    hide Like.Matches, Like.Occurs;
    Like.MatchesInfix(text, Stored(row, schema[n]).s, coll.text, Escapes(d));
  }

  /** So an ordinary snake_case argument finds other tags, and even tags too short for it: `a_b` finds
      the tag axb, and `a_` the tag a, of which the wildcard takes the closing quote. A comma, which no
      tag holds, finds the list of a and b. */
  lemma UnderscoreFindsOthers(x: Operand, row: Row, d: Dialect)
    requires x.JsonOp?
    ensures var coll := Collation(c => c, c => c);
            && (EvalOperand(x, row) == VList(["axb"]) ==>
                  && Eval(TestTree(x, StartsWithP("a_b"), d), row, d, coll) == True
                  && !SomeTagPasses(["axb"], "startsWith", "a_b", coll.json))
            && (EvalOperand(x, row) == VList(["a"]) ==>
                  && Eval(TestTree(x, ContainsP("a_"), d), row, d, coll) == True
                  && !SomeTagPasses(["a"], "contains", "a_", coll.json))
            && (EvalOperand(x, row) == VList(["a", "b"]) ==>
                  && Eval(TestTree(x, ContainsP(","), d), row, d, coll) == True
                  && !SomeTagPasses(["a", "b"], "contains", ",", coll.json))
  {
    hide Eval, Like.JsonText, Like.Occurs;
    var coll := Collation(c => c, c => c);
    assert Like.NoPercent("a_b", Escapes(d)) && Like.NoPercent("a_", Escapes(d)) && Like.NoPercent(",", Escapes(d));
    assert "\"" + "a_b" == "\"a_b";
    Like.UnderscoreOccurs(Separator(d), coll.json);
    Like.CommaOccurs(Separator(d), coll.json);
    if EvalOperand(x, row) == VList(["axb"]) { TestWithWildcards(x, StartsWithP("a_b"), row, d, coll); }
    if EvalOperand(x, row) == VList(["a"]) { TestWithWildcards(x, ContainsP("a_"), row, d, coll); }
    if EvalOperand(x, row) == VList(["a", "b"]) { TestWithWildcards(x, ContainsP(","), row, d, coll); }
    NoOtherPasses(coll.json);
  }

  lemma NoOtherPasses(fold: Like.Fold)
    requires forall c :: fold(c) == c
    ensures !SomeTagPasses(["axb"], "startsWith", "a_b", fold) && !SomeTagPasses(["a"], "contains", "a_", fold)
    ensures !SomeTagPasses(["a", "b"], "contains", ",", fold)
  {
    assert "a_b"[1] == '_' && "axb"[0 + 1] == 'x';
    assert !Like.StartsWith("axb", "a_b", fold);
    assert !Like.Has("a", "a_", fold);
    assert ","[0] == ',' && forall i :: Like.Here(",", "a", i, fold) ==> "a"[i + 0] == ',';
    assert !Like.Has("a", ",", fold) && !Like.Has("b", ",", fold);
  }
}
