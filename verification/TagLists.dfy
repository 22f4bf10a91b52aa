/** The JSON texts of tag lists, read character by character, and the LIKE patterns that match one. */
module TagLists {
  import opened Wrappers
  import opened Like

  /** Where a reader stands: before the list, before a tag's quote, before the blank of a separator,
      after a tag's opening quote, inside a tag, after its closing quote, and after the list. */
  datatype Place = Begin | Item | Blank | Opened | Inside | Closed | End

  /** The next character takes the reader from one place to another, or fits nowhere. */
  function Step(q: Place, c: char, sep: string): (r: Option<Place>)
  {
    match q
    case Begin => if c == '[' then Some(Item) else None
    case Item => if c == '"' then Some(Opened) else None
    case Blank => if c == ' ' then Some(Item) else None
    case Opened => if TagChar(c) then Some(Inside) else None
    case Inside => if TagChar(c) then Some(Inside) else if c == '"' then Some(Closed) else None
    case Closed =>
      if c == ']' then Some(End) else if c == ',' then Some(if sep == "," then Item else Blank) else None
    case End => None
  }

  /** The text leads the reader from `q` to the end of a list. */
  predicate Leads(q: Place, text: string, sep: string)
    decreases |text|
  {
    if text == "" then q == End
    else Step(q, text[0], sep).Some? && Leads(Step(q, text[0], sep).value, text[1..], sep)
  }

  // ----- The texts that are read are those of lists

  lemma {:induction false} LeadsThroughTag(t: string, rest: string, sep: string)
    requires TagText(t) && Leads(Closed, rest, sep)
    ensures Leads(Inside, t + "\"" + rest, sep)
  {
    var text := t + "\"" + rest;
    if t == "" {
      assert text[1..] == rest;
    } else {
      assert text[1..] == t[1..] + "\"" + rest;
      LeadsThroughTag(t[1..], rest, sep);
    }
  }

  lemma LeadsThroughQuotes(t: string, rest: string, sep: string)
    requires IsTag(t) && Leads(Closed, rest, sep)
    ensures Leads(Item, Quote(t) + rest, sep)
  {
    var text := Quote(t) + rest;
    assert text[0] == '"' && text[1] == t[0];
    assert text[1..][1..] == t[1..] + "\"" + rest;
    LeadsThroughTag(t[1..], rest, sep);
  }

  lemma {:induction false} LeadsThroughItems(tags: seq<string>, sep: string)
    requires AllTags(tags) && tags != [] && IsSeparator(sep)
    ensures Leads(Item, Items(tags, sep) + "]", sep)
  {
    assert AllTags(tags[1..]) && IsTag(tags[0]);
    if |tags| == 1 {
      assert "]"[1..] == "";
      hide Step, IsTag;
      LeadsThroughQuotes(tags[0], "]", sep);
    } else {
      hide Step, IsTag, Leads;
      var more := Items(tags[1..], sep) + "]";
      LeadsThroughItems(tags[1..], sep);
      LeadsThroughSeparator(more, sep);
      LeadsThroughQuotes(tags[0], sep + more, sep);
      assert Items(tags, sep) + "]" == Quote(tags[0]) + (sep + more);
    }
  }

  lemma LeadsThroughSeparator(rest: string, sep: string)
    requires IsSeparator(sep) && Leads(Item, rest, sep)
    ensures Leads(Closed, sep + rest, sep)
  {
    if sep == "," {
      assert (sep + rest)[1..] == rest;
    } else {
      assert (sep + rest)[1..] == " " + rest && (" " + rest)[1..] == rest;
    }
  }

  /** The text of a list that is not empty leads to the end. */
  lemma ListLeads(tags: seq<string>, sep: string)
    requires AllTags(tags) && tags != [] && IsSeparator(sep)
    ensures Leads(Begin, JsonText(tags, sep), sep)
  {
    assert JsonText(tags, sep)[1..] == Items(tags, sep) + "]";
    LeadsThroughItems(tags, sep);
  }

  /** What stands between a place and the end of a list: the rest of a tag, and more tags. */
  predicate IsRest(q: Place, text: string, t: string, tags: seq<string>, sep: string)
  {
    var after := if tags == [] then "]" else sep + Items(tags, sep) + "]";
    AllTags(tags) &&
    match q
    case Begin => tags != [] && text == "[" + Items(tags, sep) + "]"
    case Item => tags != [] && text == Items(tags, sep) + "]"
    case Blank => tags != [] && text == " " + Items(tags, sep) + "]"
    case Opened => IsTag(t) && text == t + "\"" + after
    case Inside => TagText(t) && text == t + "\"" + after
    case Closed => text == after
    case End => text == ""
  }

  lemma {:induction false} LeadsFrom(q: Place, text: string, sep: string) returns (t: string, tags: seq<string>)
    requires IsSeparator(sep) && Leads(q, text, sep)
    requires q == Blank ==> sep == ", "
    ensures IsRest(q, text, t, tags, sep)
    decreases |text|
  {
    if text == "" {
      t, tags := "", [];
    } else {
      hide IsRest;
      assert text == [text[0]] + text[1..];
      BlankMeans(q, text[0], sep);
      var u, more := LeadsFrom(Step(q, text[0], sep).value, text[1..], sep);
      hide Step;
      t, tags := RestBefore(q, text[0], text[1..], u, more, sep);
    }
  }

  lemma BlankMeans(q: Place, c: char, sep: string)
    requires IsSeparator(sep)
    ensures Step(q, c, sep) == Some(Blank) ==> sep == ", "
  {
  }

  /** One character before what stands between a place and the end. */
  lemma RestBefore(q: Place, c: char, rest: string, u: string, more: seq<string>, sep: string)
    returns (t: string, tags: seq<string>)
    requires IsSeparator(sep) && Step(q, c, sep).Some? && IsRest(Step(q, c, sep).value, rest, u, more, sep)
    ensures IsRest(q, [c] + rest, t, tags, sep)
  {
    hide Items, AllTags, IsTag, TagText, TagChar;
    t, tags := u, more;
    match q {
      case Item =>
        t, tags := "", [u] + more;
        ItemsFrom(u, more, sep);
      case Opened =>
        t := [c] + u;
        LongerTag(c, u);
      case Inside =>
        if c == '"' && !TagChar(c) {
          t := "";
          NoTag();
        } else {
          t := [c] + u;
          LongerTag(c, u);
        }
      case Closed =>
        if c == ']' {
          tags := [];
          NoTag();
        } else {
          assert sep == ", " ==> ", " == "," + " ";
        }
      case _ =>
    }
  }

  lemma LongerTag(c: char, u: string)
    requires TagChar(c) && TagText(u)
    ensures IsTag([c] + u) && TagText([c] + u)
  {
  }

  lemma NoTag()
    ensures TagText("") && AllTags([])
  {
  }

  lemma ItemsFrom(t: string, tags: seq<string>, sep: string)
    requires IsTag(t) && AllTags(tags)
    ensures AllTags([t] + tags)
    ensures Items([t] + tags, sep) == Quote(t) + if tags == [] then "" else sep + Items(tags, sep)
  {
    assert ([t] + tags)[1..] == tags;
    hide IsTag;
  }

  /** A text that leads to the end is the text of a list. */
  lemma LeadsIsList(text: string, sep: string) returns (tags: seq<string>)
    requires IsSeparator(sep) && Leads(Begin, text, sep)
    ensures AllTags(tags) && tags != [] && text == JsonText(tags, sep)
  {
    var t, more := LeadsFrom(Begin, text, sep);
    tags := more;
  }

  // ----- The patterns that match one

  /** A character that takes the reader from one place to the next. */
  function Link(q: Place, r: Place, sep: string): Option<char>
  {
    match (q, r)
    case (Begin, Item) => Some('[')
    case (Item, Opened) => Some('"')
    case (Blank, Item) => Some(' ')
    case (Opened, Inside) => Some('x')
    case (Inside, Inside) => Some('x')
    case (Inside, Closed) => Some('"')
    case (Closed, End) => Some(']')
    case (Closed, Item) => if sep == "," then Some(',') else None
    case (Closed, Blank) => if sep == "," then None else Some(',')
    case _ => None
  }

  lemma LinkSteps(q: Place, r: Place, c: char, sep: string)
    ensures Link(q, r, sep).Some? ==> Step(q, Link(q, r, sep).value, sep) == Some(r)
    ensures Step(q, c, sep) == Some(r) ==> Link(q, r, sep).Some?
  {
  }

  /** From a place the reader can get to another: only the beginning is never met again, and only the
      end never left. */
  predicate Reaches(q: Place, r: Place, sep: string)
  {
    q == r || (r != Begin && q != End && (r == Blank ==> sep != ","))
  }

  /** The pattern matches some text that leads from `q` to the end of a list. */
  predicate CanMatch(pattern: string, q: Place, escapes: bool, sep: string)
  {
    if pattern == "" then q == End
    else if pattern[0] == '%' then
      exists r: Place :: Reaches(q, r, sep) && CanMatch(pattern[1..], r, escapes, sep)
    else if escapes && pattern[0] == '\\' then
      |pattern| >= 2 && Step(q, pattern[1], sep).Some?
        && CanMatch(pattern[2..], Step(q, pattern[1], sep).value, escapes, sep)
    else if pattern[0] == '_' then
      exists r: Place :: Link(q, r, sep).Some? && CanMatch(pattern[1..], r, escapes, sep)
    else
      Step(q, pattern[0], sep).Some? && CanMatch(pattern[1..], Step(q, pattern[0], sep).value, escapes, sep)
  }

  /** Characters the database takes for the same lead to the same place. */
  lemma SameStep(q: Place, a: char, b: char, sep: string, fold: Fold)
    requires KeepsStructure(fold) && fold(a) == fold(b)
    ensures Step(q, a, sep) == Step(q, b, sep)
  {
    if !TagChar(a) || !TagChar(b) { assert a == b; }
  }

  lemma {:induction false} MatchIsPossible(pattern: string, text: string, q: Place, fold: Fold, escapes: bool,
          sep: string)
    requires KeepsStructure(fold)
    requires Matches(pattern, text, fold, escapes) && Leads(q, text, sep)
    ensures CanMatch(pattern, q, escapes, sep)
    decreases |pattern|, |text|
  {
    hide KeepsStructure, Step;
    if pattern != "" {
      var q' := if text == "" then q else Step(q, text[0], sep).value;
      if pattern[0] == '%' {
        if Matches(pattern[1..], text, fold, escapes) {
          MatchIsPossible(pattern[1..], text, q, fold, escapes, sep);
          assert Reaches(q, q, sep);
        } else {
          MatchIsPossible(pattern, text[1..], q', fold, escapes, sep);
          var r: Place :| Reaches(q', r, sep) && CanMatch(pattern[1..], r, escapes, sep);
          OneStepMore(q, text[0], r, sep);
        }
      } else if escapes && pattern[0] == '\\' {
        SameStep(q, pattern[1], text[0], sep, fold);
        MatchIsPossible(pattern[2..], text[1..], q', fold, escapes, sep);
      } else {
        MatchIsPossible(pattern[1..], text[1..], q', fold, escapes, sep);
        if pattern[0] == '_' { LinkSteps(q, q', text[0], sep); } else { SameStep(q, pattern[0], text[0], sep, fold); }
      }
    }
  }

  lemma OneStepMore(q: Place, c: char, r: Place, sep: string)
    requires Step(q, c, sep).Some? && Reaches(Step(q, c, sep).value, r, sep)
    ensures Reaches(q, r, sep)
  {
  }

  function Order(q: Place): nat
  {
    match q
    case Begin => 0
    case Blank => 1
    case Item => 2
    case Opened => 3
    case Inside => 4
    case Closed => 5
    case End => 6
  }

  /** A way from one place to another. */
  lemma {:induction false} Way(q: Place, r: Place, rest: string, sep: string) returns (a: string)
    requires Reaches(q, r, sep) && IsSeparator(sep) && Leads(r, rest, sep)
    ensures Leads(q, a + rest, sep)
    decreases q == Begin, if Order(q) <= Order(r) then Order(r) - Order(q) else 7 + Order(r) - Order(q)
  {
    if q == r {
      a := "";
      assert a + rest == rest;
    } else {
      var next := match q
        case Begin => Item
        case Item => Opened
        case Opened => Inside
        case Inside => Closed
        case Closed => if r == End then End else if sep == "," then Item else Blank
        case _ => Item;
      var b := Way(next, r, rest, sep);
      a := [Link(q, next, sep).value] + b;
      LinkSteps(q, next, ' ', sep);
      assert (a + rest)[1..] == b + rest;
    }
  }

  lemma {:induction false} PossibleMatch(pattern: string, q: Place, fold: Fold, escapes: bool, sep: string)
    returns (text: string)
    requires IsSeparator(sep) && CanMatch(pattern, q, escapes, sep)
    ensures Matches(pattern, text, fold, escapes) && Leads(q, text, sep)
    decreases |pattern|
  {
    hide Step, Reaches;
    if pattern == "" {
      text := "";
    } else if pattern[0] == '%' {
      var r: Place :| Reaches(q, r, sep) && CanMatch(pattern[1..], r, escapes, sep);
      var rest := PossibleMatch(pattern[1..], r, fold, escapes, sep);
      var a := Way(q, r, rest, sep);
      text := a + rest;
      assert pattern == "%" + pattern[1..];
      PercentSkips(pattern[1..], a, rest, fold, escapes);
    } else if escapes && pattern[0] == '\\' {
      var rest := PossibleMatch(pattern[2..], Step(q, pattern[1], sep).value, fold, escapes, sep);
      text := [pattern[1]] + rest;
      assert text[1..] == rest;
    } else {
      var r, c := Begin, pattern[0];
      if c == '_' {
        r :| Link(q, r, sep).Some? && CanMatch(pattern[1..], r, escapes, sep);
        c := Link(q, r, sep).value;
        LinkSteps(q, r, c, sep);
      } else {
        r := Step(q, c, sep).value;
      }
      var rest := PossibleMatch(pattern[1..], r, fold, escapes, sep);
      text := [c] + rest;
      assert text[1..] == rest;
    }
  }

  /** Some list of tags has a JSON text that the pattern matches. */
  ghost predicate MatchesSome(pattern: string, fold: Fold, escapes: bool, sep: string)
  {
    exists tags :: AllTags(tags) && tags != [] && Matches(pattern, JsonText(tags, sep), fold, escapes)
  }

  /** Scanning the pattern decides whether any list of tags can be found by it. */
  lemma ScanDecides(pattern: string, fold: Fold, escapes: bool, sep: string)
    requires KeepsStructure(fold) && IsSeparator(sep)
    ensures CanMatch(pattern, Begin, escapes, sep) <==> MatchesSome(pattern, fold, escapes, sep)
  {
    hide CanMatch, Matches, JsonText, Leads, KeepsStructure;
    if CanMatch(pattern, Begin, escapes, sep) {
      var text := PossibleMatch(pattern, Begin, fold, escapes, sep);
      var tags := LeadsIsList(text, sep);
    }
    if MatchesSome(pattern, fold, escapes, sep) {
      var tags :| AllTags(tags) && tags != [] && Matches(pattern, JsonText(tags, sep), fold, escapes);
      ListLeads(tags, sep);
      MatchIsPossible(pattern, JsonText(tags, sep), Begin, fold, escapes, sep);
    }
  }
}
