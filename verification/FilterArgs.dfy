/** Which argument each placeholder of a rendered statement reads, and when the text can be read. */
module FilterArgs {
  import opened Wrappers
  import opened FilterSchema
  import opened FilterRows
  import opened Sql
  import opened FilterFold

  // ----- Folding, seen from the condition

  datatype Constness = ConstTrue | ConstFalse | Varies

  /** Whether a condition folds to a constant: it does when its literals decide it. */
  function Static(c: Condition): Constness
  {
    match c
    case Constant(b) => if b then ConstTrue else ConstFalse
    case Not(x) => (match Static(x) case ConstTrue => ConstFalse case ConstFalse => ConstTrue case Varies => Varies)
    case And(l, r) =>
      if Static(l) == ConstFalse || Static(r) == ConstFalse then ConstFalse
      else if Static(l) == ConstTrue && Static(r) == ConstTrue then ConstTrue else Varies
    case Or(l, r) =>
      if Static(l) == ConstTrue || Static(r) == ConstTrue then ConstTrue
      else if Static(l) == ConstFalse && Static(r) == ConstFalse then ConstFalse else Varies
    case _ => Varies
  }

  /** No subtree that carries arguments is folded away. */
  predicate NothingDropped(c: Condition, schema: Schema, d: Dialect)
  {
    if Static(c) != Varies then AllArgs(c, schema, d) == []
    else
      match c
      case And(l, r) => NothingDropped(l, schema, d) && NothingDropped(r, schema, d)
      case Or(l, r) => NothingDropped(l, schema, d) && NothingDropped(r, schema, d)
      case Not(x) => NothingDropped(x, schema, d)
      case _ => true
  }

  /** No empty list survives folding that the dialect cannot read: none at all outside SQLite, and no
      empty list of tags, which is written as `()`, in SQLite. */
  predicate ListsFilled(c: Condition, d: Dialect)
  {
    Static(c) != Varies ||
    match c
    case And(l, r) => ListsFilled(l, d) && ListsFilled(r, d)
    case Or(l, r) => ListsFilled(l, d) && ListsFilled(r, d)
    case Not(x) => ListsFilled(x, d)
    case In(lhs, values) => values != [] || (d == SQLite && lhs != FieldRef("tag"))
    case _ => true
  }

  predicate Agrees(f: Folded, k: Constness)
  {
    match f case AlwaysHolds => k == ConstTrue case NeverHolds => k == ConstFalse case Holds(_) => k == Varies
  }

  lemma {:induction false} FoldIsStatic(c: Condition, schema: Schema, d: Dialect, n: nat)
    requires Fold(c, schema, d, n).Ok?
    ensures Agrees(Fold(c, schema, d, n).value, Static(c))
  {
    hide BasicTree, AllArgs, Number;
    match c {
      case And(l, r) => FoldIsStatic(l, schema, d, n); FoldIsStatic(r, schema, d, n + |AllArgs(l, schema, d)|);
      case Or(l, r) => FoldIsStatic(l, schema, d, n); FoldIsStatic(r, schema, d, n + |AllArgs(l, schema, d)|);
      case Not(x) => FoldIsStatic(x, schema, d, n);
      case _ =>
    }
  }

  // ----- Shapes

  ghost predicate SameShape<A, B>(a: Tree<A>, b: Tree<B>, d: Dialect)
  {
    (WellShaped(a) <==> WellShaped(b)) && (Readable(a, d) <==> Readable(b, d))
  }

  ghost predicate AllWellShaped<A>(kids: seq<Tree<A>>) { forall k :: 0 <= k < |kids| ==> WellShaped(kids[k]) }

  ghost predicate AllReadable<A>(kids: seq<Tree<A>>, d: Dialect)
  {
    forall k :: 0 <= k < |kids| ==> Readable(kids[k], d)
  }

  lemma SameShapes<A, B>(a: seq<Tree<A>>, b: seq<Tree<B>>, d: Dialect)
    requires |a| == |b| && forall k :: 0 <= k < |a| ==> SameShape(a[k], b[k], d)
    ensures (AllWellShaped(a) <==> AllWellShaped(b)) && (AllReadable(a, d) <==> AllReadable(b, d))
  {
    hide WellShaped, Readable;
    forall k | 0 <= k < |a|
      ensures (WellShaped(a[k]) <==> WellShaped(b[k])) && (Readable(a[k], d) <==> Readable(b[k], d)) {
      assert SameShape(a[k], b[k], d);
    }
  }

  lemma KidsShape<A, B>(a: seq<Tree<A>>, b: seq<Tree<B>>, d: Dialect)
    requires |a| == |b| && forall k :: 0 <= k < |a| ==> SameShape(a[k], b[k], d)
    ensures SameShape(TAnd(a), TAnd(b), d) && SameShape(TOr(a), TOr(b), d)
  {
    SameShapes(a, b, d);
    assert WellShaped(TAnd(a)) <==> |a| >= 2 && AllWellShaped(a);
    assert WellShaped(TAnd(b)) <==> |b| >= 2 && AllWellShaped(b);
    assert WellShaped(TOr(a)) <==> |a| != 1 && AllWellShaped(a);
    assert WellShaped(TOr(b)) <==> |b| != 1 && AllWellShaped(b);
    assert Readable(TAnd(a), d) <==> AllReadable(a, d);
    assert Readable(TAnd(b), d) <==> AllReadable(b, d);
    assert Readable(TOr(a), d) <==> a != [] && AllReadable(a, d);
    assert Readable(TOr(b), d) <==> b != [] && AllReadable(b, d);
  }

  /** Replacing the arguments of a tree changes neither its shape nor whether it can be read. */
  lemma {:induction false} MapShape<A, B>(t: Tree<A>, f: A -> B, d: Dialect)
    ensures SameShape(MapTree(t, f), t, d)
  {
    match t {
      case TLeaf(l) => LeafShape(l, f, d);
      case TAnd(kids) =>
        hide SameShape;
        forall k | 0 <= k < |kids| ensures SameShape(MapKids(kids, f)[k], kids[k], d) { MapShape(kids[k], f, d); }
        KidsShape(MapKids(kids, f), kids, d);
      case TOr(kids) =>
        hide SameShape;
        forall k | 0 <= k < |kids| ensures SameShape(MapKids(kids, f)[k], kids[k], d) { MapShape(kids[k], f, d); }
        KidsShape(MapKids(kids, f), kids, d);
      case TNot(kid) => MapShape(kid, f, d);
    }
  }

  lemma LeafShape<A, B>(l: Leaf<A>, f: A -> B, d: Dialect)
    ensures SameShape(MapTree(TLeaf(l), f), TLeaf(l), d)
  {
  }

  lemma {:induction false} MapCompose<A, B, C>(t: Tree<A>, f: A -> B, g: B -> C, h: A -> C)
    requires forall a :: a in TreeArgs(t) ==> g(f(a)) == h(a)
    ensures MapTree(MapTree(t, f), g) == MapTree(t, h)
    decreases t, 1
  {
    match t {
      case TLeaf(l) =>
        if l.InList? {
          assert forall k :: 0 <= k < |l.args| ==> l.args[k] in TreeArgs(t);
          assert MapLeaf(MapLeaf(l, f), g).args == MapLeaf(l, h).args;
        } else if l.Compare? || l.HasElement? || l.LikePattern? {
          assert l.arg in TreeArgs(t);
        }
      case TAnd(kids) => MapComposeKids(t, kids, f, g, h);
      case TOr(kids) => MapComposeKids(t, kids, f, g, h);
      case TNot(kid) => MapCompose(kid, f, g, h);
    }
  }

  lemma {:induction false} MapComposeKids<A, B, C>(context: Tree<A>, kids: seq<Tree<A>>,
          f: A -> B, g: B -> C, h: A -> C)
    requires forall k :: 0 <= k < |kids| ==> kids[k] < context
    requires forall a :: a in KidArgs(kids) ==> g(f(a)) == h(a)
    ensures MapKids(MapKids(kids, f), g) == MapKids(kids, h)
    decreases context, 0, |kids|
  {
    if kids != [] {
      MapCompose(kids[0], f, g, h);
      MapComposeKids(context, kids[1..], f, g, h);
      assert MapKids(kids, f)[1..] == MapKids(kids[1..], f);
    }
  }

  function ValueOf(s: Slot): Val { s.value }

  /** Numbering keeps the values, and gives them the places from `n` on. */
  lemma {:induction false} NumberedArgs(t: Tree<Val>, n: nat)
    ensures |TreeArgs(Number(t, n))| == |TreeArgs(t)|
    ensures forall i :: 0 <= i < |TreeArgs(t)| ==> TreeArgs(Number(t, n))[i] == Slot(TreeArgs(t)[i], n + i)
    decreases t, 1
  {
    match t {
      case TLeaf(l) =>
      case TAnd(kids) => NumberedKidArgs(t, kids, n);
      case TOr(kids) => NumberedKidArgs(t, kids, n);
      case TNot(kid) => NumberedArgs(kid, n);
    }
  }

  lemma {:induction false} NumberedKidArgs(context: Tree<Val>, kids: seq<Tree<Val>>, n: nat)
    requires forall k :: 0 <= k < |kids| ==> kids[k] < context
    ensures |KidArgs(NumberKids(kids, n))| == |KidArgs(kids)|
    ensures forall i :: 0 <= i < |KidArgs(kids)| ==> KidArgs(NumberKids(kids, n))[i] == Slot(KidArgs(kids)[i], n + i)
    decreases context, 0, |kids|
  {
    hide TreeArgs, Number;
    if kids != [] {
      var m := n + |TreeArgs(kids[0])|;
      NumberedArgs(kids[0], n);
      NumberedKidArgs(context, kids[1..], m);
      assert NumberKids(kids, n)[1..] == NumberKids(kids[1..], m);
      var a, b := TreeArgs(kids[0]), KidArgs(kids[1..]);
      var u, v := TreeArgs(Number(kids[0], n)), KidArgs(NumberKids(kids[1..], m));
      assert KidArgs(kids) == a + b && KidArgs(NumberKids(kids, n)) == u + v;
      hide KidArgs;
      forall i | 0 <= i < |a + b| ensures (u + v)[i] == Slot((a + b)[i], n + i) {
        if i >= |a| { assert (a + b)[i] == b[i - |a|] && (u + v)[i] == v[i - |a|]; }
      }
    }
  }

  lemma {:induction false} NumberedValues(t: Tree<Val>, n: nat)
    ensures MapTree(Number(t, n), ValueOf) == t
    decreases t, 1
  {
    match t {
      case TLeaf(l) =>
        if l.InList? { assert MapLeaf(NumberLeaf(l, n), ValueOf).args == l.args; }
      case TAnd(kids) => NumberedKidValues(t, kids, n);
      case TOr(kids) => NumberedKidValues(t, kids, n);
      case TNot(kid) => NumberedValues(kid, n);
    }
  }

  lemma {:induction false} NumberedKidValues(context: Tree<Val>, kids: seq<Tree<Val>>, n: nat)
    requires forall k :: 0 <= k < |kids| ==> kids[k] < context
    ensures MapKids(NumberKids(kids, n), ValueOf) == kids
    decreases context, 0, |kids|
  {
    if kids != [] {
      NumberedValues(kids[0], n);
      NumberedKidValues(context, kids[1..], n + |TreeArgs(kids[0])|);
      assert NumberKids(kids, n)[1..] == NumberKids(kids[1..], n + |TreeArgs(kids[0])|);
    }
  }

  // ----- Places of the arguments that folding keeps

  /** The `i`-th kept argument is the `i`-th collected one. */
  predicate InOrder(kept: seq<Slot>, all: seq<Val>, n: nat)
  {
    |kept| == |all| && forall i :: 0 <= i < |kept| ==> kept[i] == Slot(all[i], n + i)
  }

  /** Every kept argument stands where its place says. */
  predicate InPlace(kept: seq<Slot>, all: seq<Val>, n: nat)
  {
    forall i :: 0 <= i < |kept| ==> n <= kept[i].index < n + |all| && all[kept[i].index - n] == kept[i].value
  }

  function KeptArgs(f: Folded): seq<Slot> { if f.Holds? then TreeArgs(f.tree) else [] }

  /** The arguments `all` were collected from place `n` on, and folding keeps `kept` of them. */
  ghost predicate Placed(kept: seq<Slot>, all: seq<Val>, n: nat, nothingDropped: bool)
  {
    && InPlace(kept, all, n)
    && |kept| <= |all|
    && (|kept| == |all| <==> nothingDropped)
    && (nothingDropped ==> InOrder(kept, all, n))
  }

  lemma PlacedBoth(keptL: seq<Slot>, allL: seq<Val>, keptR: seq<Slot>, allR: seq<Val>, n: nat, l: bool, r: bool)
    requires Placed(keptL, allL, n, l) && Placed(keptR, allR, n + |allL|, r)
    ensures Placed(keptL + keptR, allL + allR, n, l && r)
  {
    InPlaceBoth(keptL, allL, keptR, allR, n);
    if l && r { InOrderBoth(keptL, allL, keptR, allR, n); }
    hide InPlace, InOrder;
  }

  lemma InPlaceBoth(keptL: seq<Slot>, allL: seq<Val>, keptR: seq<Slot>, allR: seq<Val>, n: nat)
    requires InPlace(keptL, allL, n) && InPlace(keptR, allR, n + |allL|)
    ensures InPlace(keptL + keptR, allL + allR, n)
  {
    var kept, all := keptL + keptR, allL + allR;
    forall i | 0 <= i < |kept| ensures n <= kept[i].index < n + |all| && all[kept[i].index - n] == kept[i].value {
      if i < |keptL| { assert kept[i] == keptL[i]; } else { assert kept[i] == keptR[i - |keptL|]; }
    }
  }

  lemma InOrderBoth(keptL: seq<Slot>, allL: seq<Val>, keptR: seq<Slot>, allR: seq<Val>, n: nat)
    requires InOrder(keptL, allL, n) && InOrder(keptR, allR, n + |allL|)
    ensures InOrder(keptL + keptR, allL + allR, n)
  {
    var kept, all := keptL + keptR, allL + allR;
    forall i | 0 <= i < |kept| ensures kept[i] == Slot(all[i], n + i) {
      if i < |keptL| { assert kept[i] == keptL[i]; } else { assert kept[i] == keptR[i - |keptL|]; }
    }
  }

  lemma PairOfTrees<A>(a: Tree<A>, b: Tree<A>)
    ensures TreeArgs(TAnd([a, b])) == TreeArgs(a) + TreeArgs(b) && TreeArgs(TOr([a, b])) == TreeArgs(a) + TreeArgs(b)
  {
    assert [a, b][1..] == [b] && [b][1..] == [];
    assert KidArgs([b]) == TreeArgs(b) + KidArgs<A>([]);
    assert KidArgs([a, b]) == TreeArgs(a) + KidArgs([b]);
  }

  lemma FoldedBoth(fl: Folded, fr: Folded)
    ensures FoldAnd(fl, fr).Holds? ==> KeptArgs(FoldAnd(fl, fr)) == KeptArgs(fl) + KeptArgs(fr)
    ensures FoldOr(fl, fr).Holds? ==> KeptArgs(FoldOr(fl, fr)) == KeptArgs(fl) + KeptArgs(fr)
  {
    hide TreeArgs;
    if fl.Holds? && fr.Holds? { PairOfTrees(fl.tree, fr.tree); }
  }

  /** Folded arguments stay collected, so every kept one is where its placeholder looks; the kept
      ones are as many as the collected ones, and in their order, exactly when nothing was dropped. */
  lemma {:induction false} ArgumentPlaces(c: Condition, schema: Schema, d: Dialect, n: nat)
    requires Fold(c, schema, d, n).Ok?
    ensures Placed(KeptArgs(Fold(c, schema, d, n).value), AllArgs(c, schema, d), n, NothingDropped(c, schema, d))
    decreases c
  {
    hide BasicTree, Number, TreeArgs, Placed;
    FoldIsStatic(c, schema, d, n);
    if Static(c) != Varies {
      NothingKept(AllArgs(c, schema, d), n);
    } else if c.Not? {
      ArgumentPlaces(c.expr, schema, d, n);
      NotKeeps(Fold(c.expr, schema, d, n).value);
    } else if c.And? || c.Or? {
      ArgumentPlaces(c.left, schema, d, n);
      ArgumentPlaces(c.right, schema, d, n + |AllArgs(c.left, schema, d)|);
      BothPlaces(c, schema, d, n);
    } else {
      BasicPlaces(c, schema, d, n);
    }
  }

  lemma BothPlaces(c: Condition, schema: Schema, d: Dialect, n: nat)
    requires (c.And? || c.Or?) && Fold(c, schema, d, n).Ok? && Static(c) == Varies
    requires Placed(KeptArgs(Fold(c.left, schema, d, n).value), AllArgs(c.left, schema, d), n,
               NothingDropped(c.left, schema, d))
    requires var m := n + |AllArgs(c.left, schema, d)|;
             Placed(KeptArgs(Fold(c.right, schema, d, m).value), AllArgs(c.right, schema, d), m,
                 NothingDropped(c.right, schema, d))
    ensures Placed(KeptArgs(Fold(c, schema, d, n).value), AllArgs(c, schema, d), n, NothingDropped(c, schema, d))
  {
    hide Fold, Number, TreeArgs, Placed, FoldAnd, FoldOr, KeptArgs, Static, AllArgs, NothingDropped;
    BothFold(c, schema, d, n);
    VaryingHolds(c, schema, d, n);
    BothFolded(c.And?, Fold(c.left, schema, d, n).value,
        Fold(c.right, schema, d, n + |AllArgs(c.left, schema, d)|).value,
               AllArgs(c.left, schema, d), AllArgs(c.right, schema, d), n,
               NothingDropped(c.left, schema, d), NothingDropped(c.right, schema, d));
  }

  lemma VaryingHolds(c: Condition, schema: Schema, d: Dialect, n: nat)
    requires (c.And? || c.Or?) && Fold(c, schema, d, n).Ok? && Static(c) == Varies
    ensures Fold(c, schema, d, n).value.Holds?
    ensures NothingDropped(c, schema, d) == (NothingDropped(c.left, schema, d) && NothingDropped(c.right, schema, d))
  {
    FoldIsStatic(c, schema, d, n);
    hide Fold;
  }

  lemma BothFolded(both: bool, fl: Folded, fr: Folded, allL: seq<Val>, allR: seq<Val>, n: nat, l: bool, r: bool)
    requires Placed(KeptArgs(fl), allL, n, l) && Placed(KeptArgs(fr), allR, n + |allL|, r)
    ensures var f := if both then FoldAnd(fl, fr) else FoldOr(fl, fr);
            f.Holds? ==> Placed(KeptArgs(f), allL + allR, n, l && r)
  {
    hide TreeArgs, Placed;
    FoldedBoth(fl, fr);
    PlacedBoth(KeptArgs(fl), allL, KeptArgs(fr), allR, n, l, r);
    hide KeptArgs;
  }

  lemma BothFold(c: Condition, schema: Schema, d: Dialect, n: nat)
    requires (c.And? || c.Or?) && Fold(c, schema, d, n).Ok?
    ensures Fold(c.left, schema, d, n).Ok? && Fold(c.right, schema, d, n + |AllArgs(c.left, schema, d)|).Ok?
    ensures var fl, fr := Fold(c.left, schema, d, n).value,
            Fold(c.right, schema, d, n + |AllArgs(c.left, schema, d)|).value;
            Fold(c, schema, d, n).value == if c.And? then FoldAnd(fl, fr) else FoldOr(fl, fr)
    ensures AllArgs(c, schema, d) == AllArgs(c.left, schema, d) + AllArgs(c.right, schema, d)
  {
    hide FoldAnd, FoldOr;
  }

  lemma BasicPlaces(c: Condition, schema: Schema, d: Dialect, n: nat)
    requires IsBasic(c) && Fold(c, schema, d, n).Ok?
    ensures Placed(KeptArgs(Fold(c, schema, d, n).value), AllArgs(c, schema, d), n, true)
  {
    hide Fold, AllArgs, TreeArgs, Number, Placed;
    var t := FoldOfBasic(c, schema, d, n);
    TreePlaces(t, n);
  }

  lemma TreePlaces(t: Tree<Val>, n: nat)
    ensures Placed(TreeArgs(Number(t, n)), TreeArgs(t), n, true)
  {
    hide TreeArgs, Number;
    NumberedArgs(t, n);
  }

  lemma FoldOfBasic(c: Condition, schema: Schema, d: Dialect, n: nat) returns (t: Tree<Val>)
    requires IsBasic(c) && Fold(c, schema, d, n).Ok?
    ensures BasicTree(c, schema, d) == Ok(t)
    ensures Fold(c, schema, d, n) == Ok(Holds(Number(t, n))) && AllArgs(c, schema, d) == TreeArgs(t)
  {
    hide BasicTree, Number, TreeArgs;
    t := BasicTree(c, schema, d).value;
  }

  lemma NothingKept(all: seq<Val>, n: nat)
    ensures Placed([], all, n, all == [])
  {
  }

  lemma NotKeeps(f: Folded)
    ensures KeptArgs(FoldNot(f)) == KeptArgs(f)
  {
  }

  // ----- Folded trees can be printed and, without empty lists, read

  lemma NumberedShape(t: Tree<Val>, n: nat, d: Dialect)
    ensures WellShaped(Number(t, n)) <==> WellShaped(t)
    ensures Readable(Number(t, n), d) <==> Readable(t, d)
  {
    hide WellShaped, Readable, Number;
    NumberedValues(t, n);
    MapShape(Number(t, n), ValueOf, d);
  }

  lemma TagTreesShape(x: Operand, values: seq<Val>, d: Dialect)
    requires forall v :: v in values ==> v.VStr?
    ensures forall k :: 0 <= k < |values| ==>
              WellShaped(ListedTagTrees(x, values, d)[k]) && Readable(ListedTagTrees(x, values, d)[k], d)
  {
    forall k | 0 <= k < |values|
      ensures WellShaped(ListedTagTree(x, values[k].s, d)) && Readable(ListedTagTree(x, values[k].s, d), d) {
    }
  }

  lemma {:induction false} ListedLength(values: seq<ValueExpr>, strings: bool)
    ensures ListedValues(values, strings).Ok? ==> |ListedValues(values, strings).value| == |values|
  {
    if values != [] { ListedLength(values[1..], strings); }
  }

  lemma InShape(lhs: ValueExpr, values: seq<ValueExpr>, schema: Schema, d: Dialect)
    requires InTree(lhs, values, schema, d).Ok?
    ensures var t := InTree(lhs, values, schema, d).value;
            && WellShaped(t)
            && (Readable(t, d) <==> values != [] || (d == SQLite && lhs.name != "tag"))
  {
    ListedLength(values, true);
    ListedLength(values, false);
    if lhs.name == "tag" {
      ListedStrings(values);
      TagTreesShape(JsonExpr(ResolveAlias(schema, "tag").value), ListedValues(values, true).value, d);
    }
  }

  lemma ExistsShape(c: Condition, schema: Schema, d: Dialect)
    requires c.Exists? && BasicTree(c, schema, d).Ok?
    ensures var t := BasicTree(c, schema, d).value; WellShaped(t) && Readable(t, d)
  {
    var t := BasicTree(c, schema, d).value;
    assert WellShaped(t.kids[0]) && Readable(t.kids[0], d);
    assert forall k :: 0 <= k < |t.kids| ==> t.kids[k] == t.kids[0] || t.kids[k].TLeaf?;
  }

  lemma BasicShape(c: Condition, schema: Schema, d: Dialect)
    requires IsBasic(c) && BasicTree(c, schema, d).Ok?
    ensures var t := BasicTree(c, schema, d).value; WellShaped(t) && (Readable(t, d) <==> ListsFilled(c, d))
  {
    match c {
      case In(lhs, values) => InShape(lhs, values, schema, d);
      case Exists(_, p) => ExistsShape(c, schema, d);
      case _ =>
    }
  }

  lemma PairShape(a: Tree<Slot>, b: Tree<Slot>, d: Dialect)
    requires WellShaped(a) && WellShaped(b)
    ensures WellShaped(TAnd([a, b])) && WellShaped(TOr([a, b]))
    ensures (Readable(TAnd([a, b]), d) <==> Readable(a, d) && Readable(b, d))
            && (Readable(TOr([a, b]), d) <==> Readable(a, d) && Readable(b, d))
  {
    var kids := [a, b];
    assert kids[0] == a && kids[1] == b;
    assert forall k :: 0 <= k < |kids| ==> kids[k] == a || kids[k] == b;
  }

  /** A folded tree has the shape the printer needs, and its text can be read exactly when no empty
      list survived. */
  lemma {:induction false} FoldedShape(c: Condition, schema: Schema, d: Dialect, n: nat)
    requires Fold(c, schema, d, n).Ok? && Fold(c, schema, d, n).value.Holds?
    ensures var t := Fold(c, schema, d, n).value.tree; WellShaped(t) && (Readable(t, d) <==> ListsFilled(c, d))
    decreases c
  {
    hide BasicTree, Number, AllArgs, WellShaped, Readable;
    FoldIsStatic(c, schema, d, n);
    match c {
      case Not(x) =>
        FoldedShape(x, schema, d, n);
        NotShape(Fold(x, schema, d, n).value.tree, d);
      case And(l, r) =>
        var m := n + |AllArgs(l, schema, d)|;
        var fl, fr := Fold(l, schema, d, n).value, Fold(r, schema, d, m).value;
        FoldIsStatic(l, schema, d, n);
        FoldIsStatic(r, schema, d, m);
        if fl.Holds? { FoldedShape(l, schema, d, n); }
        if fr.Holds? { FoldedShape(r, schema, d, m); }
        if fl.Holds? && fr.Holds? { PairShape(fl.tree, fr.tree, d); }
      case Or(l, r) =>
        var m := n + |AllArgs(l, schema, d)|;
        var fl, fr := Fold(l, schema, d, n).value, Fold(r, schema, d, m).value;
        FoldIsStatic(l, schema, d, n);
        FoldIsStatic(r, schema, d, m);
        if fl.Holds? { FoldedShape(l, schema, d, n); }
        if fr.Holds? { FoldedShape(r, schema, d, m); }
        if fl.Holds? && fr.Holds? { PairShape(fl.tree, fr.tree, d); }
      case _ =>
        var t := FoldOfBasic(c, schema, d, n);
        BasicShape(c, schema, d);
        NumberedShape(t, n, d);
    }
  }

  lemma NotShape(t: Tree<Slot>, d: Dialect)
    ensures (WellShaped(TNot(t)) <==> WellShaped(t)) && (Readable(TNot(t), d) <==> Readable(t, d))
  {
  }

  // ----- Reading a statement together with its arguments

  function ResolveMark(p: Placeholder, k: nat): Placeholder { if p.Question? then Dollar(k + 1) else p }

  function QuestionsIn(l: Leaf<Placeholder>): nat { CountQuestions(LeafArgs(l)) }

  function CountQuestions(ps: seq<Placeholder>): nat
  {
    if ps == [] then 0 else (if ps[0].Question? then 1 else 0) + CountQuestions(ps[1..])
  }

  function ResolveMarks(ps: seq<Placeholder>, k: nat): (r: seq<Placeholder>)
    ensures |r| == |ps|
  {
    if ps == [] then [] else [ResolveMark(ps[0], k)] + ResolveMarks(ps[1..], k + if ps[0].Question? then 1 else 0)
  }

  function ResolveLeaf(l: Leaf<Placeholder>, k: nat): Leaf<Placeholder>
  {
    match l
    case Compare(x, op, p) => Compare(x, op, ResolveMark(p, k))
    case InList(x, ps) => InList(x, ResolveMarks(ps, k))
    case HasElement(x, p) => HasElement(x, ResolveMark(p, k))
    case LikePattern(x, p, anyCase) => LikePattern(x, ResolveMark(p, k), anyCase)
    case _ => l
  }

  /** The `?` of a text stand for the arguments in order: the first of them reads number `k + 1`. */
  function Resolve(ts: seq<Token<Placeholder>>, k: nat): (r: seq<Token<Placeholder>>)
    ensures |r| == |ts|
  {
    if ts == [] then []
    else if ts[0].LeafT? then [LeafT(ResolveLeaf(ts[0].leaf, k))] + Resolve(ts[1..], k + QuestionsIn(ts[0].leaf))
    else [ts[0]] + Resolve(ts[1..], k)
  }

  /** How many `?` a text has. */
  function Questions(ts: seq<Token<Placeholder>>): nat
  {
    if ts == [] then 0 else (if ts[0].LeafT? then QuestionsIn(ts[0].leaf) else 0) + Questions(ts[1..])
  }

  lemma ResolveCons(t: Token<Placeholder>, ts: seq<Token<Placeholder>>, k: nat)
    ensures var q := Questions([t]);
            Resolve([t] + ts, k) == Resolve([t], k) + Resolve(ts, k + q) && Questions([t] + ts) == q + Questions(ts)
  {
    hide ResolveLeaf, QuestionsIn;
    assert ([t] + ts)[1..] == ts && [t][1..] == [];
  }

  lemma {:induction false} ResolveConcat(a: seq<Token<Placeholder>>, b: seq<Token<Placeholder>>, k: nat)
    ensures Resolve(a + b, k) == Resolve(a, k) + Resolve(b, k + Questions(a))
    ensures Questions(a + b) == Questions(a) + Questions(b)
    decreases |a|, 1
  {
    if a == [] {
      assert a + b == b;
      assert Resolve(a, k) == [] && Questions(a) == 0;
      hide Resolve, Questions;
    } else {
      hide Resolve, Questions;
      ConcatStep(a, b, k);
    }
  }

  lemma {:induction false} ConcatStep(a: seq<Token<Placeholder>>, b: seq<Token<Placeholder>>, k: nat)
    requires a != []
    ensures Resolve(a + b, k) == Resolve(a, k) + Resolve(b, k + Questions(a))
    ensures Questions(a + b) == Questions(a) + Questions(b)
    decreases |a|, 0
  {
    hide Resolve, Questions;
    var t, rest := a[0], a[1..];
    var q := Questions([t]);
    assert a == [t] + rest;
    assert a + b == [t] + (rest + b);
    ResolveCons(t, rest, k);
    ResolveCons(t, rest + b, k);
    ResolveConcat(rest, b, k + q);
    var x, y, z := Resolve([t], k), Resolve(rest, k + q), Resolve(b, k + q + Questions(rest));
    assert x + (y + z) == (x + y) + z;
  }

  /** A placeholder reads its argument; one without an argument reads nothing. */
  function Look(all: seq<Val>): Placeholder -> Val
  {
    (p: Placeholder) => if p.Dollar? && 1 <= p.n <= |all| then all[p.n - 1] else VNull
  }

  /** The arguments of a tree take the `?` numbers from `k + 1` on. */
  predicate Follows(args: seq<Slot>, offset: nat, k: nat)
  {
    forall i :: 0 <= i < |args| ==> args[i].index + offset == k + i
  }

  predicate Ready(args: seq<Slot>, d: Dialect, offset: nat, k: nat) { d == Postgres || Follows(args, offset, k) }

  lemma {:induction false} ResolveSlots(args: seq<Slot>, d: Dialect, offset: nat, k: nat)
    ensures var marks := seq(|args|, i requires 0 <= i < |args| => Mark(d, offset, args[i].index));
            && (Ready(args, d, offset, k) ==>
                ResolveMarks(marks, k) ==
                  seq(|args|, i requires 0 <= i < |args| => Mark(Postgres, offset, args[i].index)))
            && CountQuestions(marks) == (if d == Postgres then 0 else |args|)
    decreases |args|
  {
    if args != [] {
      var rest := args[1..];
      assert forall i :: 0 <= i < |rest| ==> rest[i] == args[i + 1];
      ResolveSlots(rest, d, offset, if d == Postgres then k else k + 1);
      var marks := seq(|args|, i requires 0 <= i < |args| => Mark(d, offset, args[i].index));
      assert marks[1..] == seq(|rest|, i requires 0 <= i < |rest| => Mark(d, offset, rest[i].index));
    }
  }

  lemma ResolveOne(l: Leaf<Slot>, d: Dialect, offset: nat, k: nat)
    ensures Ready(LeafArgs(l), d, offset, k) ==>
              ResolveLeaf(MapLeaf(l, Marks(d, offset)), k) == MapLeaf(l, Marks(Postgres, offset))
    ensures QuestionsIn(MapLeaf(l, Marks(d, offset))) == (if d == Postgres then 0 else |LeafArgs(l)|)
  {
    assert l.Compare? || l.HasElement? || l.LikePattern? ==> LeafArgs(l)[0] == l.arg;
    match l {
      case InList(x, args) =>
        ResolveSlots(args, d, offset, k);
        assert MapLeaf(l, Marks(d, offset)).args ==
                 seq(|args|, i requires 0 <= i < |args| => Mark(d, offset, args[i].index));
        assert MapLeaf(l, Marks(Postgres, offset)).args ==
                 seq(|args|, i requires 0 <= i < |args| => Mark(Postgres, offset, args[i].index));
      case Compare(_, _, s) => OneQuestion(Mark(d, offset, s.index));
      case HasElement(_, s) => OneQuestion(Mark(d, offset, s.index));
      case LikePattern(_, s, _) => OneQuestion(Mark(d, offset, s.index));
      case _ =>
    }
  }

  lemma OneQuestion(p: Placeholder)
    ensures CountQuestions([p]) == if p.Question? then 1 else 0
  {
    assert [p][1..] == [];
  }

  ghost predicate Resolved(t: Tree<Slot>, d: Dialect, offset: nat, k: nat)
  {
    && (Ready(TreeArgs(t), d, offset, k) ==> Resolve(Text(t, d, offset), k) == Text(t, Postgres, offset))
    && Questions(Text(t, d, offset)) == (if d == Postgres then 0 else |TreeArgs(t)|)
  }

  ghost predicate ResolvedAll(kids: seq<Tree<Slot>>, sep: Token<Placeholder>, d: Dialect, offset: nat, k: nat)
  {
    && (Ready(KidArgs(kids), d, offset, k) ==>
          Resolve(PrintAll(MapKids(kids, Marks(d, offset)), sep), k) ==
              PrintAll(MapKids(kids, Marks(Postgres, offset)), sep))
    && Questions(PrintAll(MapKids(kids, Marks(d, offset)), sep)) == (if d == Postgres then 0 else |KidArgs(kids)|)
  }

  /** Around a text, tokens without placeholders change nothing. */
  lemma ResolveBetween(before: seq<Token<Placeholder>>, a: seq<Token<Placeholder>>, after: seq<Token<Placeholder>>,
          k: nat)
    requires forall i :: 0 <= i < |before| ==> !before[i].LeafT?
    requires forall i :: 0 <= i < |after| ==> !after[i].LeafT?
    ensures Resolve(before + a + after, k) == before + Resolve(a, k) + after
    ensures Questions(before + a + after) == Questions(a)
  {
    ResolveThree(before, a, after, k);
    hide Resolve, Questions;
    ResolveNone(before, k);
    ResolveNone(after, k + Questions(a));
  }

  /** Three texts in a row. */
  lemma ResolveThree(a: seq<Token<Placeholder>>, b: seq<Token<Placeholder>>, c: seq<Token<Placeholder>>, k: nat)
    ensures Resolve(a + b + c, k) ==
              Resolve(a, k) + Resolve(b, k + Questions(a)) + Resolve(c, k + Questions(a) + Questions(b))
    ensures Questions(a + b + c) == Questions(a) + Questions(b) + Questions(c)
  {
    hide Resolve, Questions;
    var ab := a + b;
    ResolveConcat(a, b, k);
    ResolveConcat(ab, c, k);
  }

  lemma {:induction false} ResolveNone(ts: seq<Token<Placeholder>>, k: nat)
    requires forall i :: 0 <= i < |ts| ==> !ts[i].LeafT?
    ensures Resolve(ts, k) == ts && Questions(ts) == 0
  {
    if ts != [] { ResolveNone(ts[1..], k); }
  }

  /** With the arguments in order, the positional text reads as the numbered one; the numbered text
      reads as itself anywhere. */
  lemma {:induction false} ResolveTree(t: Tree<Slot>, d: Dialect, offset: nat, k: nat)
    ensures Resolved(t, d, offset, k)
    decreases t, 1
  {
    hide PrintAll, Resolve, Questions;
    var f, g := Marks(d, offset), Marks(Postgres, offset);
    match t {
      case TLeaf(l) =>
        ResolveOne(l, d, offset, k);
        ResolveLeafToken(MapLeaf(l, f), k);
      case TAnd(kids) =>
        ResolveKids(t, kids, AndT, d, offset, k);
        ResolveBetween([LParen], PrintAll(MapKids(kids, f), AndT), [RParen], k);
      case TOr(kids) =>
        ResolveKids(t, kids, OrT, d, offset, k);
        ResolveBetween([LParen], PrintAll(MapKids(kids, f), OrT), [RParen], k);
      case TNot(kid) =>
        ResolveTree(kid, d, offset, k);
        ResolveBetween([NotT, LParen], Print(MapTree(kid, f)), [RParen], k);
    }
  }

  lemma ResolveLeafToken(l: Leaf<Placeholder>, k: nat)
    ensures Resolve([LeafT(l)], k) == [LeafT(ResolveLeaf(l, k))] && Questions([LeafT(l)]) == QuestionsIn(l)
  {
    assert [LeafT(l)][1..] == [];
    assert Resolve([], k + QuestionsIn(l)) == [];
    assert Questions([]) == 0;
  }

  lemma {:induction false} ResolveKids(context: Tree<Slot>, kids: seq<Tree<Slot>>, sep: Token<Placeholder>, d: Dialect,
          offset: nat, k: nat)
    requires forall i :: 0 <= i < |kids| ==> kids[i] < context
    requires sep == AndT || sep == OrT
    ensures ResolvedAll(kids, sep, d, offset, k)
    decreases context, 0, |kids|
  {
    hide Print, MapTree, TreeArgs, Follows, Resolve, Questions;
    var f, g := Marks(d, offset), Marks(Postgres, offset);
    if kids == [] {
      ResolveNone([], k);
    } else {
      var a, b := TreeArgs(kids[0]), KidArgs(kids[1..]);
      assert KidArgs(kids) == a + b;
      FollowsBoth(a, b, offset, k);
      ResolveTree(kids[0], d, offset, k);
      var mf, mg := MapKids(kids, f), MapKids(kids, g);
      assert mf[1..] == MapKids(kids[1..], f) && mg[1..] == MapKids(kids[1..], g);
      assert mf[0] == MapTree(kids[0], f) && mg[0] == MapTree(kids[0], g);
      if |kids| == 1 {
        assert b == [];
      } else {
        var k' := k + if d == Postgres then 0 else |a|;
        ResolveKids(context, kids[1..], sep, d, offset, k');
        JoinResolved(Print(mf[0]), sep, PrintAll(mf[1..], sep), k);
        assert PrintAll(mf, sep) == Print(mf[0]) + [sep] + PrintAll(mf[1..], sep);
        assert PrintAll(mg, sep) == Print(mg[0]) + [sep] + PrintAll(mg[1..], sep);
      }
    }
  }

  lemma FollowsBoth(a: seq<Slot>, b: seq<Slot>, offset: nat, k: nat)
    ensures Follows(a + b, offset, k) ==> Follows(a, offset, k) && Follows(b, offset, k + |a|)
  {
    assert forall i :: 0 <= i < |a| ==> (a + b)[i] == a[i];
    assert forall i :: 0 <= i < |b| ==> (a + b)[|a| + i] == b[i];
  }

  lemma JoinResolved(a: seq<Token<Placeholder>>, sep: Token<Placeholder>, b: seq<Token<Placeholder>>, k: nat)
    requires !sep.LeafT?
    ensures Resolve(a + [sep] + b, k) == Resolve(a, k) + [sep] + Resolve(b, k + Questions(a))
    ensures Questions(a + [sep] + b) == Questions(a) + Questions(b)
  {
    ResolveThree(a, [sep], b, k);
    hide Resolve, Questions;
    ResolveNone([sep], k + Questions(a));
  }

  /** `args` were passed after `offset` others. */
  predicate PassedAt(all: seq<Val>, offset: nat, args: seq<Val>)
  {
    offset + |args| <= |all| && all[offset..offset + |args|] == args
  }

  /** The condition under which a dialect's placeholders read the right arguments: always when they
      are numbered, and when nothing was dropped if they are positional. */
  predicate Bindable(c: Condition, schema: Schema, d: Dialect)
  {
    d == Postgres || NothingDropped(c, schema, d)
  }

  /** Every placeholder of a rendered condition names the argument it was created for: whatever else
      is passed before and after, the text stands for the folded tree with its own values. */
  lemma PlaceholdersRead(c: Condition, schema: Schema, d: Dialect, offset: nat, all: seq<Val>)
    requires Fold(c, schema, d, 0).Ok? && Fold(c, schema, d, 0).value.Holds?
    requires PassedAt(all, offset, AllArgs(c, schema, d)) && Bindable(c, schema, d)
    ensures var t := Fold(c, schema, d, 0).value.tree;
            && Resolve(Text(t, d, offset), offset) == Text(t, Postgres, offset)
            && MapTree(MapTree(t, Marks(Postgres, offset)), Look(all)) == MapTree(t, ValueOf)
  {
    hide Fold, AllArgs, Text, Resolve, MapTree, TreeArgs, NothingDropped;
    var t, args := Fold(c, schema, d, 0).value.tree, AllArgs(c, schema, d);
    ArgumentPlaces(c, schema, d, 0);
    assert KeptArgs(Fold(c, schema, d, 0).value) == TreeArgs(t);
    ResolveTree(t, d, offset, offset);
    KeptAreRead(TreeArgs(t), args, offset, all);
    MapCompose(t, Marks(Postgres, offset), Look(all), ValueOf);
  }

  lemma KeptAreRead(kept: seq<Slot>, args: seq<Val>, offset: nat, all: seq<Val>)
    requires InPlace(kept, args, 0) && PassedAt(all, offset, args)
    ensures forall s :: s in kept ==> Look(all)(Marks(Postgres, offset)(s)) == ValueOf(s)
  {
    forall s | s in kept ensures Look(all)(Marks(Postgres, offset)(s)) == ValueOf(s) {
      var i :| 0 <= i < |kept| && kept[i] == s;
      assert all[offset..offset + |args|][s.index] == all[offset + s.index];
    }
  }
}
