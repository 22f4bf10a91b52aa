/** The prepass over the text of a filter: a bare number after a logical operator becomes a test. */
module FilterRewrite {
  import opened Wrappers
  import opened Strings

  predicate IsQuote(c: char) { c == '\'' || c == '"' }

  predicate IsBlank(c: char) { c == ' ' || c == '\t' }

  predicate IsSign(c: char) { c == '+' || c == '-' }

  predicate IsOperator(op: string) { op == "&&" || op == "||" }

  predicate OperatorAt(s: string, op: string)
    requires IsOperator(op)
  {
    |s| >= 2 && s[0] == op[0] && s[1] == op[1]
  }

  function BlankCount(s: string): (n: nat)
    ensures n <= |s|
  {
    if s == "" || !IsBlank(s[0]) then 0 else 1 + BlankCount(s[1..])
  }

  function DigitCount(s: string): (n: nat)
    ensures n <= |s|
  {
    if s == "" || !IsDigit(s[0]) then 0 else 1 + DigitCount(s[1..])
  }

  predicate StartsNumber(s: string) { s != "" && (IsSign(s[0]) || IsDigit(s[0])) }

  /** A sign, digits, or a sign with digits. */
  function NumberLength(s: string): (n: nat)
    ensures n <= |s| && (n > 0 <==> StartsNumber(s))
  {
    if s != "" && IsSign(s[0]) then 1 + DigitCount(s[1..]) else DigitCount(s)
  }

  /** The blanks a text starts with, the number after them, and what is left. */
  function Gap(t: string): string { t[..BlankCount(t)] }

  function AfterBlanks(t: string): string { t[BlankCount(t)..] }

  function Number(t: string): string { AfterBlanks(t)[..NumberLength(AfterBlanks(t))] }

  function Rest(t: string): (r: string)
    ensures |r| <= |t|
  {
    AfterBlanks(t)[NumberLength(AfterBlanks(t))..]
  }

  /** An operator outside quotes, followed by blanks and a number. */
  predicate NumericOperand(s: string, op: string, q: Option<char>)
    requires IsOperator(op)
  {
    q.None? && OperatorAt(s, op) && StartsNumber(AfterBlanks(s[2..]))
  }

  /** How much of the text is read at once: an escaped pair in quotes, an operator outside, else one
      character. `q` is the open quote. */
  function StepLength(s: string, op: string, q: Option<char>): (n: nat)
    requires s != "" && IsOperator(op)
    ensures 1 <= n <= |s|
  {
    if q.Some? then if s[0] == '\\' && |s| > 1 then 2 else 1
    else if OperatorAt(s, op) then 2 else 1
  }

  /** The open quote after that. */
  function StepQuote(s: string, q: Option<char>): Option<char>
    requires s != ""
  {
    if q.Some? then if s[0] == q.value && !(s[0] == '\\' && |s| > 1) then None else q
    else if IsQuote(s[0]) then Some(s[0]) else None
  }

  /** What takes the place of a number. */
  function Test(number: string): string { "(" + number + " != 0)" }

  /** The rewritten text. */
  function Rewritten(s: string, op: string, q: Option<char>): string
    requires IsOperator(op)
    decreases |s|
  {
    if s == "" then ""
    else if NumericOperand(s, op, q) then op + (Gap(s[2..]) + Test(Number(s[2..]))) + Rewritten(Rest(s[2..]), op, None)
    else s[..StepLength(s, op, q)] + Rewritten(s[StepLength(s, op, q)..], op, StepQuote(s, q))
  }

  /** No operator outside quotes is followed by blanks and a number. */
  predicate Settled(s: string, op: string, q: Option<char>)
    requires IsOperator(op)
    decreases |s|
  {
    s == "" || (!NumericOperand(s, op, q) && Settled(s[StepLength(s, op, q)..], op, StepQuote(s, q)))
  }

  /** The characters in quotes, with the quotes. */
  function Quoted(s: string, q: Option<char>): string
    decreases |s|
  {
    if s == "" then ""
    else if q.Some? then
      if s[0] == '\\' && |s| > 1 then s[..2] + Quoted(s[2..], q) else [s[0]] + Quoted(s[1..], StepQuote(s, q))
    else (if IsQuote(s[0]) then [s[0]] else "") + Quoted(s[1..], StepQuote(s, q))
  }

  // ----- Plain text

  /** Text without quotes and without characters of the operator. */
  predicate PlainFor(p: string, op: string) { forall k :: 0 <= k < |p| ==> !IsQuote(p[k]) && p[k] !in op }

  lemma PlainBoth(p: string, r: string, op: string)
    requires PlainFor(p, op) && PlainFor(r, op)
    ensures PlainFor(p + r, op)
  {
  }

  lemma PlainStep(s: string, op: string)
    requires IsOperator(op) && s != "" && !IsQuote(s[0]) && s[0] !in op
    ensures Rewritten(s, op, None) == [s[0]] + Rewritten(s[1..], op, None)
    ensures Settled(s, op, None) <==> Settled(s[1..], op, None)
  {
    assert !OperatorAt(s, op) by { assert op[0] in op; }
    hide AfterBlanks, StartsNumber, OperatorAt, IsOperator;
    assert StepLength(s, op, None) == 1 && StepQuote(s, None) == None && !NumericOperand(s, op, None);
    hide StepLength, StepQuote, NumericOperand, IsQuote;
    assert s[..1] == [s[0]];
  }

  lemma {:induction false} PlainText(p: string, r: string, op: string)
    requires IsOperator(op) && PlainFor(p, op)
    ensures Rewritten(p + r, op, None) == p + Rewritten(r, op, None)
    ensures Settled(p + r, op, None) <==> Settled(r, op, None)
  {
    hide Rewritten, Settled, IsQuote, IsOperator;
    if p == "" {
      assert p + r == r;
    } else {
      var s := p + r;
      assert s[0] == p[0] && s[1..] == p[1..] + r;
      PlainStep(s, op);
      PlainText(p[1..], r, op);
    }
  }

  lemma {:induction false} PlainQuoted(p: string, r: string, op: string)
    requires PlainFor(p, op)
    ensures Quoted(p + r, None) == Quoted(r, None)
  {
    if p == "" {
      assert p + r == r;
    } else {
      assert (p + r)[0] == p[0] && (p + r)[1..] == p[1..] + r;
      PlainQuoted(p[1..], r, op);
    }
  }

  lemma {:induction false} GapIsPlain(t: string, op: string)
    requires IsOperator(op)
    ensures PlainFor(Gap(t), op) && t == Gap(t) + AfterBlanks(t)
    ensures AfterBlanks(t) != "" ==> !IsBlank(AfterBlanks(t)[0])
  {
    if t != "" && IsBlank(t[0]) {
      GapIsPlain(t[1..], op);
      assert Gap(t) == [t[0]] + Gap(t[1..]);
      assert AfterBlanks(t) == AfterBlanks(t[1..]);
    }
  }

  lemma {:induction false} DigitsAreDigits(s: string)
    ensures forall k :: 0 <= k < DigitCount(s) ==> IsDigit(s[k])
  {
    if s != "" && IsDigit(s[0]) {
      DigitsAreDigits(s[1..]);
      assert forall k :: 0 < k < DigitCount(s) ==> s[k] == s[1..][k - 1];
    }
  }

  lemma NumberIsPlain(u: string, op: string)
    requires IsOperator(op)
    ensures PlainFor(u[..NumberLength(u)], op)
  {
    if u != "" && IsSign(u[0]) {
      DigitsAreDigits(u[1..]);
      assert forall k :: 0 < k < NumberLength(u) ==> u[k] == u[1..][k - 1];
    } else {
      DigitsAreDigits(u);
    }
  }

  /** The parts of the text after an operator. */
  lemma Parts(t: string, op: string)
    requires IsOperator(op)
    ensures t == Gap(t) + Number(t) + Rest(t)
    ensures PlainFor(Gap(t), op) && PlainFor(Number(t), op) && PlainFor(Gap(t) + Test(Number(t)), op)
  {
    hide BlankCount, NumberLength;
    GapIsPlain(t, op);
    NumberIsPlain(AfterBlanks(t), op);
    assert PlainFor("(", op) && PlainFor(" != 0)", op);
    hide PlainFor, Gap, AfterBlanks;
    PlainBoth("(", Number(t), op);
    PlainBoth("(" + Number(t), " != 0)", op);
    PlainBoth(Gap(t), Test(Number(t)), op);
  }

  // ----- One step

  /** Rewriting never shortens a text, and keeps its first character. */
  lemma {:induction false} FirstKept(s: string, op: string, q: Option<char>)
    requires IsOperator(op)
    ensures |Rewritten(s, op, q)| >= |s|
    ensures s != "" ==> Rewritten(s, op, q)[0] == s[0]
    ensures !Settled(s, op, q) ==> |Rewritten(s, op, q)| > |s|
    decreases |s|
  {
    hide Gap, Number, AfterBlanks, NumberLength, BlankCount, StartsNumber, Rest;
    if s != "" {
      if NumericOperand(s, op, q) {
        FirstKept(Rest(s[2..]), op, None);
        Parts(s[2..], op);
      } else {
        FirstKept(s[StepLength(s, op, q)..], op, StepQuote(s, q));
      }
    }
  }

  lemma {:induction false} SkipBlanks(t: string, v: string)
    requires v != "" ==> !IsBlank(v[0])
    ensures AfterBlanks(Gap(t) + v) == v
  {
    if t != "" && IsBlank(t[0]) {
      SkipBlanks(t[1..], v);
      var w := Gap(t) + v;
      assert w[0] == t[0] && w[1..] == Gap(t[1..]) + v;
      assert AfterBlanks(w) == AfterBlanks(w[1..]);
    } else {
      assert Gap(t) + v == v;
    }
  }

  /** Rewriting does not change whether blanks and a number come first. */
  lemma OperandKept(t: string, op: string)
    requires IsOperator(op)
    ensures StartsNumber(AfterBlanks(Rewritten(t, op, None))) <==> StartsNumber(AfterBlanks(t))
  {
    hide Gap, AfterBlanks, Rewritten, IsOperator;
    GapIsPlain(t, op);
    var u := AfterBlanks(t);
    PlainText(Gap(t), u, op);
    FirstKept(u, op, None);
    RewrittenNothing(op, None);
    SkipBlanks(t, Rewritten(u, op, None));
  }

  /** A rewritten operand starts with a parenthesis. */
  lemma RewrittenOperand(s: string, op: string, rest: string)
    requires IsOperator(op) && NumericOperand(s, op, None)
    ensures var p := Gap(s[2..]) + Test(Number(s[2..]));
            var r := op + p + rest;
            OperatorAt(r, op) && r[2..] == p + rest && !NumericOperand(r, op, None)
  {
    hide Gap, AfterBlanks, Number;
    var t := s[2..];
    var p := Gap(t) + Test(Number(t));
    var r := op + p + rest;
    assert r[2..] == p + rest;
    assert p + rest == Gap(t) + (Test(Number(t)) + rest);
    SkipBlanks(t, Test(Number(t)) + rest);
  }

  lemma StepsAlike(s: string, r: string, op: string, q: Option<char>)
    requires IsOperator(op) && s != "" && r != "" && s[0] == r[0] && (|r| > 1 <==> |s| > 1)
    requires StepLength(s, op, q) == 1 && |s| > 1 ==> s[1] == r[1]
    requires StepLength(s, op, q) == 2 ==> s[1] == r[1]
    ensures StepLength(r, op, q) == StepLength(s, op, q) && StepQuote(r, q) == StepQuote(s, q)
    ensures OperatorAt(r, op) <==> OperatorAt(s, op)
  {
  }

  /** A copied step is read the same way in the rewritten text. */
  lemma CopiedStep(s: string, op: string, q: Option<char>)
    requires IsOperator(op) && s != "" && !NumericOperand(s, op, q)
    ensures var n, r := StepLength(s, op, q), Rewritten(s, op, q);
            && r != ""
            && r == s[..n] + Rewritten(s[n..], op, StepQuote(s, q))
            && StepLength(r, op, q) == n && StepQuote(r, q) == StepQuote(s, q) && !NumericOperand(r, op, q)
            && r[n..] == Rewritten(s[n..], op, StepQuote(s, q))
            && r[0] == s[0] && (|s| > 1 <==> |r| > 1) && (|s| > 1 ==> r[1] == s[1])
  {
    hide AfterBlanks, StartsNumber;
    var n, r := StepLength(s, op, q), Rewritten(s, op, q);
    var rest := Rewritten(s[n..], op, StepQuote(s, q));
    FirstKept(s[n..], op, StepQuote(s, q));
    assert r == s[..n] + rest && r[n..] == rest;
    StepsAlike(s, r, op, q);
    if q.None? && OperatorAt(s, op) {
      OperandKept(s[2..], op);
    }
  }

  // ----- What rewriting achieves

  /** Afterwards no operator outside quotes is followed by a bare number. */
  lemma {:induction false} RewritingSettles(s: string, op: string, q: Option<char>)
    requires IsOperator(op)
    ensures Settled(Rewritten(s, op, q), op, q)
    decreases |s|
  {
    hide Gap, Number, AfterBlanks, StartsNumber, Rest, PlainFor;
    if s == "" {
    } else if NumericOperand(s, op, q) {
      var t := s[2..];
      var p, rest := Gap(t) + Test(Number(t)), Rewritten(Rest(t), op, None);
      RewritingSettles(Rest(t), op, None);
      Parts(t, op);
      PlainText(p, rest, op);
      RewrittenOperand(s, op, rest);
    } else {
      hide Rewritten;
      CopiedStep(s, op, q);
      RewritingSettles(s[StepLength(s, op, q)..], op, StepQuote(s, q));
    }
  }

  lemma {:induction false} SettledIsKept(s: string, op: string, q: Option<char>)
    requires IsOperator(op) && Settled(s, op, q)
    ensures Rewritten(s, op, q) == s
    decreases |s|
  {
    hide AfterBlanks, StartsNumber;
    if s != "" { SettledIsKept(s[StepLength(s, op, q)..], op, StepQuote(s, q)); }
  }

  /** Rewriting is the identity exactly on text where no operator outside quotes is followed by blanks
      and a sign or digit. */
  lemma IdentityExactlyWhenSettled(s: string, op: string)
    requires IsOperator(op)
    ensures Rewritten(s, op, None) == s <==> Settled(s, op, None)
  {
    FirstKept(s, op, None);
    if Settled(s, op, None) { SettledIsKept(s, op, None); }
  }

  /** Every quoted literal is copied as it is, escapes included. */
  lemma {:induction false} QuotedIsKept(s: string, op: string, q: Option<char>)
    requires IsOperator(op)
    ensures Quoted(Rewritten(s, op, q), q) == Quoted(s, q)
    decreases |s|
  {
    hide Gap, Number, AfterBlanks, StartsNumber, Rest, PlainFor, Quoted;
    if s == "" {
    } else if NumericOperand(s, op, q) {
      QuotedIsKept(Rest(s[2..]), op, None);
      NumericQuoted(s, op, Rewritten(Rest(s[2..]), op, None));
    } else {
      hide Rewritten;
      CopiedStep(s, op, q);
      QuotedIsKept(s[StepLength(s, op, q)..], op, StepQuote(s, q));
      QuotedStep(s, op, q);
      QuotedStep(Rewritten(s, op, q), op, q);
    }
  }

  lemma NumericQuoted(s: string, op: string, rest: string)
    requires IsOperator(op) && OperatorAt(s, op)
    ensures var t := s[2..];
            && Quoted(op + (Gap(t) + Test(Number(t))) + rest, None) == Quoted(rest, None)
            && Quoted(s, None) == Quoted(Rest(t), None)
  {
    hide Gap, Number, Rest, Quoted, PlainFor, Test;
    var t := s[2..];
    Parts(t, op);
    var p := Gap(t) + Test(Number(t));
    PlainQuoted(p, rest, op);
    assert op + p + rest == op + (p + rest);
    OperatorQuoted(op, p + rest);
    PlainBoth(Gap(t), Number(t), op);
    PlainQuoted(Gap(t) + Number(t), Rest(t), op);
    assert s == op + t;
    OperatorQuoted(op, t);
  }

  lemma OperatorQuoted(op: string, r: string)
    requires IsOperator(op)
    ensures Quoted(op + r, None) == Quoted(r, None)
  {
    assert (op + r)[1..] == [op[1]] + r && ([op[1]] + r)[1..] == r;
  }

  lemma QuotedStep(s: string, op: string, q: Option<char>)
    requires IsOperator(op) && s != ""
    ensures var n := StepLength(s, op, q);
            Quoted(s, q) == (if q.Some? || IsQuote(s[0]) then s[..n] else "") + Quoted(s[n..], StepQuote(s, q))
  {
    if q.None? && OperatorAt(s, op) {
      OperatorSplit(s, op);
      hide Quoted;
      OperatorQuoted(op, s[2..]);
      assert "" + Quoted(s[2..], None) == Quoted(s[2..], None);
    } else {
      assert s[..1] == [s[0]];
      hide IsOperator;
    }
  }

  // ----- Both operators

  lemma OperatorPlain(op: string, other: string)
    requires IsOperator(op) && IsOperator(other) && op != other
    ensures PlainFor(op, other)
  {
  }

  lemma OperatorSplit(s: string, op: string)
    requires IsOperator(op) && OperatorAt(s, op)
    ensures s == op + s[2..] && s[..2] == op && !IsQuote(s[0])
  {
  }

  /** Rewriting for one operator leaves the other settled. */
  lemma {:induction false} OtherStaysSettled(s: string, op: string, other: string, q: Option<char>)
    requires IsOperator(op) && IsOperator(other) && op != other && Settled(s, other, q)
    ensures Settled(Rewritten(s, op, q), other, q)
    decreases |s|
  {
    hide Gap, Number, AfterBlanks, StartsNumber, Rest, PlainFor, Rewritten, Test, IsOperator;
    if s == "" {
      assert Rewritten(s, op, q) == "" by { RewrittenNothing(op, q); }
    } else if q.None? && OperatorAt(s, op) {
      OperatorPlain(op, other);
      if NumericOperand(s, op, q) {
        NumericForOther(s, op, other);
        OtherStaysSettled(Rest(s[2..]), op, other, None);
      } else {
        CopiedStep(s, op, q);
        OperatorSplit(s, op);
        PlainText(op, s[2..], other);
        OtherStaysSettled(s[2..], op, other, None);
        PlainText(op, Rewritten(s[2..], op, None), other);
      }
    } else if q.None? && OperatorAt(s, other) {
      OperatorPlain(other, op);
      var t := s[2..];
      OperatorSplit(s, other);
      OtherStaysSettled(t, op, other, None);
      OperandKept(t, op);
      PlainText(other, t, op);
      assert Rewritten(s, op, q)[2..] == Rewritten(t, op, None);
    } else {
      CopiedStep(s, op, q);
      StepsAlike(s, Rewritten(s, op, q), other, q);
      OtherStaysSettled(s[StepLength(s, op, q)..], op, other, StepQuote(s, q));
    }
  }

  lemma RewrittenNothing(op: string, q: Option<char>)
    requires IsOperator(op)
    ensures Rewritten("", op, q) == ""
  {
  }

  lemma NumericForOther(s: string, op: string, other: string)
    requires IsOperator(op) && IsOperator(other) && op != other && NumericOperand(s, op, None)
    ensures Settled(s, other, None) ==> Settled(Rest(s[2..]), other, None)
    ensures Settled(Rewritten(Rest(s[2..]), op, None), other, None) ==> Settled(Rewritten(s, op, None), other, None)
  {
    hide Gap, Number, AfterBlanks, StartsNumber, Rest, PlainFor, Settled, Test;
    var t := s[2..];
    Parts(t, other);
    OperatorPlain(op, other);
    var before, after := op + (Gap(t) + Number(t)), op + (Gap(t) + Test(Number(t)));
    PlainBoth(Gap(t), Number(t), other);
    PlainBoth(op, Gap(t) + Number(t), other);
    PlainBoth(op, Gap(t) + Test(Number(t)), other);
    assert s == before + Rest(t) by { assert s == op + t; }
    PlainText(before, Rest(t), other);
    PlainText(after, Rewritten(Rest(t), op, None), other);
  }

  function Normalized(s: string): string
  {
    Rewritten(Rewritten(s, "&&", None), "||", None)
  }

  /** The prepass settles both operators, and doing it again changes nothing. */
  lemma NormalizingIsIdempotent(s: string)
    ensures Settled(Normalized(s), "&&", None) && Settled(Normalized(s), "||", None)
    ensures Normalized(Normalized(s)) == Normalized(s)
  {
    var t := Rewritten(s, "&&", None);
    RewritingSettles(s, "&&", None);
    OtherStaysSettled(t, "||", "&&", None);
    RewritingSettles(t, "||", None);
    SettledIsKept(Normalized(s), "&&", None);
    SettledIsKept(Normalized(s), "||", None);
  }

  /** The prepass keeps a text exactly when both operators are settled in it, and always keeps the
      quoted literals. */
  lemma NormalizingKeeps(s: string)
    ensures Normalized(s) == s <==> Settled(s, "&&", None) && Settled(s, "||", None)
    ensures Quoted(Normalized(s), None) == Quoted(s, None)
  {
    hide Rewritten, Settled, Quoted;
    var t := Rewritten(s, "&&", None);
    FirstKept(s, "&&", None);
    FirstKept(t, "||", None);
    if Settled(s, "&&", None) { SettledIsKept(s, "&&", None); }
    if Settled(t, "||", None) { SettledIsKept(t, "||", None); }
    QuotedIsKept(s, "&&", None);
    QuotedIsKept(t, "||", None);
  }

  // ----- The scanner

  method RewriteNumericLogicalOperand(expr: string, op: string) returns (text: string)
    requires IsOperator(op)
    ensures text == Rewritten(expr, op, None)
  {
    hide Rewritten, Settled, IsOperator;
    text := "";
    var n := |expr|;
    var i := 0;
    var inQuote: Option<char> := None;
    while i < n
      invariant 0 <= i <= n
      invariant text + Rewritten(expr[i..], op, inQuote) == Rewritten(expr, op, None)
    {
      var ch := expr[i];
      ghost var s := expr[i..];
      CopyStep(s, op, inQuote);
      Prefix(s, op);
      assert s[0] == ch && s[1..] == expr[i + 1..];
      if inQuote.Some? {
        if ch == '\\' && i + 1 < n {
          assert s[1] == expr[i + 1] && s[2..] == expr[i + 2..];
          Copied(text, ch, [s[1]] + Rewritten(s[2..], op, inQuote));
          Copied(text + [ch], s[1], Rewritten(s[2..], op, inQuote));
        } else {
          Copied(text, ch, Rewritten(s[1..], op, if ch == inQuote.value then None else inQuote));
        }
        text := text + [ch];
        if ch == '\\' && i + 1 < n {
          text := text + [expr[i + 1]];
          i := i + 2;
          continue;
        }
        if ch == inQuote.value { inQuote := None; }
        i := i + 1;
        continue;
      }
      if IsQuote(ch) {
        NoOperatorInQuote(s, op);
        Copied(text, ch, Rewritten(s[1..], op, Some(ch)));
        inQuote := Some(ch);
        text := text + [ch];
        i := i + 1;
        continue;
      }
      if op <= expr[i..] {
        text, i := RewriteOperand(expr, op, i, text);
        continue;
      }
      Copied(text, ch, Rewritten(s[1..], op, None));
      text := text + [ch];
      i := i + 1;
    }
    RewrittenNothing(op, inQuote);
    assert expr[n..] == "";
  }

  lemma Prefix(s: string, op: string)
    requires IsOperator(op)
    ensures op <= s <==> OperatorAt(s, op)
  {
    if OperatorAt(s, op) { assert s[..2] == op; }
  }

  /** A character that is copied. */
  lemma Copied(text: string, c: char, rest: string)
    ensures text + [c] + rest == text + ([c] + rest)
  {
  }

  lemma NoOperatorInQuote(s: string, op: string)
    requires IsOperator(op) && s != "" && IsQuote(s[0])
    ensures !OperatorAt(s, op)
  {
  }

  /** Outside an operand, the first step of a text is copied. */
  lemma CopyStep(s: string, op: string, q: Option<char>)
    requires IsOperator(op) && s != ""
    ensures q.Some? && s[0] == '\\' && |s| > 1 ==> Rewritten(s, op, q) == [s[0]] + ([s[1]] + Rewritten(s[2..], op, q))
    ensures q.Some? && !(s[0] == '\\' && |s| > 1) ==>
              Rewritten(s, op, q) == [s[0]] + Rewritten(s[1..], op, if s[0] == q.value then None else q)
    ensures q.None? && !OperatorAt(s, op) ==>
              Rewritten(s, op, q) == [s[0]] + Rewritten(s[1..], op, if IsQuote(s[0]) then Some(s[0]) else None)
  {
    hide AfterBlanks, StartsNumber, IsOperator;
    assert s[..1] == [s[0]];
    if q.Some? && s[0] == '\\' && |s| > 1 {
      assert s[..2] == [s[0]] + [s[1]];
      Copied([s[0]], s[1], Rewritten(s[2..], op, q));
    }
  }

  /** An operator, the blanks after it, and a number if there is one. */
  method RewriteOperand(expr: string, op: string, start: nat, before: string) returns (text: string, i: nat)
    requires IsOperator(op) && start <= |expr| && OperatorAt(expr[start..], op)
    ensures start < i <= |expr|
    ensures text + Rewritten(expr[i..], op, None) == before + Rewritten(expr[start..], op, None)
  {
    assert |expr| >= start + 2;
    hide Rewritten, StartsNumber, IsOperator, OperatorAt, BlankCount, DigitCount, NumberLength, Gap, Number, Rest,
         AfterBlanks;
    var n := |expr|;
    ghost var s, t := expr[start..], expr[start + 2..];
    OperatorSplit(s, op);
    text := before + op;
    i := start + |op|;
    var wsStart := i;
    i := SkipWhile(expr, i, true);
    BlanksSkipped(expr, wsStart, i);
    text := text + expr[wsStart..i];
    var signStart := i;
    if i < n && IsSign(expr[i]) { i := i + 1; }
    i := SkipWhile(expr, i, false);
    NumberSkipped(expr, t, signStart, i);
    Operand(s, op, before, text);
    assert s[2..] == t;
    if i > signStart {
      text := text + ("(" + expr[signStart..i] + " != 0)");
    } else {
      text := text + expr[signStart..i];
    }
  }

  lemma BlanksSkipped(expr: string, from: nat, to: nat)
    requires from <= to <= |expr| && to == from + BlankCount(expr[from..])
    ensures expr[from..to] == Gap(expr[from..]) && expr[to..] == AfterBlanks(expr[from..])
  {
    hide BlankCount;
  }

  lemma NumberSkipped(expr: string, t: string, from: nat, to: nat)
    requires from <= to <= |expr| && expr[from..] == AfterBlanks(t)
    requires var digits := if from < |expr| && IsSign(expr[from]) then from + 1 else from;
             to == digits + DigitCount(expr[digits..])
    ensures expr[from..to] == Number(t) && expr[to..] == Rest(t) && (to > from <==> Number(t) != "")
  {
    hide DigitCount, AfterBlanks;
    var u := AfterBlanks(t);
    assert from < |expr| <==> u != "";
    if from < |expr| {
      assert u[0] == expr[from];
      assert u[1..] == expr[from + 1..];
    }
    assert to == from + NumberLength(u);
    hide NumberLength;
  }

  /** The first place from `start` on that holds no blank, or no digit. */
  method SkipWhile(expr: string, start: nat, blanks: bool) returns (i: nat)
    requires start <= |expr|
    ensures start <= i <= |expr|
    ensures i == start + if blanks then BlankCount(expr[start..]) else DigitCount(expr[start..])
  {
    i := start;
    while i < |expr| && if blanks then IsBlank(expr[i]) else IsDigit(expr[i])
      invariant start <= i <= |expr|
      invariant blanks ==> BlankCount(expr[start..]) == i - start + BlankCount(expr[i..])
      invariant !blanks ==> DigitCount(expr[start..]) == i - start + DigitCount(expr[i..])
    {
      assert expr[i..][1..] == expr[i + 1..];
      i := i + 1;
    }
  }

  lemma Operand(s: string, op: string, before: string, text: string)
    requires IsOperator(op) && OperatorAt(s, op) && text == before + op + Gap(s[2..])
    ensures var t := s[2..];
            && (Number(t) != "" ==>
                text + ("(" + Number(t) + " != 0)") + Rewritten(Rest(t), op, None) == before + Rewritten(s, op, None))
            && (Number(t) == "" ==> text + Number(t) + Rewritten(Rest(t), op, None) == before + Rewritten(s, op, None))
  {
    hide Gap, BlankCount, PlainFor, AfterBlanks, StartsNumber, NumberLength, IsOperator, Rewritten;
    var t := s[2..];
    OperandText(s, op);
    OperatorSplit(s, op);
    if Number(t) == "" {
      GapIsPlain(t, op);
      PlainText(Gap(t), AfterBlanks(t), op);
    }
  }

  lemma OperandText(s: string, op: string)
    requires IsOperator(op) && OperatorAt(s, op)
    ensures Number(s[2..]) != "" ==>
              Rewritten(s, op, None) == op + (Gap(s[2..]) + Test(Number(s[2..]))) + Rewritten(Rest(s[2..]), op, None)
    ensures Number(s[2..]) == "" ==>
              Rewritten(s, op, None) == s[..2] + Rewritten(s[2..], op, None) && Rest(s[2..]) == AfterBlanks(s[2..])
  {
    hide Gap, BlankCount;
    var u := AfterBlanks(s[2..]);
    assert Number(s[2..]) != "" <==> StartsNumber(u);
    hide AfterBlanks;
    OperatorSplit(s, op);
  }

  method NormalizeLegacyFilter(expr: string) returns (text: string)
    ensures text == Normalized(expr)
  {
    text := RewriteNumericLogicalOperand(expr, "&&");
    text := RewriteNumericLogicalOperand(text, "||");
  }

  // ----- What is rewritten

  /** Nothing but blanks and tabs. */
  predicate Blanks(s: string) { forall k :: 0 <= k < |s| ==> s[k] == ' ' || s[k] == '\t' }

  /** Nothing but decimal digits, if anything. */
  predicate Decimal(s: string) { forall k :: 0 <= k < |s| ==> '0' <= s[k] <= '9' }

  lemma {:induction false} GapIs(blanks: string, r: string)
    requires Blanks(blanks) && (r != "" ==> r[0] != ' ' && r[0] != '\t')
    ensures Gap(blanks + r) == blanks && AfterBlanks(blanks + r) == r
  {
    var t := blanks + r;
    if blanks == "" {
      assert t == r;
    } else {
      assert t[1..] == blanks[1..] + r;
      GapIs(blanks[1..], r);
      assert Gap(t) == [t[0]] + Gap(t[1..]) && AfterBlanks(t) == AfterBlanks(t[1..]);
    }
  }

  lemma {:induction false} DigitsAre(digits: string, r: string)
    requires Decimal(digits) && (r != "" ==> !('0' <= r[0] <= '9'))
    ensures DigitCount(digits + r) == |digits|
  {
    if digits == "" {
      assert digits + r == r;
    } else {
      assert (digits + r)[1..] == digits[1..] + r;
      DigitsAre(digits[1..], r);
    }
  }

  /** The number a text starts with, when it stands after blanks. */
  lemma NumberIs(sign: string, digits: string, r: string)
    requires sign in {"", "+", "-"} && Decimal(digits) && sign + digits != ""
    requires r != "" ==> !('0' <= r[0] <= '9')
    ensures var u := sign + digits + r;
            StartsNumber(u) && NumberLength(u) == |sign + digits| && u[..|sign + digits|] == sign + digits
            && u[|sign + digits|..] == r
    ensures (sign + digits)[0] != ' ' && (sign + digits)[0] != '\t'
  {
    var u := sign + digits + r;
    DigitsAre(digits, r);
    if sign == "" {
      assert u == digits + r && digits[0] == u[0];
    } else {
      assert u[1..] == digits + r;
    }
  }

  lemma OperandIs(blanks: string, sign: string, digits: string, r: string)
    requires Blanks(blanks) && sign in {"", "+", "-"} && Decimal(digits) && sign + digits != ""
    requires r != "" ==> !('0' <= r[0] <= '9')
    ensures var t := blanks + (sign + digits + r);
            Gap(t) == blanks && Number(t) == sign + digits && Rest(t) == r && StartsNumber(AfterBlanks(t))
  {
    hide BlankCount, NumberLength, Gap, AfterBlanks, StartsNumber, Decimal, Blanks;
    NumberIs(sign, digits, r);
    assert (sign + digits + r)[0] == (sign + digits)[0];
    GapIs(blanks, sign + digits + r);
  }

  /** Outside quotes, a number after an operator, with or without a sign and blanks before it, becomes a
      test, and reading goes on after it. */
  lemma NumberIsRewritten(p: string, op: string, blanks: string, sign: string, digits: string, r: string)
    requires op == "&&" || op == "||"
    requires forall k :: 0 <= k < |p| ==> p[k] != '\'' && p[k] != '"' && p[k] != '&' && p[k] != '|'
    requires Blanks(blanks) && sign in {"", "+", "-"} && Decimal(digits) && sign + digits != ""
    requires r != "" ==> !('0' <= r[0] <= '9')
    ensures Rewritten(p + (op + (blanks + (sign + digits + r))), op, None) ==
            p + (op + (blanks + ("(" + (sign + digits) + " != 0)")) + Rewritten(r, op, None))
  {
    var t := blanks + (sign + digits + r);
    var s := op + t;
    assert PlainFor(p, op);
    OperandIs(blanks, sign, digits, r);
    assert OperatorAt(s, op) && s[2..] == t;
    hide PlainFor, Gap, Number, AfterBlanks, Rest, StartsNumber, Blanks, Decimal, OperatorAt;
    PlainText(p, s, op);
  }

  /** Anything else after an operator and blanks is kept. */
  lemma OtherIsKept(op: string, blanks: string, r: string)
    requires op == "&&" || op == "||"
    requires Blanks(blanks) && (r != "" ==> r[0] !in " \t+-" && !('0' <= r[0] <= '9'))
    ensures Rewritten(op + (blanks + r), op, None) == op + (blanks + Rewritten(r, op, None))
  {
    var t := blanks + r;
    var s := op + t;
    GapIs(blanks, r);
    assert OperatorAt(s, op) && s[2..] == t && s[..2] == op && !StartsNumber(r);
    assert PlainFor(blanks, op);
    hide PlainFor, Gap, AfterBlanks, StartsNumber, Blanks;
    PlainText(blanks, r, op);
  }

  /** Text in quotes is kept, and reading goes on after it. */
  lemma QuotedTextIsKept(q: char, text: string, r: string, op: string)
    requires (op == "&&" || op == "||") && (q == '\'' || q == '"')
    requires forall k :: 0 <= k < |text| ==> text[k] != q && text[k] != '\\'
    ensures Rewritten([q] + (text + ([q] + r)), op, None) == [q] + (text + ([q] + Rewritten(r, op, None)))
  {
    var s := [q] + (text + ([q] + r));
    assert s[0] == q && s[1..] == text + ([q] + r) && s[..1] == [q];
    InsideQuotes(q, text, r, op);
    hide AfterBlanks, StartsNumber;
    assert !OperatorAt(s, op);
  }

  lemma {:induction false} InsideQuotes(q: char, text: string, r: string, op: string)
    requires (op == "&&" || op == "||") && (q == '\'' || q == '"')
    requires forall k :: 0 <= k < |text| ==> text[k] != q && text[k] != '\\'
    ensures Rewritten(text + ([q] + r), op, Some(q)) == text + ([q] + Rewritten(r, op, None))
  {
    hide Rewritten;
    var s, end := text + ([q] + r), [q] + Rewritten(r, op, None);
    if text == "" {
      assert s == [q] + r && s[1..] == r && s[..1] == [q];
      InQuoteStep(s, op, q);
      assert text + end == end;
    } else {
      assert s[1..] == text[1..] + ([q] + r) && s[0] == text[0] && s[..1] == text[..1];
      InQuoteStep(s, op, q);
      InsideQuotes(q, text[1..], r, op);
      assert text[..1] + (text[1..] + end) == text + end;
    }
  }

  lemma InQuoteStep(s: string, op: string, q: char)
    requires (op == "&&" || op == "||") && s != "" && s[0] != '\\'
    ensures Rewritten(s, op, Some(q)) == s[..1] + Rewritten(s[1..], op, if s[0] == q then None else Some(q))
  {
    hide AfterBlanks, StartsNumber, OperatorAt;
  }
}
