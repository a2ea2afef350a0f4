/** The aggregator's expression language: which strings are accepted, how they are taken apart, and
    what they compute. */
module Aggregator {
  import opened Options
  import Statistics

  // ----- abstract syntax and printing

  datatype Cmp = Gt | Eq | Lt | Ge | Le

  /** An optional comparison with a decimal literal. */
  datatype Mode = Plain | Compare(cmp: Cmp, whole: string, fraction: Option<string>)

  /** Counters joined by '+' and '-', compared or not; `paren` puts the sum in parentheses. */
  datatype Expr = Expr(names: seq<string>, ops: seq<char>, mode: Mode, paren: bool)

  predicate IsDigit(c: char) { '0' <= c <= '9' }

  predicate IsNumber(s: string)
  {
    s != "" && forall i :: 0 <= i < |s| ==> IsDigit(s[i])
  }

  predicate IsParen(c: char) { c == '(' || c == ')' }

  predicate IsOp(c: char) { c == '+' || c == '-' }

  /** A counter as the grammar takes it: anything non-empty without parentheses. */
  predicate IsName(s: string)
  {
    s != "" && forall i :: 0 <= i < |s| ==> !IsParen(s[i])
  }

  predicate WellFormed(e: Expr)
  {
    && e.names != [] && |e.ops| == |e.names| - 1
    && (forall i :: 0 <= i < |e.names| ==> IsName(e.names[i]))
    && (forall i :: 0 <= i < |e.ops| ==> IsOp(e.ops[i]))
    && (e.mode.Compare? ==> IsNumber(e.mode.whole))
    && (e.mode.Compare? && e.mode.fraction.Some? ==> IsNumber(e.mode.fraction.value))
    && (e.mode.Plain? ==> !e.paren)
    && (e.mode.Compare? && |e.names| > 1 ==> e.paren)
  }

  function PrintTerm(name: string): string
  {
    "$(" + name + ")"
  }

  function PrintSum(names: seq<string>, ops: seq<char>): string
    requires names != [] && |ops| == |names| - 1
  {
    if |names| == 1 then PrintTerm(names[0])
    else PrintTerm(names[0]) + [ops[0]] + PrintSum(names[1..], ops[1..])
  }

  function PrintCmp(cmp: Cmp): string
  {
    match cmp
    case Gt => ">"
    case Eq => "="
    case Lt => "<"
    case Ge => ">="
    case Le => "<="
  }

  function PrintDecimal(whole: string, fraction: Option<string>): string
  {
    if fraction.None? then whole else whole + "." + fraction.value
  }

  function PrintMode(mode: Mode): string
  {
    if mode.Plain? then "" else PrintCmp(mode.cmp) + PrintDecimal(mode.whole, mode.fraction)
  }

  function Print(e: Expr): string
    requires WellFormed(e)
  {
    (if e.paren then "(" + PrintSum(e.names, e.ops) + ")" else PrintSum(e.names, e.ops)) + PrintMode(e.mode)
  }

  // ----- the accepting patterns

  /** How many characters come before the first parenthesis. */
  function NameLength(s: string): (n: nat)
    ensures n <= |s|
    ensures forall i :: 0 <= i < n ==> !IsParen(s[i])
    ensures n < |s| ==> IsParen(s[n])
  {
    if s == "" || IsParen(s[0]) then 0 else 1 + NameLength(s[1..])
  }

  /** Matches one counter and gives the rest. */
  function MatchTerm(s: string): (r: Option<string>)
    ensures r.Some? ==> |r.value| < |s|
  {
    if |s| < 2 || s[0] != '$' || s[1] != '(' then None
    else
      var n := NameLength(s[2..]);
      if n > 0 && 2 + n < |s| && s[2 + n] == ')' then Some(s[3 + n..]) else None
  }

  /** Matches counters joined by operators and gives the rest. */
  function MatchSum(s: string): Option<string>
    decreases |s|
  {
    var r := MatchTerm(s);
    if r.None? then None
    else if r.value != "" && IsOp(r.value[0]) then MatchSum(r.value[1..])
    else r
  }

  function DigitLength(s: string): (n: nat)
    ensures n <= |s|
    ensures forall i :: 0 <= i < n ==> IsDigit(s[i])
    ensures n < |s| ==> !IsDigit(s[n])
  {
    if s == "" || !IsDigit(s[0]) then 0 else 1 + DigitLength(s[1..])
  }

  predicate MatchDecimal(s: string)
  {
    var n := DigitLength(s);
    n > 0 && (n == |s| || (s[n] == '.' && IsNumber(s[n+1..])))
  }

  predicate MatchComparison(s: string)
  {
    if |s| >= 2 && (s[0] == '>' || s[0] == '<') && s[1] == '=' then MatchDecimal(s[2..])
    else s != "" && (s[0] == '>' || s[0] == '<' || s[0] == '=') && MatchDecimal(s[1..])
  }

  /** Counters joined by operators, to the end. */
  predicate Mode0(s: string) { MatchSum(s) == Some("") }

  /** One counter and a comparison. */
  predicate Mode1(s: string)
  {
    var r := MatchTerm(s);
    r.Some? && MatchComparison(r.value)
  }

  /** A parenthesised sum and a comparison. */
  predicate Mode2(s: string)
  {
    s != "" && s[0] == '(' &&
    var r := MatchSum(s[1..]);
    r.Some? && r.value != "" && r.value[0] == ')' && MatchComparison(r.value[1..])
  }

  const WIDE_OPEN: char := '\U{FF08}'
  const WIDE_CLOSE: char := '\U{FF09}'

  predicate ExpressionValid(s: string)
  {
    if WIDE_OPEN in s || WIDE_CLOSE in s then false
    else s == "$#" || Mode0(s) || Mode1(s) || Mode2(s) || IsNumber(s)
  }

  predicate NeedCompute(s: string)
  {
    exists i :: 0 <= i < |s| - 1 && s[i] == '$' && s[i+1] == '('
  }

  // ----- the patterns accept what is printed

  lemma {:induction false} NameLengthIs(name: string, rest: string)
    requires (forall i :: 0 <= i < |name| ==> !IsParen(name[i])) && rest != "" && IsParen(rest[0])
    ensures NameLength(name + rest) == |name|
  {
    if name != "" {
      NameLengthIs(name[1..], rest);
      assert (name + rest)[1..] == name[1..] + rest;
    }
  }

  lemma TermMatches(name: string, rest: string)
    requires IsName(name)
    ensures MatchTerm(PrintTerm(name) + rest) == Some(rest)
  {
    var s := PrintTerm(name) + rest;
    assert s[2..] == name + (")" + rest);
    NameLengthIs(name, ")" + rest);
    assert s[2 + |name|] == ')';
    assert s[3 + |name|..] == rest;
  }

  lemma {:induction false} SumMatches(names: seq<string>, ops: seq<char>, rest: string)
    requires names != [] && |ops| == |names| - 1
    requires forall i :: 0 <= i < |names| ==> IsName(names[i])
    requires forall i :: 0 <= i < |ops| ==> IsOp(ops[i])
    requires rest == "" || !IsOp(rest[0])
    ensures MatchSum(PrintSum(names, ops) + rest) == Some(rest)
  {
    if |names| == 1 {
      TermMatches(names[0], rest);
    } else {
      SumMatches(names[1..], ops[1..], rest);
      var tail := PrintSum(names[1..], ops[1..]) + rest;
      TermMatches(names[0], [ops[0]] + tail);
      PrintSumCons(names, ops, rest);
      assert ([ops[0]] + tail)[1..] == tail;
    }
  }

  lemma PrintSumCons(names: seq<string>, ops: seq<char>, rest: string)
    requires |names| > 1 && |ops| == |names| - 1
    ensures PrintSum(names, ops) + rest == PrintTerm(names[0]) + ([ops[0]] + (PrintSum(names[1..], ops[1..]) + rest))
  {
  }

  lemma {:induction false} DigitLengthIs(digits: string, rest: string)
    requires (forall i :: 0 <= i < |digits| ==> IsDigit(digits[i])) && (rest == "" || !IsDigit(rest[0]))
    ensures DigitLength(digits + rest) == |digits|
  {
    if digits != "" {
      DigitLengthIs(digits[1..], rest);
      assert (digits + rest)[1..] == digits[1..] + rest;
    }
  }

  lemma DecimalMatches(whole: string, fraction: Option<string>)
    requires IsNumber(whole) && (fraction.Some? ==> IsNumber(fraction.value))
    ensures var d := PrintDecimal(whole, fraction);
      MatchDecimal(d) && DigitLength(d) == |whole| && d[..|whole|] == whole && IsDigit(d[0])
    ensures fraction.Some? ==> PrintDecimal(whole, fraction)[|whole|+1..] == fraction.value
  {
    var rest := if fraction.None? then "" else "." + fraction.value;
    assert PrintDecimal(whole, fraction) == whole + rest;
    DigitLengthIs(whole, rest);
  }

  lemma SignMatches(cmp: Cmp, d: string)
    requires d != "" && IsDigit(d[0]) && MatchDecimal(d)
    ensures MatchComparison(PrintCmp(cmp) + d)
  {
    var s := PrintCmp(cmp) + d;
    assert s[|PrintCmp(cmp)|..] == d;
  }

  lemma ComparisonMatches(mode: Mode)
    requires mode.Compare? && IsNumber(mode.whole) && (mode.fraction.Some? ==> IsNumber(mode.fraction.value))
    ensures MatchComparison(PrintMode(mode))
  {
    DecimalMatches(mode.whole, mode.fraction);
    SignMatches(mode.cmp, PrintDecimal(mode.whole, mode.fraction));
  }

  lemma SumStartsWithDollar(names: seq<string>, ops: seq<char>)
    requires names != [] && |ops| == |names| - 1
    ensures var s := PrintSum(names, ops); |s| >= 3 && s[0] == '$' && s[1] == '('
  {
  }

  lemma PrintedNeedsCompute(e: Expr)
    requires WellFormed(e)
    ensures NeedCompute(Print(e))
  {
    SumStartsWithDollar(e.names, e.ops);
    var s, k := Print(e), if e.paren then 1 else 0;
    assert s[k] == '$' && s[k+1] == '(';
  }

  lemma PlainMatches(e: Expr)
    requires WellFormed(e) && e.mode.Plain?
    ensures Mode0(Print(e))
  {
    SumMatches(e.names, e.ops, "");
    assert Print(e) == PrintSum(e.names, e.ops) + "";
  }

  lemma SingleMatches(e: Expr)
    requires WellFormed(e) && e.mode.Compare? && !e.paren
    ensures Mode1(Print(e))
  {
    ComparisonMatches(e.mode);
    TermMatches(e.names[0], PrintMode(e.mode));
  }

  lemma ParenthesisedMatches(e: Expr)
    requires WellFormed(e) && e.paren
    ensures Mode2(Print(e))
  {
    ComparisonMatches(e.mode);
    SumMatches(e.names, e.ops, ")" + PrintMode(e.mode));
    Mode2Of(PrintSum(e.names, e.ops), PrintMode(e.mode));
  }

  lemma Mode2Of(sum: string, m: string)
    requires MatchSum(sum + (")" + m)) == Some(")" + m) && MatchComparison(m)
    ensures Mode2("(" + sum + ")" + m)
  {
    var s := "(" + sum + ")" + m;
    assert s[1..] == sum + (")" + m);
    assert (")" + m)[1..] == m;
  }

  lemma PrintedMatchesMode(e: Expr)
    requires WellFormed(e)
    ensures Mode0(Print(e)) || Mode1(Print(e)) || Mode2(Print(e))
  {
    if e.mode.Plain? {
      PlainMatches(e);
    } else if e.paren {
      ParenthesisedMatches(e);
    } else {
      SingleMatches(e);
    }
  }

  /** Every printed expression is accepted. */
  lemma PrintedIsAccepted(e: Expr)
    requires WellFormed(e) && WIDE_OPEN !in Print(e) && WIDE_CLOSE !in Print(e)
    ensures ExpressionValid(Print(e)) && NeedCompute(Print(e))
  {
    PrintedMatchesMode(e);
    PrintedNeedsCompute(e);
  }

  // ----- and nothing else

  lemma TermSound(s: string) returns (name: string)
    requires MatchTerm(s).Some?
    ensures IsName(name) && s == PrintTerm(name) + MatchTerm(s).value
  {
    var n := NameLength(s[2..]);
    name := s[2..][..n];
    assert s == s[..2] + s[2..2 + n] + s[2 + n..3 + n] + s[3 + n..];
  }

  lemma PrependTerm(name: string, r: string, names: seq<string>, ops: seq<char>, rest: string)
    requires names != [] && |ops| == |names| - 1 && r != "" && r[1..] == PrintSum(names, ops) + rest
    ensures PrintSum([name] + names, [r[0]] + ops) + rest == PrintTerm(name) + r
  {
    var names', ops' := [name] + names, [r[0]] + ops;
    assert names'[1..] == names && ops'[1..] == ops;
    PrintSumCons(names', ops', rest);
    assert r == [r[0]] + r[1..];
  }

  /** Names joined by one operator less. */
  ghost predicate SumParts(names: seq<string>, ops: seq<char>)
  {
    && names != [] && |ops| == |names| - 1
    && (forall i :: 0 <= i < |names| ==> IsName(names[i]))
    && (forall i :: 0 <= i < |ops| ==> IsOp(ops[i]))
  }

  lemma PrependParts(name: string, op: char, names: seq<string>, ops: seq<char>)
    requires SumParts(names, ops) && IsName(name) && IsOp(op)
    ensures SumParts([name] + names, [op] + ops)
  {
  }

  lemma {:induction false} SumSound(s: string) returns (names: seq<string>, ops: seq<char>)
    requires MatchSum(s).Some?
    ensures SumParts(names, ops) && s == PrintSum(names, ops) + MatchSum(s).value
    decreases |s|
  {
    var name := TermSound(s);
    var r := MatchTerm(s).value;
    if r != "" && IsOp(r[0]) {
      var names', ops' := SumSound(r[1..]);
      names, ops := [name] + names', [r[0]] + ops';
      PrependParts(name, r[0], names', ops');
      PrependTerm(name, r, names', ops', MatchSum(s).value);
    } else {
      names, ops := [name], [];
    }
  }

  lemma DecimalSound(s: string) returns (whole: string, fraction: Option<string>)
    requires MatchDecimal(s)
    ensures IsNumber(whole) && (fraction.Some? ==> IsNumber(fraction.value)) && s == PrintDecimal(whole, fraction)
  {
    var n := DigitLength(s);
    whole := s[..n];
    fraction := if n == |s| then None else Some(s[n+1..]);
    if n < |s| {
      assert s == s[..n] + [s[n]] + s[n+1..];
    }
  }

  lemma ComparisonSound(s: string) returns (mode: Mode)
    requires MatchComparison(s)
    ensures mode.Compare? && IsNumber(mode.whole) && (mode.fraction.Some? ==> IsNumber(mode.fraction.value))
    ensures PrintMode(mode) == s
  {
    var wide := |s| >= 2 && (s[0] == '>' || s[0] == '<') && s[1] == '=';
    var k := if wide then 2 else 1;
    var whole, fraction := DecimalSound(s[k..]);
    var cmp := if wide then (if s[0] == '>' then Ge else Le) else if s[0] == '>' then Gt else if s[0] == '<' then Lt else Eq;
    mode := Compare(cmp, whole, fraction);
    assert s[..k] == PrintCmp(cmp);
    assert s == s[..k] + s[k..];
  }

  lemma Mode0Sound(s: string) returns (e: Expr)
    requires Mode0(s)
    ensures WellFormed(e) && Print(e) == s
  {
    var names, ops := SumSound(s);
    e := Expr(names, ops, Plain, false);
  }

  lemma Mode1Sound(s: string) returns (e: Expr)
    requires Mode1(s)
    ensures WellFormed(e) && Print(e) == s
  {
    var name := TermSound(s);
    var mode := ComparisonSound(MatchTerm(s).value);
    e := Expr([name], [], mode, false);
  }

  lemma Mode2Sound(s: string) returns (e: Expr)
    requires Mode2(s)
    ensures WellFormed(e) && Print(e) == s
  {
    var names, ops := SumSound(s[1..]);
    var r := MatchSum(s[1..]).value;
    var mode := ComparisonSound(r[1..]);
    e := Expr(names, ops, mode, true);
    BracketedIs(s, PrintSum(names, ops), r);
  }

  lemma BracketedIs(s: string, sum: string, r: string)
    requires s != "" && s[0] == '(' && r != "" && r[0] == ')' && s[1..] == sum + r
    ensures s == "(" + sum + ")" + r[1..]
  {
    assert s == "(" + s[1..] && r == ")" + r[1..];
  }

  lemma ModeSound(s: string) returns (e: Expr)
    requires Mode0(s) || Mode1(s) || Mode2(s)
    ensures WellFormed(e) && Print(e) == s
  {
    if Mode0(s) {
      e := Mode0Sound(s);
    } else if Mode1(s) {
      e := Mode1Sound(s);
    } else {
      e := Mode2Sound(s);
    }
  }

  /** The accepted strings are exactly "$#", the digit strings and the printed expressions,
      in each case without full-width parentheses. */
  lemma AcceptedIff(s: string)
    ensures ExpressionValid(s) <==>
      WIDE_OPEN !in s && WIDE_CLOSE !in s &&
      (s == "$#" || IsNumber(s) || exists e :: WellFormed(e) && Print(e) == s)
  {
    if Mode0(s) || Mode1(s) || Mode2(s) {
      var e := ModeSound(s);
    }
    if e :| WellFormed(e) && Print(e) == s {
      PrintedMatchesMode(e);
    }
  }

  // ----- parsing

  predicate IsDelim(c: char) { c == '$' || c == '(' || c == ')' }

  /** Splits at maximal runs of '$', '(' and ')'. */
  function SplitCounter(s: string): (items: seq<string>)
    ensures items != []
  {
    if s == "" then [""]
    else
      var rest := SplitCounter(s[1..]);
      if !IsDelim(s[0]) then [[s[0]] + rest[0]] + rest[1..]
      else if |s| > 1 && IsDelim(s[1]) then rest
      else [""] + rest
  }

  /** Operands are the items at even positions, operators those at odd ones, between the first and
      the last item; the last is the comparison. */
  method Parse(expression: string, needCompute: bool)
    returns (operands: seq<string>, operators: seq<string>, computeMode: string)
    requires needCompute ==> NeedCompute(expression)
    ensures !needCompute ==> operands == [] && operators == [] && computeMode == ""
    ensures needCompute ==> Parsed(expression, operands, operators, computeMode)
  {
    operands, operators, computeMode := [], [], "";
    if !needCompute {
      return;
    }
    var items := SplitCounter(expression);
    DelimSplits(expression);
    var count := |items|;
    operands, operators := Alternate(items[1..count-1]);
    computeMode := items[count-1];
  }

  method Alternate(middle: seq<string>) returns (operands: seq<string>, operators: seq<string>)
    ensures Weave(operands, operators) == middle
    ensures |operands| == |operators| || |operands| == |operators| + 1
  {
    operands, operators := [], [];
    for i := 0 to |middle|
      invariant Weave(operands, operators) == middle[..i]
      invariant |operands| == |operators| + i % 2
    {
      WeaveSnoc(operands, operators, middle[i]);
      assert middle[..i+1] == middle[..i] + [middle[i]];
      if i % 2 == 0 {
        operands := operands + [middle[i]];
      } else {
        operators := operators + [middle[i]];
      }
    }
    assert middle[..|middle|] == middle;
  }

  /** operands[0], operators[0], operands[1], .. */
  function Weave(operands: seq<string>, operators: seq<string>): seq<string>
  {
    if operands == [] then []
    else if operators == [] then [operands[0]]
    else [operands[0], operators[0]] + Weave(operands[1..], operators[1..])
  }

  lemma {:induction false} WeaveSnoc(operands: seq<string>, operators: seq<string>, x: string)
    requires |operands| == |operators| || |operands| == |operators| + 1
    ensures |operands| == |operators| ==> Weave(operands + [x], operators) == Weave(operands, operators) + [x]
    ensures |operands| == |operators| + 1 ==> Weave(operands, operators + [x]) == Weave(operands, operators) + [x]
  {
    if operands != [] && operators != [] {
      WeaveSnoc(operands[1..], operators[1..], x);
      assert (operands + [x])[1..] == operands[1..] + [x];
      assert (operators + [x])[1..] == operators[1..] + [x];
    }
  }

  lemma {:induction false} DelimSplits(s: string)
    ensures (exists i :: 0 <= i < |s| && IsDelim(s[i])) ==> |SplitCounter(s)| >= 2
  {
    if s != "" {
      DelimSplits(s[1..]);
      if i :| 0 <= i < |s| && IsDelim(s[i]) {
        if i > 0 { assert s[1..][i-1] == s[i]; }
        if |s| > 1 && IsDelim(s[1]) { assert s[1..][0] == s[1]; }
      }
    }
  }

  // ----- parsing inverts printing

  predicate IsWord(s: string)
  {
    s != "" && forall i :: 0 <= i < |s| ==> !IsDelim(s[i])
  }

  predicate AreDelims(s: string)
  {
    forall i :: 0 <= i < |s| ==> IsDelim(s[i])
  }

  lemma {:induction false} SplitWord(w: string, rest: string)
    requires forall i :: 0 <= i < |w| ==> !IsDelim(w[i])
    ensures SplitCounter(w + rest) == [w + SplitCounter(rest)[0]] + SplitCounter(rest)[1..]
  {
    if w == "" {
      var items := SplitCounter(rest);
      assert w + rest == rest && w + items[0] == items[0];
      assert items == [items[0]] + items[1..];
    } else {
      SplitWord(w[1..], rest);
      assert (w + rest)[1..] == w[1..] + rest;
      var first := SplitCounter(rest)[0];
      assert [w[0]] + (w[1..] + first) == w + first;
    }
  }

  lemma {:induction false} SplitDelims(d: string, rest: string)
    requires d != "" && AreDelims(d) && (rest == "" || !IsDelim(rest[0]))
    ensures SplitCounter(d + rest) == [""] + SplitCounter(rest)
  {
    assert (d + rest)[1..] == d[1..] + rest;
    if |d| > 1 {
      SplitDelims(d[1..], rest);
    } else {
      assert d[1..] + rest == rest;
    }
  }

  /** An opening run, a counter name, a closing run. */
  lemma SplitTerm(open: string, name: string, close: string, rest: string)
    requires open != "" && AreDelims(open) && IsWord(name)
    requires close != "" && AreDelims(close) && (rest == "" || !IsDelim(rest[0]))
    ensures SplitCounter(open + (name + (close + rest))) == ["", name] + SplitCounter(rest)
  {
    SplitWordThenDelims(name, close, rest);
    var tail := name + (close + rest);
    assert tail[0] == name[0];
    SplitDelims(open, tail);
    Regroup(name, SplitCounter(rest));
  }

  lemma Regroup(name: string, items: seq<string>)
    ensures [""] + ([name] + items) == ["", name] + items
  {
  }

  lemma SplitWordThenDelims(name: string, close: string, rest: string)
    requires IsWord(name)
    requires close != "" && AreDelims(close) && (rest == "" || !IsDelim(rest[0]))
    ensures SplitCounter(name + (close + rest)) == [name] + SplitCounter(rest)
  {
    SplitDelims(close, rest);
    SplitWord(name, close + rest);
    assert name + "" == name;
    assert ([""] + SplitCounter(rest))[1..] == SplitCounter(rest);
  }

  ghost function OpStrings(ops: seq<char>): seq<string>
  {
    seq(|ops|, i requires 0 <= i < |ops| => [ops[i]])
  }

  /** A printed sum after an opening run, before a closing run and a comparison. */
  lemma {:induction false} SplitSum(open: string, names: seq<string>, ops: seq<char>, close: string, m: string)
    requires names != [] && |ops| == |names| - 1
    requires forall i :: 0 <= i < |names| ==> IsWord(names[i])
    requires forall i :: 0 <= i < |ops| ==> IsOp(ops[i])
    requires AreDelims(open) && AreDelims(close)
    requires forall i :: 0 <= i < |m| ==> !IsDelim(m[i])
    ensures SplitCounter(open + (PrintSum(names, ops) + (close + m))) == [""] + Weave(names, OpStrings(ops)) + [m]
    decreases |names|
  {
    if |names| == 1 {
      SplitLast(open, names[0], close, m);
      assert Weave(names, OpStrings(ops)) == names;
    } else {
      var tail := PrintSum(names[1..], ops[1..]) + (close + m);
      SplitSum("", names[1..], ops[1..], close, m);
      assert "" + tail == tail;
      SplitOpTail(ops[0], tail, Weave(names[1..], OpStrings(ops[1..])), m);
      SplitTerm(open + "$(", names[0], ")", [ops[0]] + tail);
      SumAfterOpen(open, names, ops, close + m);
      WeaveCons(names, ops, m);
    }
  }

  lemma WeaveCons(names: seq<string>, ops: seq<char>, m: string)
    requires |names| > 1 && |ops| == |names| - 1
    ensures [""] + Weave(names, OpStrings(ops)) + [m]
         == ["", names[0]] + ([[ops[0]]] + Weave(names[1..], OpStrings(ops[1..])) + [m])
  {
    assert OpStrings(ops)[1..] == OpStrings(ops[1..]);
    RegroupParts(names[0], [ops[0]], Weave(names[1..], OpStrings(ops[1..])), m);
  }

  lemma RegroupParts(name: string, op: string, parts: seq<string>, m: string)
    ensures [""] + ([name, op] + parts) + [m] == ["", name] + ([op] + parts + [m])
  {
  }

  lemma SplitLast(open: string, name: string, close: string, m: string)
    requires IsWord(name) && AreDelims(open) && AreDelims(close)
    requires forall i :: 0 <= i < |m| ==> !IsDelim(m[i])
    ensures SplitCounter(open + (PrintTerm(name) + (close + m))) == ["", name, m]
  {
    SplitTerm(open + "$(", name, ")" + close, m);
    TermAfterOpen(open, name, close, m);
    SplitAlone(m);
  }

  lemma TermAfterOpen(open: string, name: string, close: string, m: string)
    ensures open + (PrintTerm(name) + (close + m)) == (open + "$(") + (name + ((")" + close) + m))
  {
  }

  lemma SplitAlone(m: string)
    requires forall i :: 0 <= i < |m| ==> !IsDelim(m[i])
    ensures SplitCounter(m) == [m]
  {
    SplitWord(m, "");
    assert m + "" == m;
  }

  lemma SplitOpTail(op: char, tail: string, parts: seq<string>, m: string)
    requires IsOp(op) && SplitCounter(tail) == [""] + parts + [m]
    ensures SplitCounter([op] + tail) == [[op]] + parts + [m]
  {
    SplitWord([op], tail);
    assert [op] + "" == [op];
  }

  lemma SumAfterOpen(open: string, names: seq<string>, ops: seq<char>, rest: string)
    requires |names| > 1 && |ops| == |names| - 1
    ensures open + (PrintSum(names, ops) + rest)
         == (open + "$(") + (names[0] + (")" + ([ops[0]] + (PrintSum(names[1..], ops[1..]) + rest))))
  {
    PrintSumCons(names, ops, rest);
    OpenTerm(open, names[0], [ops[0]] + (PrintSum(names[1..], ops[1..]) + rest));
  }

  lemma OpenTerm(open: string, name: string, tail: string)
    ensures open + (PrintTerm(name) + tail) == (open + "$(") + (name + (")" + tail))
  {
  }

  lemma ModeHasNoDelim(e: Expr)
    requires WellFormed(e)
    ensures forall i :: 0 <= i < |PrintMode(e.mode)| ==> !IsDelim(PrintMode(e.mode)[i])
  {
    if e.mode.Compare? {
      var c, d := PrintCmp(e.mode.cmp), PrintDecimal(e.mode.whole, e.mode.fraction);
      assert forall i :: 0 <= i < |c| ==> !IsDelim(c[i]);
      assert forall i :: 0 <= i < |d| ==> !IsDelim(d[i]);
    }
  }

  lemma {:induction false} WeaveInjective(a: seq<string>, b: seq<string>, a': seq<string>, b': seq<string>)
    requires |a| == |b| || |a| == |b| + 1
    requires |a'| == |b'| || |a'| == |b'| + 1
    requires Weave(a, b) == Weave(a', b')
    ensures a == a' && b == b'
  {
    if a != [] && b != [] && a' != [] && b' != [] {
      var w, w' := Weave(a, b), Weave(a', b');
      assert w[2..] == Weave(a[1..], b[1..]) && w'[2..] == Weave(a'[1..], b'[1..]);
      assert a[0] == w[0] && b[0] == w[1] && a'[0] == w'[0] && b'[0] == w'[1];
      WeaveInjective(a[1..], b[1..], a'[1..], b'[1..]);
      assert a == [a[0]] + a[1..] && b == [b[0]] + b[1..] && a' == [a'[0]] + a'[1..] && b' == [b'[0]] + b'[1..];
    } else if a != [] && a' != [] {
      assert Weave(a, b)[0] == a[0] && Weave(a', b')[0] == a'[0];
      WeaveLength(a, b);
      WeaveLength(a', b');
    } else {
      WeaveLength(a, b);
      WeaveLength(a', b');
    }
  }

  lemma {:induction false} WeaveLength(a: seq<string>, b: seq<string>)
    requires |a| == |b| || |a| == |b| + 1
    ensures |Weave(a, b)| == |a| + |b|
  {
    if a != [] && b != [] {
      WeaveLength(a[1..], b[1..]);
    }
  }

  /** Splitting a printed expression yields its parts, for names free of '$', '(' and ')'. */
  lemma SplitPrinted(e: Expr)
    requires WellFormed(e) && forall i :: 0 <= i < |e.names| ==> '$' !in e.names[i]
    ensures SplitCounter(Print(e)) == [""] + Weave(e.names, OpStrings(e.ops)) + [PrintMode(e.mode)]
  {
    ModeHasNoDelim(e);
    forall i | 0 <= i < |e.names|
      ensures IsWord(e.names[i])
    {
      assert IsName(e.names[i]) && '$' !in e.names[i];
    }
    if e.paren {
      SplitSum("(", e.names, e.ops, ")", PrintMode(e.mode));
      Bracketed(PrintSum(e.names, e.ops), PrintMode(e.mode));
    } else {
      SplitSum("", e.names, e.ops, "", PrintMode(e.mode));
      Unbracketed(PrintSum(e.names, e.ops), PrintMode(e.mode));
    }
  }

  lemma Bracketed(sum: string, m: string)
    ensures "(" + sum + ")" + m == "(" + (sum + (")" + m))
  {
  }

  lemma Unbracketed(sum: string, m: string)
    ensures sum + m == "" + (sum + ("" + m))
  {
  }

  lemma {:induction false} ItemsHaveNoDelim(s: string)
    ensures forall x :: x in SplitCounter(s) ==> forall i :: 0 <= i < |x| ==> !IsDelim(x[i])
  {
    if s != "" {
      ItemsHaveNoDelim(s[1..]);
      var rest := SplitCounter(s[1..]);
      assert rest[0] in rest && forall x :: x in rest[1..] ==> x in rest;
    }
  }

  lemma {:induction false} WeaveHolds(a: seq<string>, b: seq<string>, i: nat)
    requires (|a| == |b| || |a| == |b| + 1) && i < |a|
    ensures a[i] in Weave(a, b)
  {
    if i > 0 {
      WeaveHolds(a[1..], b[1..], i - 1);
    }
  }

  /** What `Parse` promises of its results. */
  ghost predicate Parsed(s: string, operands: seq<string>, operators: seq<string>, computeMode: string)
  {
    var items := SplitCounter(s);
    && |items| >= 2 && Weave(operands, operators) == items[1..|items|-1] && computeMode == items[|items|-1]
    && (|operands| == |operators| || |operands| == |operators| + 1)
  }

  /** After a delimiter, what has none is the last item. */
  lemma {:induction false} LastItem(prefix: string, m: string)
    requires prefix != "" && IsDelim(prefix[|prefix|-1]) && forall i :: 0 <= i < |m| ==> !IsDelim(m[i])
    ensures var items := SplitCounter(prefix + m); |items| >= 2 && items[|items|-1] == m
  {
    if |prefix| == 1 {
      SplitDelims(prefix, m);
      SplitAlone(m);
    } else {
      LastItem(prefix[1..], m);
      assert (prefix + m)[1..] == prefix[1..] + m;
    }
  }

  lemma {:induction false} SumEndsWithParen(names: seq<string>, ops: seq<char>)
    requires names != [] && |ops| == |names| - 1
    ensures var s := PrintSum(names, ops); s != "" && s[|s|-1] == ')'
  {
    if |names| > 1 {
      SumEndsWithParen(names[1..], ops[1..]);
    }
  }

  /** Parsing a printed expression gives back its comparison, whatever its names are. */
  lemma ComparisonIsRecovered(e: Expr, operands: seq<string>, operators: seq<string>, computeMode: string)
    requires WellFormed(e) && Parsed(Print(e), operands, operators, computeMode)
    ensures computeMode == PrintMode(e.mode)
  {
    ModeHasNoDelim(e);
    SumEndsWithParen(e.names, e.ops);
    var sum := PrintSum(e.names, e.ops);
    LastItem(if e.paren then "(" + sum + ")" else sum, PrintMode(e.mode));
  }

  /** Parsing a printed expression gives back its parts iff its names are free of '$'. */
  lemma ParseInvertsPrintIff(e: Expr, operands: seq<string>, operators: seq<string>, computeMode: string)
    requires WellFormed(e) && Parsed(Print(e), operands, operators, computeMode)
    ensures (operands == e.names && operators == OpStrings(e.ops) && computeMode == PrintMode(e.mode))
       <==> forall i :: 0 <= i < |e.names| ==> '$' !in e.names[i]
  {
    if forall i :: 0 <= i < |e.names| ==> '$' !in e.names[i] {
      PartsAreRecovered(e, operands, operators, computeMode);
    } else if operands == e.names {
      DollarIsLost(e, operands, operators, computeMode);
    }
  }

  lemma PartsAreRecovered(e: Expr, operands: seq<string>, operators: seq<string>, computeMode: string)
    requires WellFormed(e) && Parsed(Print(e), operands, operators, computeMode)
    requires forall i :: 0 <= i < |e.names| ==> '$' !in e.names[i]
    ensures operands == e.names && operators == OpStrings(e.ops) && computeMode == PrintMode(e.mode)
  {
    SplitPrinted(e);
    var items, w := SplitCounter(Print(e)), Weave(e.names, OpStrings(e.ops));
    assert items[1..|items|-1] == w;
    WeaveInjective(operands, operators, e.names, OpStrings(e.ops));
  }

  lemma DollarIsLost(e: Expr, operands: seq<string>, operators: seq<string>, computeMode: string)
    requires WellFormed(e) && Parsed(Print(e), operands, operators, computeMode) && operands == e.names
    ensures forall i :: 0 <= i < |e.names| ==> '$' !in e.names[i]
  {
    var items := SplitCounter(Print(e));
    ItemsHaveNoDelim(Print(e));
    forall i | 0 <= i < |e.names|
      ensures '$' !in e.names[i]
    {
      WeaveHolds(operands, operators, i);
      assert e.names[i] in items;
    }
  }

  /** An accepted counter name with a '$' in it is taken apart into two counters. */
  lemma DollarInNameIsMisread()
    ensures var e := Expr(["a$+$b"], [], Plain, false);
      WellFormed(e) && ExpressionValid(Print(e)) && SplitCounter(Print(e)) == ["", "a", "+", "b", ""]
  {
    DollarNamePrints();
    DollarNameAccepted();
    SplitDollarName();
  }

  lemma DollarNamePrints()
    ensures var e := Expr(["a$+$b"], [], Plain, false); WellFormed(e) && Print(e) == "$(a$+$b)"
  {
    var name := "a$+$b";
    assert forall i :: 0 <= i < |name| ==> !IsParen(name[i]);
    assert IsName(name);
  }

  lemma DollarNameAccepted()
    ensures ExpressionValid("$(a$+$b)")
  {
    var e := Expr(["a$+$b"], [], Plain, false);
    DollarNamePrints();
    PlainMatches(e);
  }

  lemma SplitDollarName()
    ensures SplitCounter("$(a$+$b)") == ["", "a", "+", "b", ""]
  {
    SplitTerm("$(", "a", "$", "+$b)");
    assert "$(a$+$b)" == "$(" + ("a" + ("$" + "+$b)"));
    SplitDollarTail();
  }

  lemma SplitDollarTail()
    ensures SplitCounter("+$b)") == ["+", "b", ""]
  {
    SplitWordThenDelims("+", "$", "b)");
    assert "+$b)" == "+" + ("$" + "b)");
    SplitWordThenDelims("b", ")", "");
    assert "b)" == "b" + (")" + "");
  }

  // ----- computing

  ghost predicate AllPresent(counters: seq<string>, endpoint: string, valMap: map<string, real>)
  {
    forall i :: 0 <= i < |counters| ==> endpoint + counters[i] in valMap
  }

  /** The values of the operands that have one, in order. */
  method QueryOperands(counters: seq<string>, endpoint: string, valMap: map<string, real>) returns (ret: seq<real>)
    ensures |ret| == |counters| <==> AllPresent(counters, endpoint, valMap)
    ensures |ret| == |counters| ==> forall i :: 0 <= i < |ret| ==> ret[i] == valMap[endpoint + counters[i]]
  {
    ret := [];
    for i := 0 to |counters|
      invariant |ret| <= i
      invariant |ret| == i <==> forall k :: 0 <= k < i ==> endpoint + counters[k] in valMap
      invariant |ret| == i ==> forall k :: 0 <= k < i ==> ret[k] == valMap[endpoint + counters[k]]
    {
      if endpoint + counters[i] in valMap {
        ret := ret + [valMap[endpoint + counters[i]]];
      }
    }
  }

  /** Left-to-right evaluation of the first n operands. */
  ghost function Total(counters: seq<string>, operators: seq<string>, endpoint: string, valMap: map<string, real>, n: nat): real
    requires 1 <= n <= |counters| && |counters| <= |operators| + 1 && AllPresent(counters, endpoint, valMap)
  {
    var v := valMap[endpoint + counters[n-1]];
    if n == 1 then v
    else
      var before := Total(counters, operators, endpoint, valMap, n - 1);
      if operators[n-2] == "+" then before + v else before - v
  }

  function DigitsValue(s: string): nat
    requires forall i :: 0 <= i < |s| ==> IsDigit(s[i])
  {
    if s == "" then 0
    else
      assert IsDigit(s[|s|-1]);
      10 * DigitsValue(s[..|s|-1]) + (s[|s|-1] as int - '0' as int)
  }

  function Power10(n: nat): nat
    ensures Power10(n) > 0
  {
    if n == 0 then 1 else 10 * Power10(n - 1)
  }

  function DecimalValue(whole: string, fraction: Option<string>): real
    requires IsNumber(whole) && (fraction.Some? ==> IsNumber(fraction.value))
  {
    DigitsValue(whole) as real +
    if fraction.None? then 0.0
    else DigitsValue(fraction.value) as real / Power10(|fraction.value|) as real
  }

  predicate Holds(cmp: Cmp, a: real, b: real)
  {
    match cmp
    case Gt => a > b
    case Eq => a == b
    case Lt => a < b
    case Ge => a >= b
    case Le => a <= b
  }

  predicate IsCmpChar(c: char) { c == '>' || c == '<' || c == '=' }

  function CmpLength(s: string): (n: nat)
    ensures n <= |s|
    ensures forall i :: 0 <= i < n ==> IsCmpChar(s[i])
    ensures n < |s| ==> !IsCmpChar(s[n])
  {
    if s == "" || !IsCmpChar(s[0]) then 0 else 1 + CmpLength(s[1..])
  }

  /** Reads the literal behind the comparison sign. */
  function ParseDecimal(s: string): real
    requires MatchDecimal(s)
  {
    var n := DigitLength(s);
    DecimalValue(s[..n], if n == |s| then None else Some(s[n+1..]))
  }

  /** A sign and a literal, as the comparison is searched for. */
  predicate Comparable(computeMode: string)
  {
    CmpLength(computeMode) > 0 && MatchDecimal(computeMode[CmpLength(computeMode)..])
  }

  /** Takes the comparison apart again and decides it; an unknown sign decides false. */
  predicate CompareSum(sum: real, computeMode: string)
    requires Comparable(computeMode)
  {
    var n := CmpLength(computeMode);
    Decide(computeMode[..n], sum, ParseDecimal(computeMode[n..]))
  }

  predicate Decide(mode: string, sum: real, val: real)
  {
    if mode == ">" then sum > val
    else if mode == "<" then sum < val
    else if mode == "=" then sum == val
    else if mode == ">=" then sum >= val
    else if mode == "<=" then sum <= val
    else false
  }

  lemma {:induction false} CmpLengthIs(cmp: string, rest: string)
    requires (forall i :: 0 <= i < |cmp| ==> IsCmpChar(cmp[i])) && (rest == "" || !IsCmpChar(rest[0]))
    ensures CmpLength(cmp + rest) == |cmp|
  {
    if cmp != "" {
      CmpLengthIs(cmp[1..], rest);
      assert (cmp + rest)[1..] == cmp[1..] + rest;
    }
  }

  lemma DecimalReads(whole: string, fraction: Option<string>)
    requires IsNumber(whole) && (fraction.Some? ==> IsNumber(fraction.value))
    ensures MatchDecimal(PrintDecimal(whole, fraction))
    ensures ParseDecimal(PrintDecimal(whole, fraction)) == DecimalValue(whole, fraction)
  {
    DecimalMatches(whole, fraction);
  }

  /** The sign of a printed comparison is found, and the literal behind it. */
  lemma PrintedSplitsAgain(mode: Mode)
    requires mode.Compare? && IsNumber(mode.whole) && (mode.fraction.Some? ==> IsNumber(mode.fraction.value))
    ensures var s, n := PrintMode(mode), CmpLength(PrintMode(mode));
      n == |PrintCmp(mode.cmp)| > 0 && s[..n] == PrintCmp(mode.cmp) && s[n..] == PrintDecimal(mode.whole, mode.fraction)
  {
    var c, d := PrintCmp(mode.cmp), PrintDecimal(mode.whole, mode.fraction);
    assert d[0] == mode.whole[0];
    CmpLengthIs(c, d);
    assert (c + d)[..|c|] == c && (c + d)[|c|..] == d;
  }

  /** A printed comparison is decided as the comparison it prints. */
  lemma PrintedComparisonHolds(sum: real, mode: Mode)
    requires mode.Compare? && IsNumber(mode.whole) && (mode.fraction.Some? ==> IsNumber(mode.fraction.value))
    ensures Comparable(PrintMode(mode))
    ensures CompareSum(sum, PrintMode(mode)) == Holds(mode.cmp, sum, DecimalValue(mode.whole, mode.fraction))
  {
    PrintedSplitsAgain(mode);
    DecimalReads(mode.whole, mode.fraction);
    SignDecides(mode.cmp, sum, DecimalValue(mode.whole, mode.fraction));
  }

  /** Every accepted text that is parsed leaves a comparison that can be decided. */
  lemma AcceptedIsComputable(s: string, operands: seq<string>, operators: seq<string>, computeMode: string)
    requires ExpressionValid(s) && NeedCompute(s) && Parsed(s, operands, operators, computeMode)
    ensures |operands| <= |operators| + 1
    ensures computeMode != "" ==> Comparable(computeMode)
  {
    AcceptedIff(s);
    var e :| WellFormed(e) && Print(e) == s;
    ComparisonIsRecovered(e, operands, operators, computeMode);
    if e.mode.Compare? {
      PrintedComparisonHolds(0.0, e.mode);
    }
  }

  lemma SignDecides(cmp: Cmp, a: real, b: real)
    ensures Decide(PrintCmp(cmp), a, b) == Holds(cmp, a, b)
  {
  }

  method Compute(operands: seq<string>, operators: seq<string>, computeMode: string, hostname: string,
                 valMap: map<string, real>)
    returns (r: Option<real>)
    requires |operands| <= |operators| + 1
    requires computeMode != "" ==> Comparable(computeMode)
    ensures r.Some? <==> operands != [] && AllPresent(operands, hostname, valMap)
    ensures r.Some? ==>
      var sum := Total(operands, operators, hostname, valMap, |operands|);
      r.value == if computeMode == "" then sum else if CompareSum(sum, computeMode) then 1.0 else 0.0
  {
    var count := |operands|;
    if count == 0 {
      return None;
    }
    var vals := QueryOperands(operands, hostname, valMap);
    if |vals| != count {
      return None;
    }
    var sum := vals[0];
    for i := 0 to |vals| - 1
      invariant sum == Total(operands, operators, hostname, valMap, i + 1)
    {
      if operators[i] == "+" {
        sum := sum + vals[i+1];
      } else {
        sum := sum - vals[i+1];
      }
    }
    var val := 0.0;
    if computeMode != "" {
      if CompareSum(sum, computeMode) {
        val := 1.0;
      }
    } else {
      val := sum;
    }
    return Some(val);
  }

  // ----- from text to value

  /** The meaning of an expression on one host. */
  ghost function Meaning(e: Expr, hostname: string, valMap: map<string, real>): Option<real>
    requires WellFormed(e)
  {
    if !AllPresent(e.names, hostname, valMap) then None
    else
      var sum := Total(e.names, OpStrings(e.ops), hostname, valMap, |e.names|);
      if e.mode.Plain? then Some(sum)
      else Some(if Holds(e.mode.cmp, sum, DecimalValue(e.mode.whole, e.mode.fraction)) then 1.0 else 0.0)
  }

  /** Evaluating the printed text gives the meaning of the expression it was printed from. */
  method EvaluateText(ghost e: Expr, text: string, hostname: string, valMap: map<string, real>) returns (r: Option<real>)
    requires WellFormed(e) && (forall i :: 0 <= i < |e.names| ==> '$' !in e.names[i]) && text == Print(e)
    ensures r == Meaning(e, hostname, valMap)
  {
    PrintedNeedsCompute(e);
    var operands, operators, computeMode := Parse(text, true);
    ParseInvertsPrintIff(e, operands, operators, computeMode);
    if e.mode.Compare? {
      var sum := 0.0;
      PrintedComparisonHolds(sum, e.mode);
      forall sum
        ensures CompareSum(sum, computeMode) == Holds(e.mode.cmp, sum, DecimalValue(e.mode.whole, e.mode.fraction))
      {
        PrintedComparisonHolds(sum, e.mode);
      }
    }
    r := Compute(operands, operators, computeMode, hostname, valMap);
  }

  // ----- what is computed

  /** The values of the counters of an expression, negated behind a '-'. */
  ghost function SignedValues(e: Expr, hostname: string, valMap: map<string, real>): seq<real>
    requires WellFormed(e) && AllPresent(e.names, hostname, valMap)
  {
    seq(|e.names|, i requires 0 <= i < |e.names| =>
      if i > 0 && e.ops[i-1] == '-' then -valMap[hostname + e.names[i]] else valMap[hostname + e.names[i]])
  }

  lemma {:induction false} TotalIsSignedSum(e: Expr, hostname: string, valMap: map<string, real>, n: nat)
    requires WellFormed(e) && AllPresent(e.names, hostname, valMap) && 1 <= n <= |e.names|
    ensures Total(e.names, OpStrings(e.ops), hostname, valMap, n) == Statistics.Sum(SignedValues(e, hostname, valMap)[..n])
  {
    var signed := SignedValues(e, hostname, valMap);
    assert signed[..n][..n-1] == signed[..n-1];
    if n > 1 {
      TotalIsSignedSum(e, hostname, valMap, n - 1);
      assert OpStrings(e.ops)[n-2] == [e.ops[n-2]] && IsOp(e.ops[n-2]);
    } else {
      assert signed[..0] == [];
    }
  }

  /** An expression means the signed sum of its counters, or whether that compares with its literal as
      the sign says; without a value for each counter it means nothing. */
  lemma MeaningIs(e: Expr, hostname: string, valMap: map<string, real>)
    requires WellFormed(e)
    ensures Meaning(e, hostname, valMap).None? <==> !AllPresent(e.names, hostname, valMap)
    ensures AllPresent(e.names, hostname, valMap) ==>
      var sum, r := Statistics.Sum(SignedValues(e, hostname, valMap)), Meaning(e, hostname, valMap);
      match e.mode
      case Plain => r == Some(sum)
      case Compare(cmp, whole, fraction) =>
        && (r == Some(1.0) || r == Some(0.0))
        && (cmp == Gt ==> (r == Some(1.0) <==> sum > DecimalValue(whole, fraction)))
        && (cmp == Ge ==> (r == Some(1.0) <==> sum >= DecimalValue(whole, fraction)))
        && (cmp == Lt ==> (r == Some(1.0) <==> sum < DecimalValue(whole, fraction)))
        && (cmp == Le ==> (r == Some(1.0) <==> sum <= DecimalValue(whole, fraction)))
        && (cmp == Eq ==> (r == Some(1.0) <==> sum == DecimalValue(whole, fraction)))
  {
    if AllPresent(e.names, hostname, valMap) {
      var signed := SignedValues(e, hostname, valMap);
      TotalIsSignedSum(e, hostname, valMap, |e.names|);
      assert signed[..|e.names|] == signed;
    }
  }

  function DigitChar(d: nat): (c: char)
    requires d < 10
    ensures IsDigit(c)
  {
    ('0' as int + d) as char
  }

  /** The decimal digits of a number. */
  function Digits(n: nat): string
  {
    if n < 10 then [DigitChar(n)] else Digits(n / 10) + [DigitChar(n % 10)]
  }

  /** Reading the digits of a number gives the number. */
  lemma {:induction false} DigitsReadBack(n: nat)
    ensures IsNumber(Digits(n)) && DigitsValue(Digits(n)) == n
  {
    var s := Digits(n);
    if n >= 10 {
      DigitsReadBack(n / 10);
      assert s[..|s|-1] == Digits(n / 10);
    } else {
      assert s[..0] == "";
    }
  }

  lemma {:induction false} DigitsConcat(a: string, b: string) returns (x: nat, p: nat, y: nat, all: nat)
    requires (forall i :: 0 <= i < |a| ==> IsDigit(a[i])) && forall i :: 0 <= i < |b| ==> IsDigit(b[i])
    ensures forall i :: 0 <= i < |a + b| ==> IsDigit((a + b)[i])
    ensures x == DigitsValue(a) && p == Power10(|b|) && y == DigitsValue(b) && all == DigitsValue(a + b)
    ensures all == x * p + y
  {
    if b == "" {
      assert a + b == a;
      x, p, y, all := DigitsValue(a), 1, 0, DigitsValue(a);
    } else {
      var init, d := b[..|b|-1], b[|b|-1] as int - '0' as int;
      var p0, y0, all0;
      x, p0, y0, all0 := DigitsConcat(a, init);
      assert (a + b)[..|a + b|-1] == a + init;
      assert IsDigit(b[|b|-1]);
      TenTimes(x, p0, y0);
      p, y, all := 10 * p0, 10 * y0 + d, 10 * all0 + d;
    }
  }

  lemma TenTimes(x: nat, p: nat, y: nat)
    ensures 10 * (x * p + y) == x * (10 * p) + 10 * y
  {
  }

  /** A literal with k digits behind the point, times 10 to the k, is the number of all its digits. */
  lemma DecimalIsScaled(whole: string, fraction: string) returns (v: real, p: nat, all: nat)
    requires IsNumber(whole) && IsNumber(fraction)
    ensures DecimalValue(whole, None) == DigitsValue(whole) as real && IsNumber(whole + fraction)
    ensures v == DecimalValue(whole, Some(fraction)) && p == Power10(|fraction|) && all == DigitsValue(whole + fraction)
    ensures v * (p as real) == all as real
  {
    var w, f;
    w, p, f, all := DigitsConcat(whole, fraction);
    v := ScaledBack(w, f, p, all);
  }

  lemma ScaledBack(w: nat, f: nat, p: nat, all: nat) returns (v: real)
    requires p > 0 && all == w * p + f
    ensures v == w as real + f as real / p as real && v * (p as real) == all as real
  {
    v := w as real + f as real / p as real;
    Scale(w as real, f as real, p as real);
    ProductAsReal(w, p);
  }

  lemma ProductAsReal(a: nat, b: nat)
    ensures (a * b) as real == (a as real) * (b as real)
  {
  }

  lemma Scale(w: real, f: real, p: real)
    requires p > 0.0
    ensures (w + f / p) * p == w * p + f
  {
  }
}
