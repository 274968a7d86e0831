/** What scanning a written expression gives: its value from left to right, and exactly the text
    behind it. */
module ManExprLaws {
  import opened Text
  import opened ManExpr

  // ----- literals -----

  /** Nothing that could continue a number. */
  predicate Ends(rest: string) {
    rest == "" || (!IsDigit(rest[0]) && rest[0] != '.' && !IsAlpha(rest[0]))
  }

  lemma {:induction false} DecAppend(a: string, b: string)
    requires AllDigits(a) && AllDigits(b)
    ensures AllDigits(a + b) && DecValue(a + b) == DecValue(a) * Pow10(|b|) + DecValue(b)
  {
    if b == "" {
      assert a + b == a;
    } else {
      var s, n := a + b, |b| - 1;
      assert s[..|s| - 1] == a + b[..n] && s[|s| - 1] == b[n];
      DecAppend(a, b[..n]);
      TenMore(DecValue(a), Pow10(n), DecValue(b[..n]));
    }
  }

  lemma TenMore(x: nat, p: nat, y: nat)
    ensures (x * p + y) * 10 == x * (10 * p) + y * 10
  {
  }

  lemma {:induction false} Pow10Even(k: nat)
    ensures Pow10(k) == 1 || exists h: nat :: h >= 1 && Pow10(k) == 2 * h
  {
    if k > 0 {
      assert Pow10(k) == 2 * (5 * Pow10(k - 1));
    }
  }

  lemma DivideIs(n: int, d: int, q: int)
    requires d > 0 && q * d <= n < q * d + d
    ensures n / d == q
  {
    var r := n - q * d;
    assert n == q * d + r && 0 <= r < d;
    assert n / d * d <= n < n / d * d + d;
    var k := n / d - q;
    assert k * d == n / d * d - q * d;
    assert k >= 1 ==> k * d >= d;
    assert k <= -1 ==> k * d <= -d;
  }

  lemma DivideBounds(n: int, d: int)
    requires d > 0
    ensures n / d * d <= n < n / d * d + d
  {
  }

  /** Rounding the decimals alone and adding the whole part is rounding the number. */
  lemma RoundSplit(whole: nat, num: nat, d: nat)
    requires d == 1 || exists h: nat :: h >= 1 && d == 2 * h
    requires d == 1 ==> num == 0
    ensures d >= 1 && whole + (num + d / 2) / d == Nearest(whole * d + num, d)
  {
    if d == 1 {
      DivideIs(2 * whole + 1, 2, whole);
    } else {
      var h: nat :| h >= 1 && d == 2 * h;
      var q := (num + h) / d;
      DivideBounds(num + h, d);
      var n := 2 * (whole * d + num) + d;
      assert (whole + q) * (2 * d) == 2 * (whole * d) + 2 * (q * d);
      DivideIs(n, 2 * d, whole + q);
    }
  }

  lemma {:induction false} DecBelow(s: string)
    requires AllDigits(s)
    ensures DecValue(s) < Pow10(|s|)
  {
    if s != "" {
      DecBelow(s[..|s| - 1]);
    }
  }

  lemma TenTimes(whole: nat, num: nat, d: nat)
    ensures (whole * d + num) * 10 == (10 * whole) * d + 10 * num
  {
  }

  lemma LiteralArithmetic(l: Literal)
    requires ValidLiteral(l)
    ensures var whole, num, d := DecValue(l.digits), DecValue(l.decimals), Pow10(|l.decimals|);
            LiteralValue(l) == Rounded(whole, num, d, l.scale == Some('i'))
  {
    var whole, num, d := DecValue(l.digits), DecValue(l.decimals), Pow10(|l.decimals|);
    DecAppend(l.digits, l.decimals);
    Pow10Even(|l.decimals|);
    DecBelow(l.decimals);
    if l.scale == Some('i') {
      TenTimes(whole, num, d);
      RoundSplit(10 * whole, 10 * num, d);
    } else {
      RoundSplit(whole, num, d);
    }
  }

  /** What follows the digits. */
  function Behind(l: Literal, rest: string): string {
    (if l.decimals == "" then "" else "." + l.decimals) + ScaleText(l) + rest
  }

  lemma BehindIs(l: Literal, rest: string)
    ensures var scaled := ScaleText(l) + rest;
            Behind(l, rest) == if l.decimals == "" then scaled else "." + (l.decimals + scaled)
  {
    assert "" + ScaleText(l) + rest == ScaleText(l) + rest;
    Regroup("." + l.decimals, ScaleText(l), rest);
  }

  lemma FractionRead(decimals: string, behind: string)
    requires AllDigits(decimals) && decimals != "" && (behind == "" || !IsDigit(behind[0]))
    ensures var tail := "." + (decimals + behind); Fraction(tail) == decimals && AfterFraction(tail) == behind
  {
    var tail := "." + (decimals + behind);
    assert tail[1..] == decimals + behind && tail[1] == decimals[0];
    DigitRunStops(decimals, behind);
    assert tail[1..][..|decimals|] == decimals;
    assert tail[|decimals| + 1..] == tail[1..][|decimals|..] == behind;
  }

  lemma LiteralTail(l: Literal, rest: string)
    requires ValidLiteral(l) && Ends(rest)
    ensures var tail := Behind(l, rest);
            && Fraction(tail) == l.decimals
            && (tail == "" || !IsDigit(tail[0]))
            && AfterFraction(tail) == ScaleText(l) + rest
  {
    BehindIs(l, rest);
    if l.decimals != "" {
      FractionRead(l.decimals, ScaleText(l) + rest);
    }
  }

  lemma ScaleRead(l: Literal, rest: string)
    requires ValidLiteral(l) && Ends(rest)
    ensures var c2 := ScaleText(l) + rest;
            AfterLetter(c2) == rest && ((c2 != "" && c2[0] == 'i') <==> l.scale == Some('i'))
  {
    var c2 := ScaleText(l) + rest;
    assert l.scale.None? ==> c2 == rest;
    assert l.scale.Some? ==> c2[0] == l.scale.value && c2[1..] == rest;
  }

  lemma DigitsRead(digits: string, tail: string)
    requires AllDigits(digits) && (tail == "" || !IsDigit(tail[0]))
    ensures var c := digits + tail;
            DigitRun(c) == |digits| && c[..|digits|] == digits && AfterDigits(c) == tail
  {
    DigitRunStops(digits, tail);
  }

  lemma LiteralRead(l: Literal, rest: string)
    requires ValidLiteral(l) && Ends(rest)
    ensures ReadNumber(LiteralText(l) + rest) == Number(LiteralValue(l), rest, true)
  {
    var c, tail := LiteralText(l) + rest, Behind(l, rest);
    assert c == l.digits + tail;
    LiteralTail(l, rest);
    DigitsRead(l.digits, tail);
    ScaleRead(l, rest);
    LiteralArithmetic(l);
    NumberParts(c, l.digits, tail, l.decimals, ScaleText(l) + rest, rest);
  }

  /** A number from its parts. */
  lemma NumberParts(c: string, digits: string, tail: string, decimals: string, c2: string, rest: string)
    requires AllDigits(digits) && DigitRun(c) == |digits| && c[..|digits|] == digits && AfterDigits(c) == tail
    requires Fraction(tail) == decimals && AfterFraction(tail) == c2 && AfterLetter(c2) == rest && Ends(rest)
    ensures var value := Rounded(DecValue(digits), DecValue(decimals), Pow10(|decimals|), c2 != "" && c2[0] == 'i');
            ReadNumber(c) == Number(value, rest, true)
  {
  }

  // ----- operands and operators -----

  /** Between an operator, or the beginning, and an operand. */
  predicate Expecting(oper: char) {
    oper != '\0'
  }

  lemma OperandStart(o: Operand)
    requires ValidOperand(o)
    ensures var t := OperandText(o);
            t != "" && (IsDigit(t[0]) || t[0] == '.' || t[0] == '(' || t[0] == '-')
  {
  }

  lemma {:induction false} ExprStart(e: Expr)
    requires ValidExpr(e)
    ensures var t := ExprText(e);
            t != "" && (IsDigit(t[0]) || t[0] == '.' || t[0] == '(' || t[0] == '-')
  {
    match e
    case One(o) => OperandStart(o);
    case More(l, _, _) => ExprStart(l);
  }

  lemma LiteralStart(l: Literal, rest: string)
    requires ValidLiteral(l)
    ensures var c := LiteralText(l) + rest; c != "" && (IsDigit(c[0]) || c[0] == '.')
  {
  }

  function OpCode(op: Op): char {
    match op
    case LessEqual => WithEquals('<')
    case GreaterEqual => WithEquals('>')
    case EqualEqual => WithEquals('=')
    case _ => OpText(op)[0]
  }

  lemma ApplyMeaning(op: Op, a: int, b: int)
    ensures Apply(OpCode(op), a, b) == Meaning(op, a, b) && OpCode(op) != '\0'
  {
  }

  lemma TermsTurn(env: Env, s: State, r: State, nested: bool)
    requires !s.ended && !Stops(s.c, nested) && s.c[0] != '(' && Turn(env, s) == r
    ensures Terms(env, s, nested) == Terms(env, r, nested)
  {
  }

  lemma OneCharacter(env: Env, o: char, behind: string, value: int)
    requires o in OPERATORS && behind != "" && behind[0] != '='
    ensures var s := State(value, '\0', 1, [o] + behind, false);
            !Stops(s.c, true) && !Stops(s.c, false) && s.c[0] != '('
                  && Turn(env, s) == State(value, o, 1, behind, false)
  {
    var c := [o] + behind;
    assert c[0] == o && c[1] == behind[0] && c[1..] == behind;
  }

  lemma TwoCharacters(env: Env, o: char, behind: string, value: int)
    requires o in OPERATORS
    ensures var s := State(value, '\0', 1, [o, '='] + behind, false);
            !Stops(s.c, true) && !Stops(s.c, false) && s.c[0] != '('
                  && Turn(env, s) == State(value, WithEquals(o), 1, behind, false)
  {
    var c := [o, '='] + behind;
    assert c[0] == o && c[1] == '=' && c[2..] == behind;
  }

  /** After a value, an operator is taken in whole. */
  lemma OpRead(env: Env, op: Op, behind: string, nested: bool, value: int)
    requires behind != "" && behind[0] != '='
    ensures Terms(env, State(value, '\0', 1, OpText(op) + behind, false), nested) ==
            Terms(env, State(value, OpCode(op), 1, behind, false), nested)
  {
    if op.LessEqual? || op.GreaterEqual? || op.EqualEqual? {
      assert OpText(op) == [OpText(op)[0], '='];
      TwoCharacters(env, OpText(op)[0], behind, value);
    } else {
      assert OpText(op) == [OpText(op)[0]];
      OneCharacter(env, OpText(op)[0], behind, value);
    }
    TermsTurn(env, State(value, '\0', 1, OpText(op) + behind, false), State(value, OpCode(op), 1, behind, false),
          nested);
  }

  lemma LiteralTurn(env: Env, l: Literal, rest: string, nested: bool, value: int, oper: char, sign: int)
    requires ValidLiteral(l) && Ends(rest)
    ensures var s := State(value, oper, sign, LiteralText(l) + rest, false);
            && !Stops(s.c, nested) && s.c[0] != '('
            && Turn(env, s) == State(Apply(oper, value, sign * LiteralValue(l)), '\0', 1, rest, false)
  {
    LiteralRead(l, rest);
    LiteralStart(l, rest);
  }

  lemma LiteralTerm(env: Env, l: Literal, rest: string, nested: bool, value: int, oper: char, sign: int)
    requires ValidLiteral(l) && Ends(rest)
    ensures Terms(env, State(value, oper, sign, LiteralText(l) + rest, false), nested) ==
            Terms(env, State(Apply(oper, value, sign * LiteralValue(l)), '\0', 1, rest, false), nested)
  {
    LiteralTurn(env, l, rest, nested, value, oper, sign);
    TermsTurn(env, State(value, oper, sign, LiteralText(l) + rest, false),
              State(Apply(oper, value, sign * LiteralValue(l)), '\0', 1, rest, false), nested);
  }

  lemma SignRead(env: Env, c: string, nested: bool, value: int, oper: char)
    requires Expecting(oper)
    ensures Terms(env, State(value, oper, 1, "-" + c, false), nested)
          == Terms(env, State(value, oper, -1, c, false), nested)
  {
    assert ("-" + c)[1..] == c;
  }

  /** Scanning an operand, its sign included, applies the pending operator to its value. */
  lemma {:induction false} OperandTerm(env: Env, o: Operand, rest: string, nested: bool, value: int, oper: char)
    requires ValidOperand(o) && Ends(rest) && Expecting(oper)
    ensures Terms(env, State(value, oper, 1, OperandText(o) + rest, false), nested) ==
            Terms(env, State(Apply(oper, value, OperandValue(o)), '\0', 1, rest, false), nested)
    decreases o, 0
  {
    var sign := if o.negative then -1 else 1;
    var body := match o { case Signed(_, l) => LiteralText(l) case Paren(_, e) => "(" + (ExprText(e) + ")") };
    if o.negative {
      assert OperandText(o) + rest == "-" + (body + rest);
      SignRead(env, body + rest, nested, value, oper);
    } else {
      assert OperandText(o) + rest == body + rest;
    }
    match o
    case Signed(_, l) => LiteralTerm(env, l, rest, nested, value, oper, sign);
    case Paren(_, e) =>
      ScanPrinted(env, e, ")" + rest, true);
      ParenTerm(env, ExprText(e), rest, nested, value, oper, sign, Value(e));
  }

  lemma ParenTerm(env: Env, inner: string, rest: string, nested: bool, value: int, oper: char, sign: int, v: int)
    requires Scan(env, inner + (")" + rest), true) == Scanned(v, rest)
    ensures Terms(env, State(value, oper, sign, "(" + (inner + ")") + rest, false), nested) ==
            Terms(env, State(Apply(oper, value, sign * v), '\0', 1, rest, false), nested)
  {
    var c := "(" + (inner + ")") + rest;
    assert c[1..] == inner + (")" + rest);
  }

  lemma OpEnds(op: Op, behind: string)
    ensures Ends(OpText(op) + behind)
  {
  }

  /** Scanning an expression from the start leaves its value. */
  lemma {:induction false} ExprTerm(env: Env, e: Expr, rest: string, nested: bool)
    requires ValidExpr(e) && Ends(rest)
    ensures Terms(env, State(0, 'c', 1, ExprText(e) + rest, false), nested) ==
            Terms(env, State(Value(e), '\0', 1, rest, false), nested)
    decreases e, 0
  {
    match e
    case One(o) => OperandTerm(env, o, rest, nested, 0, 'c');
    case More(l, op, r) =>
      var behind := OperandText(r) + rest;
      assert ExprText(e) + rest == ExprText(l) + (OpText(op) + behind);
      OperandStart(r);
      OpEnds(op, behind);
      ExprTerm(env, l, OpText(op) + behind, nested);
      OpRead(env, op, behind, nested, Value(l));
      ApplyMeaning(op, Value(l), OperandValue(r));
      OperandTerm(env, r, rest, nested, Value(l), OpCode(op));
  }

  /** A written expression, inside parentheses up to the closing one, outside up to white space
      or the end: the scan returns its value and stops exactly behind it. */
  lemma {:induction false} ScanPrinted(env: Env, e: Expr, rest: string, nested: bool)
    requires ValidExpr(e)
    requires if nested then rest != "" && rest[0] == ')' else rest == "" || IsSpace(rest[0])
    ensures Scan(env, ExprText(e) + rest, nested) == Scanned(Value(e), if nested then rest[1..] else rest)
    decreases e, 1
  {
    ExprStart(e);
    var c := ExprText(e) + rest;
    assert c[0] == ExprText(e)[0];
    ExprTerm(env, e, rest, nested);
  }

  // ----- conditions -----

  /** A condition: the mode, another one negated, or an expression. */
  datatype Condition = Nroff | Troff | Not(inner: Condition) | Numeric(e: Expr)

  function ConditionText(k: Condition): string {
    match k
    case Nroff => "n"
    case Troff => "t"
    case Not(inner) => "!" + ConditionText(inner)
    case Numeric(e) => ExprText(e)
  }

  predicate ValidCondition(k: Condition) {
    match k
    case Not(inner) => ValidCondition(inner)
    case Numeric(e) => ValidExpr(e)
    case _ => true
  }

  predicate Holds(nroffMode: bool, k: Condition)
    requires ValidCondition(k)
  {
    match k
    case Nroff => nroffMode
    case Troff => !nroffMode
    case Not(inner) => !Holds(nroffMode, inner)
    case Numeric(e) => Value(e) != 0
  }

  /** The scan finds a condition true exactly if it holds, and stops behind it: `n` holds in nroff mode
      and `t` out of it, `!` negates whatever follows. */
  lemma {:induction false} ConditionRead(env: Env, k: Condition, rest: string)
    requires ValidCondition(k) && (rest == "" || IsSpace(rest[0]))
    requires env.nroff == 0 || env.nroff == 1
    ensures var r := Scan(env, ConditionText(k) + rest, false);
            (r.value != 0 <==> Holds(env.nroff == 1, k)) && r.rest == rest
    decreases k
  {
    var c := ConditionText(k) + rest;
    match k
    case Not(inner) =>
      assert c[1..] == ConditionText(inner) + rest;
      ConditionRead(env, inner, rest);
    case Numeric(e) => ScanPrinted(env, e, rest, false);
    case _ => assert c[1..] == rest;
  }
}
