/** troff's numeric expressions as man2html scans them (man/man2html.cpp:2599-2797). */
module ManExpr {
  import opened Text

  /** What the scan depends on besides the text: `nroff` mode, the value and length of an escape
      sequence, and the outcome and length of a string comparison. */
  datatype Env = Env(nroff: int, escape: string -> (int, nat), compare: string -> (int, nat))

  /** A value and the text behind it. */
  datatype Scanned = Scanned(value: int, rest: string)

  function Drop(s: string, n: nat): (r: string)
    ensures |r| <= |s|
  {
    if n == 0 then s else if n <= |s| then s[n..] else ""
  }

  // ----- C arithmetic on values -----

  function Quotient(a: int, b: int): int
    requires b != 0
  {
    if (a >= 0) == (b > 0) || a == 0 then Abs(a) / Abs(b) else -(Abs(a) / Abs(b))
  }

  function Remainder(a: int, b: int): int
    requires b != 0
  {
    a - b * Quotient(a, b)
  }

  function Abs(a: int): nat {
    if a < 0 then -a else a
  }

  function Truth(b: bool): int {
    if b then 1 else 0
  }

  function Pow10(k: nat): (p: nat)
    ensures p >= 1
  {
    if k == 0 then 1 else 10 * Pow10(k - 1)
  }

  // ----- the scanner -----

  /** The next operator, with `=` behind it or not, as the character the source keeps. */
  function WithEquals(c: char): char
    requires c as int < 128
  {
    (c as int + 16) as char
  }

  const OPERATORS := "-><+/*%&=:"

  function Apply(oper: char, value: int, value2: int): int {
    if oper == 'c' then value2
    else if oper == '-' then value - value2
    else if oper == '+' then value + value2
    else if oper == '*' then value * value2
    else if oper == '/' then (if value2 != 0 then Quotient(value, value2) else value)
    else if oper == '%' then (if value2 != 0 then Remainder(value, value2) else value)
    else if oper == '<' then Truth(value < value2)
    else if oper == '>' then Truth(value > value2)
    else if oper == WithEquals('>') then Truth(value >= value2)
    else if oper == WithEquals('<') then Truth(value <= value2)
    else if oper == '=' || oper == WithEquals('=') then Truth(value == value2)
    else if oper == '&' then Truth(value != 0 && value2 != 0)
    else if oper == ':' then Truth(value != 0 || value2 != 0)
    else value
  }

  /** A number: digits, decimals, a scale letter. It does not count if a full stop follows. */
  function Fraction(c: string): (f: string)
    ensures AllDigits(f)
    ensures f != "" ==> |f| < |c|
  {
    if |c| >= 2 && c[0] == '.' && IsDigit(c[1]) then c[1..][..DigitRun(c[1..])] else ""
  }

  /** `num / denum` are the decimals. */
  function Rounded(whole: nat, num: nat, denum: nat, inches: bool): int
    requires denum >= 1
  {
    if inches then whole * 10 + (num * 10 + denum / 2) / denum else whole + (num + denum / 2) / denum
  }

  datatype Number = Number(value: int, rest: string, counts: bool)

  function AfterDigits(c: string): (r: string)
    ensures |r| <= |c| && (c != "" && IsDigit(c[0]) ==> |r| < |c|)
  {
    var k := DigitRun(c);
    if k == 0 then c else c[k..]
  }

  function AfterFraction(c: string): (r: string)
    ensures |r| <= |c| && (Fraction(c) != "" ==> |r| < |c|)
  {
    var k := |Fraction(c)|;
    if k == 0 then c else c[k + 1..]
  }

  function AfterLetter(c: string): (r: string)
    ensures |r| <= |c|
  {
    if c != "" && IsAlpha(c[0]) then c[1..] else c
  }

  function ReadNumber(c: string): (r: Number)
    ensures |r.rest| <= |c|
    ensures c != "" && (IsDigit(c[0]) || c[0] == '.') && r.counts ==> |r.rest| < |c|
  {
    var c1 := AfterDigits(c);
    var c2 := AfterFraction(c1);
    var c3 := AfterLetter(c2);
    Number(Rounded(DecValue(c[..DigitRun(c)]), DecValue(Fraction(c1)), Pow10(|Fraction(c1)|),
                   c2 != "" && c2[0] == 'i'), c3,
           !(c3 != "" && c3[0] == '.'))
  }

  predicate Comparison(c: string) {
    c == "" || c[0] == '\'' || c[0] == '"' || c[0] < ' ' || c[0] as int >= 128
          || (|c| > 1 && c[0] == '\\' && c[1] == '(')
  }

  /** The state of the loop over operands and operators; `ended` after a number that does not count. */
  datatype State = State(value: int, oper: char, sign: int, c: string, ended: bool)

  function WithOperand(s: State, value2: int, rest: string): State {
    State(Apply(s.oper, s.value, s.sign * value2), '\0', 1, rest, false)
  }

  /** One turn of the loop at anything but a parenthesis. */
  function Turn(env: Env, s: State): (r: State)
    requires s.c != "" && s.c[0] != '('
    ensures |r.c| <= |s.c| && (!r.ended ==> |r.c| < |s.c|)
  {
    var c := s.c;
    if IsDigit(c[0]) || c[0] == '.' then
      var n := ReadNumber(c);
      if n.counts then WithOperand(s, n.value, n.rest) else s.(c := n.rest, ended := true)
    else if c[0] == '\\' then
      var e := env.escape(c[1..]);
      WithOperand(s, e.0, AfterLetter(Drop(c[1..], e.1)))
    else if c[0] == '-' && s.oper != '\0' then s.(sign := -1, c := c[1..], ended := false)
    else if c[0] in OPERATORS then
      if |c| > 1 && c[1] == '=' then s.(oper := WithEquals(c[0]), c := c[2..], ended := false)
      else s.(oper := c[0], c := c[1..], ended := false)
    else s.(c := c[1..], ended := false)
  }

  predicate Stops(c: string, nested: bool) {
    c == "" || (IsSpace(c[0]) && !nested) || c[0] == ')'
  }

  function Scan(env: Env, c: string, nested: bool): (r: Scanned)
    ensures |r.rest| <= |c|
    decreases |c|, 2
  {
    if c != "" && c[0] == '!' then
      var r := Scan(env, c[1..], false);
      Scanned(Truth(r.value == 0), r.rest)
    else if c != "" && c[0] == 'n' then Scanned(env.nroff, c[1..])
    else if c != "" && c[0] == 't' then Scanned(1 - env.nroff, c[1..])
    else if Comparison(c) then
      var r := env.compare(c);
      Scanned(r.0, Drop(c, r.1))
    else Terms(env, State(0, 'c', 1, c, false), nested)
  }

  /** The loop from a state on. */
  function Terms(env: Env, s: State, nested: bool): (r: Scanned)
    ensures |r.rest| <= |s.c|
    decreases |s.c|, if s.ended then 0 else 1, 0
  {
    if s.ended || Stops(s.c, nested) then
      Scanned(s.value, if s.c != "" && s.c[0] == ')' then s.c[1..] else s.c)
    else if s.c[0] == '(' then
      var inner := Scan(env, s.c[1..], true);
      Terms(env, WithOperand(s, inner.value, inner.rest), nested)
    else Terms(env, Turn(env, s), nested)
  }

  /** The digit loops: the number, and the power of ten of its length. */
  method ScanDigits(text: string) returns (n: nat, power: nat, k: nat)
    ensures k == DigitRun(text) && n == DecValue(text[..k]) && power == Pow10(k)
  {
    n, power, k := 0, 1, 0;
    while k < |text| && IsDigit(text[k])
      invariant k <= |text| && AllDigits(text[..k]) && n == DecValue(text[..k]) && power == Pow10(k)
    {
      assert text[..k + 1][..k] == text[..k];
      n := n * 10 + DigitValue(text[k]);
      power := power * 10;
      k := k + 1;
    }
    RunIs(text, k);
  }

  lemma {:induction false} RunIs(s: string, k: nat)
    requires k <= |s| && AllDigits(s[..k]) && (k < |s| ==> !IsDigit(s[k]))
    ensures DigitRun(s) == k
  {
    if k > 0 {
      assert s[..k][0] == s[0];
      assert s[1..][..k - 1] == s[..k][1..];
      RunIs(s[1..], k - 1);
    }
  }

  lemma HalfGone(d: nat)
    requires d >= 1
    ensures (0 + d / 2) / d == 0
  {
  }

  /** man/man2html.cpp:2672-2708 */
  method ScanNumber(text: string) returns (value2: int, c: string, opex: int)
    requires text != "" && (IsDigit(text[0]) || text[0] == '.')
    ensures ReadNumber(text) == Number(value2, c, opex > 0) && (opex == 1 || opex == -1)
  {
    var num, denum, k, power := 0, 1, 0, 1;
    value2, power, k := ScanDigits(text);
    c := if k == 0 then text else text[k..];
    ghost var c1 := c;
    if |c| > 1 && c[0] == '.' && IsDigit(c[1]) {
      num, denum, k := ScanDigits(c[1..]);
      c := c[k + 1..];
    }
    DecimalsAre(c1, num, denum, c);
    var inches := c != "" && c[0] == 'i';
    if c != "" && IsAlpha(c[0]) {
      c := c[1..];
    }
    value2 := Round(value2, num, denum, inches);
    opex := if c != "" && c[0] == '.' then -1 else 1;
  }

  method Round(whole: nat, decimals: nat, denum: nat, inches: bool) returns (value2: int)
    requires denum >= 1
    ensures value2 == Rounded(whole, decimals, denum, inches)
  {
    var num := decimals;
    value2 := whole;
    if inches {
      value2 := value2 * 10 + (num * 10 + denum / 2) / denum;
      num := 0;
      HalfGone(denum);
    }
    value2 := value2 + (num + denum / 2) / denum;
  }

  lemma DecimalsAre(c1: string, num: nat, denum: nat, c2: string)
    requires if |c1| > 1 && c1[0] == '.' && IsDigit(c1[1]) then
               var k := DigitRun(c1[1..]);
               num == DecValue(c1[1..][..k]) && denum == Pow10(k) && k + 1 <= |c1| && c2 == c1[k + 1..]
             else num == 0 && denum == 1 && c2 == c1
    ensures var f := Fraction(c1);
            num == DecValue(f) && denum == Pow10(|f|) && c2 == AfterFraction(c1)
  {
  }

  /** The body of the loop at anything but a parenthesis (man/man2html.cpp:2664-2789). */
  method ScanTerm(env: Env, s: State) returns (r: State)
    requires s.c != "" && s.c[0] != '(' && !s.ended
    ensures r == Turn(env, s)
  {
    var value, oper, sign, c := s.value, s.oper, s.sign, s.c;
    var value2, opex := 0, 0;
    if IsDigit(c[0]) || c[0] == '.' {
      value2, c, opex := ScanNumber(c);
      value2 := sign * value2;
    } else if c[0] == '\\' {
      var e := env.escape(c[1..]);
      c := Drop(c[1..], e.1);
      value2 := sign * e.0;
      if c != "" && IsAlpha(c[0]) {
        c := c[1..];
      }
      opex := 1;
    } else if c[0] == '-' && oper != '\0' {
      sign := -1;
      c := c[1..];
    } else if c[0] in OPERATORS {
      if |c| > 1 && c[1] == '=' {
        oper := WithEquals(c[0]);
        c := c[2..];
      } else {
        oper := c[0];
        c := c[1..];
      }
    } else {
      c := c[1..];
    }
    if opex > 0 {
      sign := 1;
      value := Apply(oper, value, value2);
      oper := '\0';
    }
    return State(value, oper, sign, c, opex < 0);
  }

  /** man/man2html.cpp:2599-2797, its string comparison apart. */
  method ScanExpression(env: Env, text: string, numLoop: nat) returns (result: int, c: string)
    ensures Scanned(result, c) == Scan(env, text, numLoop > 0)
    decreases |text|, 1
  {
    c := text;
    if c != "" && c[0] == '!' {
      result, c := ScanExpression(env, c[1..], 0);
      return Truth(result == 0), c;
    } else if c != "" && c[0] == 'n' {
      return env.nroff, c[1..];
    } else if c != "" && c[0] == 't' {
      return 1 - env.nroff, c[1..];
    } else if Comparison(c) {
      return env.compare(c).0, Drop(c, env.compare(c).1);
    }
    var s := State(0, 'c', 1, c, false);
    while !s.ended && s.c != "" && (!IsSpace(s.c[0]) || numLoop > 0) && s.c[0] != ')'
      invariant |s.c| <= |text|
      invariant Scan(env, text, numLoop > 0) == Terms(env, s, numLoop > 0)
      decreases |s.c|, if s.ended then 0 else 1
    {
      if s.c[0] == '(' {
        var value2, rest := ScanExpression(env, s.c[1..], numLoop + 1);
        s := WithOperand(s, value2, rest);
      } else {
        s := ScanTerm(env, s);
      }
    }
    c := s.c;
    if c != "" && c[0] == ')' {
      c := c[1..];
    }
    return s.value, c;
  }

  // ----- expressions, how they are written and what they mean -----

  datatype Op =
    | Minus | Plus | Times | Divide | Modulo | Less | Greater | LessEqual | GreaterEqual | Equal | EqualEqual | And | Or

  datatype Literal = Literal(digits: string, decimals: string, scale: Option<char>)

  datatype Operand = Signed(negative: bool, literal: Literal) | Paren(negative: bool, inner: Expr)

  datatype Expr = One(operand: Operand) | More(left: Expr, op: Op, right: Operand)

  function OpText(op: Op): string {
    match op
    case Minus => "-" case Plus => "+" case Times => "*" case Divide => "/" case Modulo => "%"
    case Less => "<" case Greater => ">" case LessEqual => "<=" case GreaterEqual => ">="
    case Equal => "=" case EqualEqual => "==" case And => "&" case Or => ":"
  }

  function Meaning(op: Op, a: int, b: int): int {
    match op
    case Minus => a - b
    case Plus => a + b
    case Times => a * b
    case Divide => if b == 0 then a else Quotient(a, b)
    case Modulo => if b == 0 then a else Remainder(a, b)
    case Less => Truth(a < b)
    case Greater => Truth(a > b)
    case LessEqual => Truth(a <= b)
    case GreaterEqual => Truth(a >= b)
    case Equal => Truth(a == b)
    case EqualEqual => Truth(a == b)
    case And => Truth(a != 0 && b != 0)
    case Or => Truth(a != 0 || b != 0)
  }

  predicate ValidLiteral(l: Literal) {
    && AllDigits(l.digits) && AllDigits(l.decimals) && l.digits + l.decimals != ""
    && (l.scale.Some? ==> IsAlpha(l.scale.value))
  }

  predicate ValidOperand(o: Operand) {
    match o
    case Signed(_, l) => ValidLiteral(l)
    case Paren(_, e) => ValidExpr(e)
  }

  predicate ValidExpr(e: Expr) {
    match e
    case One(o) => ValidOperand(o)
    case More(l, _, r) => ValidExpr(l) && ValidOperand(r)
  }

  function ScaleText(l: Literal): string {
    if l.scale.Some? then [l.scale.value] else ""
  }

  function LiteralText(l: Literal): string {
    l.digits + ((if l.decimals == "" then "" else "." + l.decimals) + ScaleText(l))
  }

  function OperandText(o: Operand): string {
    (if o.negative then "-" else "") +
    match o
    case Signed(_, l) => LiteralText(l)
    case Paren(_, e) => "(" + (ExprText(e) + ")")
  }

  function ExprText(e: Expr): string {
    match e
    case One(o) => OperandText(o)
    case More(l, op, r) => ExprText(l) + (OpText(op) + OperandText(r))
  }

  /** The integer nearest to n/d, the greater one of two. */
  function Nearest(n: nat, d: nat): int
    requires d >= 1
  {
    (2 * n + d) / (2 * d)
  }

  /** A literal stands for its decimal value, ten times that under `i`, rounded. */
  function LiteralValue(l: Literal): int
    requires ValidLiteral(l)
  {
    Nearest(DecValue(l.digits + l.decimals) * (if l.scale == Some('i') then 10 else 1), Pow10(|l.decimals|))
  }

  function OperandValue(o: Operand): int
    requires ValidOperand(o)
  {
    (if o.negative then -1 else 1) *
    match o
    case Signed(_, l) => LiteralValue(l)
    case Paren(_, e) => Value(e)
  }

  /** Strictly from left to right, no operator binding tighter than another. */
  function Value(e: Expr): int
    requires ValidExpr(e)
  {
    match e
    case One(o) => OperandValue(o)
    case More(l, op, r) => Meaning(op, Value(l), OperandValue(r))
  }
}
