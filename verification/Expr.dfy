/**
 The calculator used by the layout files (src/ftk_expr.c): a lexer with a toggled one-token
 push-back flag under a mutually recursive descent evaluator.

 `Lexer` is the C structure with its methods.  The functions `NextToken`, `FactorOf`, `TermOf`
 and `ExprOf` say what the methods compute; they are total, which is the termination result.
 `Factor`, `Term` and `Sum` are parse trees over the grammar quoted in the source, and
 `Evaluates` connects the two.
 */
module ExprEval {

  /** The arithmetic the evaluator is built on, kept abstract so that rounding plays no part. */
  datatype Algebra<!V> = Algebra(
    zero: V,
    decimal: (nat, nat) -> V,   // digits before and after the point, as ftk_atof reads them
    integer: int -> V,          // the result of ftk_strtol
    add: (V, V) -> V,
    sub: (V, V) -> V,
    mul: (V, V) -> V,
    div: (V, V) -> V,
    bitOr: (V, V) -> V,
    bitAnd: (V, V) -> V)

  datatype Token = None | Add | Or | And | Sub | Multi | Div | LParen | RParen | Num

  predicate IsMulToken(t: Token) {
    t == Multi || t == Div
  }

  predicate IsAddToken(t: Token) {
    t == Add || t == Sub || t == Or || t == And
  }

  function ApplyToken<V>(alg: Algebra<V>, t: Token, x: V, y: V): V {
    match t
    case Add => alg.add(x, y)
    case Sub => alg.sub(x, y)
    case Or => alg.bitOr(x, y)
    case And => alg.bitAnd(x, y)
    case Multi => alg.mul(x, y)
    case Div => alg.div(x, y)
    case _ => x
  }

  // ---------------------------------------------------------------- numbers

  predicate IsDigit(c: char) {
    '0' <= c <= '9'
  }

  /** The characters that LexGetNumToken skips after a number. */
  predicate IsRunChar(c: char) {
    IsDigit(c) || c == '.'
  }

  function DigitValue(c: char): int {
    if IsDigit(c) then c as int - '0' as int
    else if 'a' <= c <= 'f' then c as int - 'a' as int + 10
    else if 'A' <= c <= 'F' then c as int - 'A' as int + 10
    else -1
  }

  /** One more digit in one of the three bases ftk_strtol_internal knows. */
  function ShiftIn(acc: nat, base: nat, digit: nat): nat {
    if base == 10 then acc * 10 + digit
    else if base == 8 then acc * 8 + digit
    else acc * 16 + digit
  }

  /** ftk_strtol_internal: at most `limit` more digits of the given base, and how many were read. */
  function ReadDigits(s: string, base: nat, acc: nat, limit: nat): (r: (nat, nat))
    ensures r.1 <= |s| && r.1 <= limit
  {
    if limit == 0 || s == "" || !(0 <= DigitValue(s[0]) < base) then (acc, 0)
    else
      var r := ReadDigits(s[1..], base, ShiftIn(acc, base, DigitValue(s[0])), limit - 1);
      (r.0, r.1 + 1)
  }

  predicate IsBlank(c: char) {
    c == ' ' || c == '\t'
  }

  function SkipBlanks(s: string): string {
    if s != "" && IsBlank(s[0]) then SkipBlanks(s[1..]) else s
  }

  /** ftk_strtol without its end pointer. */
  function Strtol(s: string, base: nat): int {
    var t := SkipBlanks(s);
    var signed := t != "" && (t[0] == '+' || t[0] == '-');
    var n: int := ReadDigits(if signed then t[1..] else t, base, 0, 10).0;
    if signed && t[0] == '-' then -n else n
  }

  /** ftk_atof on text that starts with a digit or a point, which is all the lexer passes it. */
  function Atof<V>(alg: Algebra<V>, s: string): V {
    var n := ReadDigits(s, 10, 0, 10);
    if n.1 < |s| && s[n.1] == '.' then alg.decimal(n.0, ReadDigits(s[n.1 + 1..], 10, 0, 10).0)
    else alg.decimal(n.0, 0)
  }

  /** Where the run of digits and points that contains `pos` ends. */
  function SkipRun(buf: string, pos: nat): (end: nat)
    requires pos <= |buf|
    ensures pos <= end <= |buf|
    ensures forall i :: pos <= i < end ==> IsRunChar(buf[i])
    ensures end < |buf| ==> !IsRunChar(buf[end])
    decreases |buf| - pos
  {
    if pos < |buf| && IsRunChar(buf[pos]) then SkipRun(buf, pos + 1) else pos
  }

  /** The value of the number that starts at `pos`, and where the state machine stops reading. */
  function NumberAt<V>(alg: Algebra<V>, buf: string, pos: nat): (r: (V, nat))
    requires pos < |buf|
    ensures pos < r.1 <= |buf|
  {
    if buf[pos] != '0' then (Atof(alg, buf[pos..]), pos + 1)
    else if pos + 1 == |buf| then (alg.zero, pos + 1)
    else if buf[pos + 1] == 'x' || buf[pos + 1] == 'X' then
      if pos + 2 == |buf| then (alg.zero, pos + 2)
      else (alg.integer(Strtol(buf[pos + 2..], 16)), pos + 3)
    else if buf[pos + 1] == '.' then (Atof(alg, buf[pos + 1..]), pos + 2)
    else (alg.integer(Strtol(buf[pos + 1..], 8)), pos + 2)
  }

  // ---------------------------------------------------------------- tokens

  datatype LexState<V> = LexState(pos: nat, val: V, token: Token, ungot: bool)

  /** Note that a closing parenthesis is reported as an opening one. */
  function TokenOfChar(c: char): Token {
    match c
    case '+' => Add
    case '|' => Or
    case '&' => And
    case '-' => Sub
    case '*' => Multi
    case '/' => Div
    case '(' => LParen
    case ')' => LParen
    case _ => if IsDigit(c) then Num else None
  }

  /** The first token at or after `pos`; other characters are skipped. */
  function Scan<V>(alg: Algebra<V>, buf: string, pos: nat, val: V): (r: LexState<V>)
    requires pos <= |buf|
    ensures pos <= r.pos <= |buf| && !r.ungot
    ensures pos < |buf| ==> pos < r.pos
    ensures r.token == None ==> r.pos == |buf|
    decreases |buf| - pos
  {
    if pos == |buf| then LexState(pos, val, None, false)
    else
      var t := TokenOfChar(buf[pos]);
      if t == Num then
        var n := NumberAt(alg, buf, pos);
        LexState(SkipRun(buf, n.1), n.0, Num, false)
      else if t != None then LexState(pos + 1, val, t, false)
      else Scan(alg, buf, pos + 1, val)
  }

  /** LexGetToken.  At the end of the text the push-back flag is left as it is. */
  function NextToken<V>(alg: Algebra<V>, buf: string, st: LexState<V>): (r: LexState<V>)
    requires st.pos <= |buf|
    ensures st.pos <= r.pos <= |buf|
    ensures r.token != None ==> st.pos < |buf| && !r.ungot
    ensures r.ungot ==> r.pos == |buf|
    ensures st.pos < |buf| && !st.ungot ==> st.pos < r.pos
  {
    if st.pos == |buf| then st.(token := None)
    else if st.ungot then st.(ungot := false)
    else Scan(alg, buf, st.pos, st.val)
  }

  function Unget<V>(st: LexState<V>): LexState<V> {
    st.(ungot := !st.ungot)
  }

  // ---------------------------------------------------------------- evaluation

  /** The value, the lexer afterwards, and how deep the calls of EvalExpr were nested. */
  datatype Eval<V> = Eval(val: V, st: LexState<V>, depth: nat)

  predicate Same<V(==)>(a: Eval<V>, b: Eval<V>) {
    a.val == b.val && a.st == b.st
  }

  function Max(a: nat, b: nat): nat {
    if a < b then b else a
  }

  /** EvalFactor.  It is never entered with a token pushed back. */
  function FactorOf<V>(alg: Algebra<V>, buf: string, st: LexState<V>): (r: Eval<V>)
    requires st.pos <= |buf| && !st.ungot
    ensures st.pos <= r.st.pos <= |buf|
    ensures r.st.pos == st.pos ==> r.st.pos == |buf|
    ensures r.st.ungot ==> r.st.pos == |buf|
    ensures r.depth <= |buf| - st.pos
    decreases |buf| - st.pos, 0
  {
    var s := NextToken(alg, buf, st);
    match s.token
    case LParen => ExprOf(alg, buf, s)
    case Num => Eval(s.val, s, 0)
    case _ => Eval(alg.zero, s, 0)
  }

  /** The loop of EvalTerm, entered with the token just read in `st`. */
  function TermLoop<V>(alg: Algebra<V>, buf: string, acc: V, st: LexState<V>): (r: Eval<V>)
    requires st.pos <= |buf|
    requires IsMulToken(st.token) ==> !st.ungot
    ensures st.pos <= r.st.pos <= |buf|
    ensures r.depth <= |buf| - st.pos
    ensures !IsMulToken(st.token) ==> r == Eval(acc, Unget(st), 0)
    decreases |buf| - st.pos, if IsMulToken(st.token) then 2 else 1
  {
    if IsMulToken(st.token) then
      var f := FactorOf(alg, buf, st);
      var r := TermLoop(alg, buf, ApplyToken(alg, st.token, acc, f.val), NextToken(alg, buf, f.st));
      r.(depth := Max(f.depth, r.depth))
    else Eval(acc, Unget(st), 0)
  }

  /** EvalTerm.  It always reads one token too many and pushes it back. */
  function TermOf<V>(alg: Algebra<V>, buf: string, st: LexState<V>): (r: Eval<V>)
    requires st.pos <= |buf| && !st.ungot
    ensures st.pos <= r.st.pos <= |buf|
    ensures r.st.pos == st.pos ==> r.st.pos == |buf|
    ensures r.depth <= |buf| - st.pos
    decreases |buf| - st.pos, 3
  {
    var f := FactorOf(alg, buf, st);
    var r := TermLoop(alg, buf, f.val, NextToken(alg, buf, f.st));
    r.(depth := Max(f.depth, r.depth))
  }

  /** The loop of EvalExpr, entered with the token just read in `st`. */
  function ExprLoop<V>(alg: Algebra<V>, buf: string, acc: V, st: LexState<V>): (r: Eval<V>)
    requires st.pos <= |buf|
    requires st.ungot ==> st.pos == |buf| && st.token == None
    ensures st.pos <= r.st.pos <= |buf|
    ensures r.st.ungot ==> r.st.pos == |buf|
    ensures r.depth <= |buf| - st.pos
    decreases |buf| - st.pos, if IsAddToken(st.token) then 5 else 4
  {
    if IsAddToken(st.token) then
      var t := TermOf(alg, buf, st);
      var r := ExprLoop(alg, buf, ApplyToken(alg, st.token, acc, t.val), NextToken(alg, buf, t.st));
      r.(depth := Max(t.depth, r.depth))
    else Eval(acc, st, 0)
  }

  /** EvalExpr: calls of it never nest deeper than there are characters left, plus one. */
  function ExprOf<V>(alg: Algebra<V>, buf: string, st: LexState<V>): (r: Eval<V>)
    requires st.pos <= |buf| && !st.ungot
    ensures st.pos <= r.st.pos <= |buf|
    ensures r.st.ungot ==> r.st.pos == |buf|
    ensures r.depth <= |buf| - st.pos + 1
    decreases |buf| - st.pos, 6
  {
    var t := TermOf(alg, buf, st);
    var r := ExprLoop(alg, buf, t.val, NextToken(alg, buf, t.st));
    r.(depth := 1 + Max(t.depth, r.depth))
  }

  function Start<V>(alg: Algebra<V>): LexState<V> {
    LexState(0, alg.zero, None, false)
  }

  /** ftk_expr_eval: defined for every string. */
  function EvalString<V>(alg: Algebra<V>, buf: string): V {
    ExprOf(alg, buf, Start(alg)).val
  }

  // ---------------------------------------------------------------- the C code

  datatype NumState = StatNone | After0 | AfterX | Finish

  class Lexer<V> {
    const alg: Algebra<V>
    const buffer: string
    var readPos: nat
    var val: V
    var tokenType: Token
    var ungetToken: bool

    constructor (alg: Algebra<V>, text: string)
      ensures this.alg == alg && buffer == text
      ensures State() == Start(alg)
    {
      this.alg, buffer := alg, text;
      readPos, val, tokenType, ungetToken := 0, alg.zero, None, false;
    }

    ghost function State(): LexState<V>
      reads this
    {
      LexState(readPos, val, tokenType, ungetToken)
    }

    method GetNumToken()
      requires readPos < |buffer|
      modifies this
      ensures var n := NumberAt(alg, buffer, old(readPos));
              State() == old(State()).(pos := SkipRun(buffer, n.1), val := n.0)
    {
      var state := StatNone;
      val := alg.zero;
      ghost var start := readPos;
      while readPos < |buffer| && state != Finish
        invariant start <= readPos <= |buffer|
        invariant tokenType == old(tokenType) && ungetToken == old(ungetToken)
        invariant match state
          case StatNone => readPos == start && val == alg.zero
          case After0 => buffer[start] == '0' && readPos == start + 1 && val == alg.zero
          case AfterX => buffer[start] == '0' && start + 2 <= |buffer| && buffer[start + 1] in "xX"
                         && readPos == start + 2 && val == alg.zero
          case Finish => (val, readPos) == NumberAt(alg, buffer, start)
        decreases |buffer| - readPos
      {
        var c := buffer[readPos];
        match state {
          case StatNone =>
            if c == '0' {
              state := After0;
            } else {
              val := Atof(alg, buffer[readPos..]);
              state := Finish;
            }
          case After0 =>
            if c == 'x' || c == 'X' {
              state := AfterX;
            } else if c == '.' {
              val := Atof(alg, buffer[readPos..]);
              state := Finish;
            } else {
              val := alg.integer(Strtol(buffer[readPos..], 8));
              state := Finish;
            }
          case AfterX =>
            val := alg.integer(Strtol(buffer[readPos..], 16));
            state := Finish;
          case Finish =>
        }
        readPos := readPos + 1;
      }
      assert (val, readPos) == NumberAt(alg, buffer, start);
      ghost var stop := readPos;
      while readPos < |buffer| && IsRunChar(buffer[readPos])
        invariant stop <= readPos <= |buffer|
        invariant val == NumberAt(alg, buffer, start).0
        invariant tokenType == old(tokenType) && ungetToken == old(ungetToken)
        invariant SkipRun(buffer, readPos) == SkipRun(buffer, stop)
      {
        readPos := readPos + 1;
      }
    }

    method GetToken() returns (token: Token)
      requires readPos <= |buffer|
      modifies this
      ensures State() == NextToken(alg, buffer, old(State()))
      ensures token == tokenType
    {
      if readPos == |buffer| {
        tokenType := None;
        return tokenType;
      }
      if ungetToken {
        ungetToken := !ungetToken;
        return tokenType;
      }
      tokenType := None;
      while readPos < |buffer|
        invariant readPos <= |buffer| && tokenType == None && !ungetToken
        invariant Scan(alg, buffer, readPos, val) == Scan(alg, buffer, old(readPos), old(val))
        decreases |buffer| - readPos
      {
        if TokenOfChar(buffer[readPos]) == Num {
          GetNumToken();
          tokenType := Num;
        } else {
          tokenType := TokenOfChar(buffer[readPos]);
        }
        if tokenType != Num {
          readPos := readPos + 1;
        }
        if tokenType != None {
          break;
        }
      }
      return tokenType;
    }

    method UngetToken()
      modifies this
      ensures State() == Unget(old(State()))
    {
      ungetToken := !ungetToken;
    }

    method EvalFactor() returns (r: V)
      requires readPos <= |buffer| && !ungetToken
      modifies this
      ensures var e := FactorOf(alg, buffer, old(State())); r == e.val && State() == e.st
      decreases |buffer| - readPos, 0
    {
      r := alg.zero;
      var token := GetToken();
      match token {
        case LParen => r := EvalExpr();
        case Num => r := val;
        case _ =>  // unexpected token
      }
    }

    ghost predicate AgreesWithTermLoop(whole: Eval<V>, acc: V)
      requires readPos <= |buffer|
      requires IsMulToken(tokenType) ==> !ungetToken
      reads this
    {
      var l := TermLoop(alg, buffer, acc, State());
      whole.val == l.val && whole.st == l.st
    }

    ghost predicate AgreesWithExprLoop(whole: Eval<V>, acc: V)
      requires readPos <= |buffer|
      requires ungetToken ==> readPos == |buffer| && tokenType == None
      reads this
    {
      var l := ExprLoop(alg, buffer, acc, State());
      whole.val == l.val && whole.st == l.st
    }

    method EvalTerm() returns (r: V)
      requires readPos <= |buffer| && !ungetToken
      modifies this
      ensures var e := TermOf(alg, buffer, old(State())); r == e.val && State() == e.st
      decreases |buffer| - readPos, 1
    {
      hide FactorOf, NextToken;
      ghost var whole := TermOf(alg, buffer, State());
      r := EvalFactor();
      var token := GetToken();
      while token == Multi || token == Div
        invariant old(readPos) <= readPos <= |buffer| && token == tokenType
        invariant IsMulToken(token) ==> !ungetToken && old(readPos) < readPos
        invariant AgreesWithTermLoop(whole, r)
        decreases |buffer| - readPos, IsMulToken(token)
      {
        var operand := EvalFactor();
        if token == Multi {
          r := alg.mul(r, operand);
        } else {
          r := alg.div(r, operand);
        }
        token := GetToken();
      }
      UngetToken();
    }

    method EvalExpr() returns (r: V)
      requires readPos <= |buffer| && !ungetToken
      modifies this
      ensures var e := ExprOf(alg, buffer, old(State())); r == e.val && State() == e.st
      decreases |buffer| - readPos, 2
    {
      hide TermOf, NextToken;
      ghost var whole := ExprOf(alg, buffer, State());
      r := EvalTerm();
      var token := GetToken();
      while IsAddToken(token)
        invariant old(readPos) <= readPos <= |buffer| && token == tokenType
        invariant ungetToken ==> readPos == |buffer| && token == None
        invariant IsAddToken(token) ==> old(readPos) < readPos
        invariant AgreesWithExprLoop(whole, r)
        decreases |buffer| - readPos, IsAddToken(token)
      {
        var operand := EvalTerm();
        match token {
          case Add => r := alg.add(r, operand);
          case Sub => r := alg.sub(r, operand);
          case Or => r := alg.bitOr(r, operand);
          case And => r := alg.bitAnd(r, operand);
          case _ =>
        }
        token := GetToken();
      }
    }
  }

  /** ftk_expr_eval. */
  method EvalText<V>(alg: Algebra<V>, text: string) returns (r: V)
    ensures r == EvalString(alg, text)
  {
    var lex := new Lexer(alg, text);
    r := lex.EvalExpr();
  }
}
