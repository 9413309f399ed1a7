/**
 The language the evaluator is meant to accept, with its meaning, and the proof that the
 evaluator computes that meaning.

   EXPR ::= TERM { ADDOP TERM }     ADDOP ::= + | - | '|' | &
   TERM ::= FACTOR { MULOP FACTOR } MULOP ::= * | /
   FACTOR ::= ( EXPR ) | number

 Every tree node carries the ignorable characters in front of its tokens.
 */
module ExprGrammar {
  import opened ExprEval

  datatype Factor =
    | Lit(gap: string, text: string)
    | Paren(gap: string, body: Sum, close: string)

  datatype Term =
    | FirstFactor(factor: Factor)
    | TermOp(left: Term, gap: string, op: Token, right: Factor)

  datatype Sum =
    | FirstTerm(term: Term)
    | SumOp(left: Sum, gap: string, op: Token, right: Term)

  /** A character the lexer drops between tokens. */
  predicate Ignorable(c: char) {
    c !in "+|&-*/()" && !IsDigit(c)
  }

  lemma IgnorableIff(c: char)
    ensures Ignorable(c) <==> TokenOfChar(c) == None
  {
  }

  predicate IsGap(s: string) {
    forall i :: 0 <= i < |s| ==> Ignorable(s[i])
  }

  /** A gap that may follow a number: a point there would belong to the number. */
  predicate IsGapAfter(s: string) {
    IsGap(s) && (s == "" || s[0] != '.')
  }

  /** A decimal number, or an octal one with a further digit or a point; "0" alone is not covered. */
  predicate IsLiteral(s: string) {
    && s != "" && IsDigit(s[0])
    && (forall i :: 0 <= i < |s| ==> IsRunChar(s[i]))
    && (s[0] == '0' ==> |s| >= 2)
  }

  function LiteralValue<V>(alg: Algebra<V>, s: string): V
    requires IsLiteral(s)
  {
    if s[0] != '0' then Atof(alg, s)
    else if s[1] == '.' then Atof(alg, s[1..])
    else alg.integer(ReadDigits(s[1..], 8, 0, 10).0)
  }

  predicate FactorOk(f: Factor) {
    match f
    case Lit(gap, text) => IsGap(gap) && IsLiteral(text)
    case Paren(gap, body, close) => IsGap(gap) && SumOk(body) && IsGapAfter(close)
  }

  predicate TermOk(t: Term) {
    match t
    case FirstFactor(f) => FactorOk(f)
    case TermOp(left, gap, op, right) =>
      TermOk(left) && IsGapAfter(gap) && IsMulToken(op) && FactorOk(right)
  }

  predicate SumOk(e: Sum) {
    match e
    case FirstTerm(t) => TermOk(t)
    case SumOp(left, gap, op, right) =>
      SumOk(left) && IsGapAfter(gap) && IsAddToken(op) && TermOk(right)
  }

  function OpText(t: Token): string {
    match t
    case Add => "+"
    case Sub => "-"
    case Or => "|"
    case And => "&"
    case Multi => "*"
    case Div => "/"
    case _ => ""
  }

  function FactorText(f: Factor): string {
    match f
    case Lit(gap, text) => gap + text
    case Paren(gap, body, close) => gap + "(" + SumText(body) + close + ")"
  }

  function TermText(t: Term): string {
    match t
    case FirstFactor(f) => FactorText(f)
    case TermOp(left, gap, op, right) => TermText(left) + (gap + OpText(op)) + FactorText(right)
  }

  function SumText(e: Sum): string {
    match e
    case FirstTerm(t) => TermText(t)
    case SumOp(left, gap, op, right) => SumText(left) + (gap + OpText(op)) + TermText(right)
  }

  function FactorValue<V>(alg: Algebra<V>, f: Factor): V
    requires FactorOk(f)
  {
    match f
    case Lit(_, text) => LiteralValue(alg, text)
    case Paren(_, body, _) => SumValue(alg, body)
  }

  function TermValue<V>(alg: Algebra<V>, t: Term): V
    requires TermOk(t)
  {
    match t
    case FirstFactor(f) => FactorValue(alg, f)
    case TermOp(left, _, op, right) =>
      ApplyToken(alg, op, TermValue(alg, left), FactorValue(alg, right))
  }

  function SumValue<V>(alg: Algebra<V>, e: Sum): V
    requires SumOk(e)
  {
    match e
    case FirstTerm(t) => TermValue(alg, t)
    case SumOp(left, _, op, right) =>
      ApplyToken(alg, op, SumValue(alg, left), TermValue(alg, right))
  }

  // ---------------------------------------------------------------- reading one token

  /** `text` stands in `buf` at `pos`. */
  predicate At(buf: string, pos: nat, text: string) {
    pos + |text| <= |buf| && forall i :: 0 <= i < |text| ==> buf[pos + i] == text[i]
  }

  /** No digit or point follows, so that a number that ends at `pos` really ends there. */
  predicate NumberEnds(buf: string, pos: nat) {
    pos <= |buf| && (pos == |buf| || !IsRunChar(buf[pos]))
  }

  lemma AtSplit(buf: string, pos: nat, s: string, t: string)
    requires At(buf, pos, s + t)
    ensures At(buf, pos, s) && At(buf, pos + |s|, t)
  {
    forall i | 0 <= i < |s|
      ensures buf[pos + i] == s[i]
    {
      assert (s + t)[i] == s[i];
    }
    forall i | 0 <= i < |t|
      ensures buf[pos + |s| + i] == t[i]
    {
      assert (s + t)[|s| + i] == t[i];
    }
  }

  lemma ScanSkipsOne<V>(alg: Algebra<V>, buf: string, pos: nat, val: V)
    requires pos < |buf| && Ignorable(buf[pos])
    ensures Scan(alg, buf, pos, val) == Scan(alg, buf, pos + 1, val)
  {
    hide NumberAt, SkipRun, Ignorable, TokenOfChar;
    IgnorableIff(buf[pos]);
  }

  lemma {:induction false} ScanSkips<V>(alg: Algebra<V>, buf: string, pos: nat, end: nat, val: V)
    requires pos <= end <= |buf|
    requires forall i :: pos <= i < end ==> Ignorable(buf[i])
    ensures Scan(alg, buf, pos, val) == Scan(alg, buf, end, val)
    decreases end - pos
  {
    hide Scan, Ignorable;
    if pos < end {
      ScanSkipsOne(alg, buf, pos, val);
      ScanSkips(alg, buf, pos + 1, end, val);
    }
  }

  lemma ScanGap<V>(alg: Algebra<V>, buf: string, pos: nat, gap: string, val: V)
    requires At(buf, pos, gap) && IsGap(gap)
    ensures Scan(alg, buf, pos, val) == Scan(alg, buf, pos + |gap|, val)
  {
    hide Scan, Ignorable;
    forall i | pos <= i < pos + |gap|
      ensures Ignorable(buf[i])
    {
      assert buf[pos + (i - pos)] == gap[i - pos];
    }
    ScanSkips(alg, buf, pos, pos + |gap|, val);
  }

  /** A gap and an operator or parenthesis are read as that token. */
  lemma ScanSymbol<V>(alg: Algebra<V>, buf: string, pos: nat, gap: string, c: char, val: V)
    requires At(buf, pos, gap + [c]) && IsGap(gap)
    requires TokenOfChar(c) != None && TokenOfChar(c) != Num
    ensures Scan(alg, buf, pos, val) == LexState(pos + |gap| + 1, val, TokenOfChar(c), false)
  {
    AtSplit(buf, pos, gap, [c]);
    ScanGap(alg, buf, pos, gap, val);
    assert buf[pos + |gap| + 0] == [c][0];
  }

  lemma {:induction false} ReadDigitsStops(s: string, rest: string, base: nat, acc: nat, limit: nat)
    requires base <= 10
    requires rest == "" || !IsRunChar(rest[0])
    ensures ReadDigits(s + rest, base, acc, limit) == ReadDigits(s, base, acc, limit)
    decreases limit
  {
    if limit > 0 {
      if s == "" {
        assert s + rest == rest;
      } else {
        assert (s + rest)[0] == s[0] && (s + rest)[1..] == s[1..] + rest;
        if 0 <= DigitValue(s[0]) < base {
          ReadDigitsStops(s[1..], rest, base, ShiftIn(acc, base, DigitValue(s[0])), limit - 1);
        }
      }
    }
  }

  lemma AtofStops<V>(alg: Algebra<V>, s: string, rest: string)
    requires rest == "" || !IsRunChar(rest[0])
    ensures Atof(alg, s + rest) == Atof(alg, s)
  {
    ReadDigitsStops(s, rest, 10, 0, 10);
    var n := ReadDigits(s, 10, 0, 10);
    if n.1 < |s| {
      assert (s + rest)[n.1] == s[n.1];
      assert (s + rest)[n.1 + 1..] == s[n.1 + 1..] + rest;
      ReadDigitsStops(s[n.1 + 1..], rest, 10, 0, 10);
    } else if rest != "" {
      assert (s + rest)[n.1] == rest[0];
    }
  }

  lemma {:induction false} RunEnds(buf: string, pos: nat, end: nat)
    requires pos <= end && NumberEnds(buf, end)
    requires forall i :: pos <= i < end ==> IsRunChar(buf[i])
    ensures SkipRun(buf, pos) == end
    decreases end - pos
  {
    if pos < end {
      RunEnds(buf, pos + 1, end);
    }
  }

  /** The number lexer gives a literal its value, and stops inside its run of digits and points. */
  lemma NumberOfLiteral<V>(alg: Algebra<V>, buf: string, p: nat, text: string)
    requires At(buf, p, text) && IsLiteral(text)
    requires NumberEnds(buf, p + |text|)
    ensures NumberAt(alg, buf, p).0 == LiteralValue(alg, text)
    ensures NumberAt(alg, buf, p).1 <= p + |text|
  {
    var rest := buf[p + |text|..];
    assert buf[p..] == text + rest;
    assert buf[p + 0] == text[0];
    if text[0] != '0' {
      AtofStops(alg, text, rest);
    } else {
      var tail := text[1..];
      assert buf[p + 1] == text[1] == tail[0];
      assert buf[p + 1..] == tail + rest;
      AtofStops(alg, tail, rest);
      ReadDigitsStops(tail, rest, 8, 0, 10);
      assert (tail + rest)[0] == tail[0];
      assert SkipBlanks(tail + rest) == tail + rest;
    }
  }

  /** A literal is read as one number. */
  lemma ReadLiteral<V>(alg: Algebra<V>, buf: string, p: nat, text: string)
    requires At(buf, p, text) && IsLiteral(text) && NumberEnds(buf, p + |text|)
    ensures p < |buf| && TokenOfChar(buf[p]) == Num
    ensures var n := NumberAt(alg, buf, p);
            n.0 == LiteralValue(alg, text) && SkipRun(buf, n.1) == p + |text|
  {
    hide LiteralValue, NumberAt, SkipRun;
    forall i | p <= i < p + |text|
      ensures IsRunChar(buf[i])
    {
      assert buf[p + (i - p)] == text[i - p];
    }
    assert buf[p + 0] == text[0];
    NumberOfLiteral(alg, buf, p, text);
    RunEnds(buf, NumberAt(alg, buf, p).1, p + |text|);
  }

  lemma ScanLiteral<V>(alg: Algebra<V>, buf: string, pos: nat, gap: string, text: string, val: V)
    requires At(buf, pos, gap + text) && IsGap(gap) && IsLiteral(text)
    requires NumberEnds(buf, pos + |gap| + |text|)
    ensures pos < |buf|
    ensures Scan(alg, buf, pos, val)
         == LexState(pos + |gap| + |text|, LiteralValue(alg, text), Num, false)
  {
    hide LiteralValue, NumberAt, SkipRun;
    AtSplit(buf, pos, gap, text);
    ScanGap(alg, buf, pos, gap, val);
    ReadLiteral(alg, buf, pos + |gap|, text);
  }

  // ---------------------------------------------------------------- reading a tree

  /** The next token after `pos`, whatever the lexer last read. */
  function Lookahead<V>(alg: Algebra<V>, buf: string, pos: nat): Token
    requires pos <= |buf|
  {
    Scan(alg, buf, pos, alg.zero).token
  }

  lemma {:induction false} ScanIgnoresValue<V>(alg: Algebra<V>, buf: string, pos: nat, v: V, w: V)
    requires pos <= |buf|
    ensures Scan(alg, buf, pos, v).token == Scan(alg, buf, pos, w).token
    ensures Scan(alg, buf, pos, v).pos == Scan(alg, buf, pos, w).pos
    decreases |buf| - pos
  {
    if pos < |buf| && TokenOfChar(buf[pos]) == None {
      ScanIgnoresValue(alg, buf, pos + 1, v, w);
    }
  }

  /** The lexer stands at `pos` with nothing pushed back, or the text is exhausted there. */
  predicate Ready<V>(buf: string, st: LexState<V>, pos: nat) {
    st.pos == pos && pos <= |buf| && (st.ungot ==> pos == |buf|)
  }

  /** `m` is the lexer after it read the token that follows `pos`. */
  predicate Follows<V>(alg: Algebra<V>, buf: string, m: LexState<V>, pos: nat) {
    && pos <= |buf|
    && m.token == Lookahead(alg, buf, pos)
    && m.pos == Scan(alg, buf, pos, alg.zero).pos
    && (m.ungot ==> m.pos == |buf| && m.token == None)
  }

  lemma NextFollows<V>(alg: Algebra<V>, buf: string, st: LexState<V>, pos: nat)
    requires Ready(buf, st, pos)
    ensures Follows(alg, buf, NextToken(alg, buf, st), pos)
  {
    ScanIgnoresValue(alg, buf, pos, st.val, alg.zero);
  }

  lemma GapEndsNumber(buf: string, pos: nat, gap: string, c: char)
    requires At(buf, pos, gap + [c]) && IsGapAfter(gap) && !IsRunChar(c)
    ensures NumberEnds(buf, pos)
  {
    assert buf[pos + 0] == (gap + [c])[0];
    if gap != "" {
      assert Ignorable(gap[0]);
    }
  }

  /** Reading the two parentheses around `body`. */
  lemma SplitParens<V>(alg: Algebra<V>, buf: string, pos: nat, gap: string, body: string, close: string, val: V)
    requires At(buf, pos, gap + "(" + body + close + ")")
    requires IsGap(gap) && IsGapAfter(close)
    ensures pos < |buf|
    ensures Scan(alg, buf, pos, val) == LexState(pos + |gap| + 1, val, LParen, false)
    ensures At(buf, pos + |gap| + 1, body) && NumberEnds(buf, pos + |gap| + 1 + |body|)
    ensures Scan(alg, buf, pos + |gap| + 1 + |body|, alg.zero)
         == LexState(pos + |gap + "(" + body + close + ")"|, alg.zero, LParen, false)
    ensures pos + |gap + "(" + body + close + ")"| <= |buf|
  {
    assert gap + "(" + body + close + ")" == (gap + "(") + (body + (close + ")"));
    AtSplit(buf, pos, gap + "(", body + (close + ")"));
    AtSplit(buf, pos + |gap| + 1, body, close + ")");
    ScanSymbol(alg, buf, pos, gap, '(', val);
    ScanSymbol(alg, buf, pos + |gap| + 1 + |body|, close, ')', alg.zero);
    GapEndsNumber(buf, pos + |gap| + 1 + |body|, close, ')');
  }

  /** EvalFactor reads exactly a factor. */
  lemma {:induction false} FactorReads<V>(alg: Algebra<V>, buf: string, st: LexState<V>, f: Factor)
    requires st.pos <= |buf| && !st.ungot
    requires At(buf, st.pos, FactorText(f)) && FactorOk(f)
    requires NumberEnds(buf, st.pos + |FactorText(f)|)
    ensures var r := FactorOf(alg, buf, st);
            r.val == FactorValue(alg, f) && Ready(buf, r.st, st.pos + |FactorText(f)|)
    decreases f, 0
  {
    hide Scan, SumOk, SumText, At, IsLiteral, LiteralValue, ExprOf;
    match f
    case Lit(gap, text) =>
      ScanLiteral(alg, buf, st.pos, gap, text, st.val);
    case Paren(gap, body, close) =>
      SplitParens(alg, buf, st.pos, gap, SumText(body), close, st.val);
      var s := NextToken(alg, buf, st);
      var m := SumReads(alg, buf, s, body);
      assert FactorOf(alg, buf, st) == ExprOf(alg, buf, s);
      assert ExprLoop(alg, buf, SumValue(alg, body), m).st == m;
  }

  /** Reading an operator between two operands. */
  lemma SplitOperator<V>(alg: Algebra<V>, buf: string, pos: nat, left: string, gap: string, op: Token, right: string)
    requires At(buf, pos, left + (gap + OpText(op)) + right)
    requires IsGapAfter(gap) && (IsAddToken(op) || IsMulToken(op))
    ensures At(buf, pos, left) && NumberEnds(buf, pos + |left|)
    ensures Scan(alg, buf, pos + |left|, alg.zero) == LexState(pos + |left| + |gap| + 1, alg.zero, op, false)
    ensures At(buf, pos + |left| + |gap| + 1, right)
    ensures pos + |left| + |gap| + 1 + |right| == pos + |left + (gap + OpText(op)) + right|
  {
    var p, c := pos + |left|, OpText(op)[0];
    assert OpText(op) == [c];
    assert left + (gap + [c]) + right == left + ((gap + [c]) + right);
    AtSplit(buf, pos, left, (gap + [c]) + right);
    AtSplit(buf, p, gap + [c], right);
    GapEndsNumber(buf, p, gap, c);
    ScanSymbol(alg, buf, p, gap, c, alg.zero);
  }

  lemma TermStep<V>(alg: Algebra<V>, buf: string, acc: V, st: LexState<V>)
    requires st.pos <= |buf| && !st.ungot && IsMulToken(st.token)
    ensures var f := FactorOf(alg, buf, st);
            Same(TermLoop(alg, buf, acc, st),
                 TermLoop(alg, buf, ApplyToken(alg, st.token, acc, f.val), NextToken(alg, buf, f.st)))
  {
  }

  /** EvalTerm on a term reaches its loop with the term's value and the token after the term. */
  lemma {:induction false} TermReads<V>(alg: Algebra<V>, buf: string, st: LexState<V>, t: Term)
    returns (m: LexState<V>)
    requires st.pos <= |buf| && !st.ungot
    requires At(buf, st.pos, TermText(t)) && TermOk(t)
    requires NumberEnds(buf, st.pos + |TermText(t)|)
    ensures Follows(alg, buf, m, st.pos + |TermText(t)|)
    ensures Same(TermOf(alg, buf, st), TermLoop(alg, buf, TermValue(alg, t), m))
    decreases t, 1
  {
    hide Scan, At, NumberAt, FactorOf, ExprOf, NumberEnds, FactorText, FactorValue, TokenOfChar;
    match t
    case FirstFactor(f) =>
      FactorReads(alg, buf, st, f);
      var s := FactorOf(alg, buf, st).st;
      m := NextToken(alg, buf, s);
      NextFollows(alg, buf, s, s.pos);
    case TermOp(left, gap, op, right) =>
      SplitOperator(alg, buf, st.pos, TermText(left), gap, op, FactorText(right));
      var l := TermReads(alg, buf, st, left);
      TermStep(alg, buf, TermValue(alg, left), l);
      FactorReads(alg, buf, l, right);
      var s := FactorOf(alg, buf, l).st;
      m := NextToken(alg, buf, s);
      NextFollows(alg, buf, s, s.pos);
  }

  /**
   `Follows`, except that at the end of the text the token may have been lost: the lexer reports
   the end before it looks at the push-back flag.
   */
  predicate FollowsOrEnds<V>(alg: Algebra<V>, buf: string, m: LexState<V>, pos: nat) {
    && pos <= |buf|
    && m.pos == Scan(alg, buf, pos, alg.zero).pos
    && (m.token == Lookahead(alg, buf, pos) || (m.token == None && m.pos == |buf|))
    && (m.ungot ==> m.pos == |buf| && m.token == None)
  }

  lemma RereadToken<V>(alg: Algebra<V>, buf: string, m: LexState<V>, pos: nat)
    requires Follows(alg, buf, m, pos)
    ensures FollowsOrEnds(alg, buf, NextToken(alg, buf, Unget(m)), pos)
  {
  }

  /** The pushed-back token is read again by the caller of EvalTerm. */
  lemma TermStops<V>(alg: Algebra<V>, buf: string, st: LexState<V>, t: Term)
    requires st.pos <= |buf| && !st.ungot
    requires At(buf, st.pos, TermText(t)) && TermOk(t)
    requires NumberEnds(buf, st.pos + |TermText(t)|)
    requires !IsMulToken(Lookahead(alg, buf, st.pos + |TermText(t)|))
    ensures TermOf(alg, buf, st).val == TermValue(alg, t)
    ensures FollowsOrEnds(alg, buf, NextToken(alg, buf, TermOf(alg, buf, st).st), st.pos + |TermText(t)|)
    decreases t, 2
  {
    var m := TermReads(alg, buf, st, t);
    RereadToken(alg, buf, m, st.pos + |TermText(t)|);
  }

  lemma {:induction false} TermTextNonempty(t: Term)
    requires TermOk(t)
    ensures TermText(t) != ""
  {
    match t
    case FirstFactor(f) =>
    case TermOp(left, _, _, _) => TermTextNonempty(left);
  }

  lemma ExprStep<V>(alg: Algebra<V>, buf: string, acc: V, st: LexState<V>)
    requires st.pos <= |buf| && !st.ungot && IsAddToken(st.token)
    ensures var t := TermOf(alg, buf, st);
            Same(ExprLoop(alg, buf, acc, st),
                 ExprLoop(alg, buf, ApplyToken(alg, st.token, acc, t.val), NextToken(alg, buf, t.st)))
  {
  }

  /** EvalExpr on a sum reaches its loop with the sum's value and the token after the sum. */
  lemma {:induction false} SumReads<V>(alg: Algebra<V>, buf: string, st: LexState<V>, e: Sum)
    returns (m: LexState<V>)
    requires st.pos <= |buf| && !st.ungot
    requires At(buf, st.pos, SumText(e)) && SumOk(e)
    requires NumberEnds(buf, st.pos + |SumText(e)|)
    requires !IsMulToken(Lookahead(alg, buf, st.pos + |SumText(e)|))
    ensures FollowsOrEnds(alg, buf, m, st.pos + |SumText(e)|)
    ensures Same(ExprOf(alg, buf, st), ExprLoop(alg, buf, SumValue(alg, e), m))
    decreases e, 3
  {
    hide Scan, At, NumberAt, TermOf, NumberEnds, Ignorable, ApplyToken;
    match e
    case FirstTerm(t) =>
      TermStops(alg, buf, st, t);
      m := NextToken(alg, buf, TermOf(alg, buf, st).st);
    case SumOp(left, gap, op, right) =>
      SplitOperator(alg, buf, st.pos, SumText(left), gap, op, TermText(right));
      TermTextNonempty(right);
      var l := SumReads(alg, buf, st, left);
      ExprStep(alg, buf, SumValue(alg, left), l);
      TermStops(alg, buf, l, right);
      m := NextToken(alg, buf, TermOf(alg, buf, l).st);
  }

  lemma {:induction false} ScanShift<V>(alg: Algebra<V>, pre: string, rest: string, pos: nat)
    requires pos <= |rest|
    ensures Lookahead(alg, pre + rest, |pre| + pos) == Lookahead(alg, rest, pos)
    decreases |rest| - pos
  {
    if pos < |rest| {
      assert (pre + rest)[|pre| + pos] == rest[pos];
      if TokenOfChar(rest[pos]) == None {
        ScanShift(alg, pre, rest, pos + 1);
      }
    }
  }

  /**
   The evaluator is correct: a sum, followed by anything that neither continues its last number
   nor offers another operator, evaluates to the value of its parse tree.
   */
  lemma Evaluates<V>(alg: Algebra<V>, e: Sum, rest: string)
    requires SumOk(e)
    requires rest == "" || !IsRunChar(rest[0])
    requires !IsMulToken(Lookahead(alg, rest, 0)) && !IsAddToken(Lookahead(alg, rest, 0))
    ensures EvalString(alg, SumText(e) + rest) == SumValue(alg, e)
  {
    hide TermOf, Scan, SumText, NumberAt, SumValue;
    var buf := SumText(e) + rest;
    assert At(buf, 0, SumText(e));
    assert rest != "" ==> buf[|SumText(e)|] == rest[0];
    ScanShift(alg, SumText(e), rest, 0);
    hide At;
    var m := SumReads(alg, buf, Start(alg), e);
  }

  // ---------------------------------------------------------------- printing a tree

  /** An arithmetic expression without any concrete syntax. */
  datatype Tree =
    | Number(text: string)
    | Plus(left: Tree, right: Tree)
    | Minus(left: Tree, right: Tree)
    | BitOr(left: Tree, right: Tree)
    | BitAnd(left: Tree, right: Tree)
    | Times(left: Tree, right: Tree)
    | Over(left: Tree, right: Tree)

  predicate TreeOk(t: Tree) {
    match t
    case Number(text) => IsLiteral(text)
    case _ => TreeOk(t.left) && TreeOk(t.right)
  }

  function TreeValue<V>(alg: Algebra<V>, t: Tree): V
    requires TreeOk(t)
  {
    match t
    case Number(text) => LiteralValue(alg, text)
    case Plus(l, r) => alg.add(TreeValue(alg, l), TreeValue(alg, r))
    case Minus(l, r) => alg.sub(TreeValue(alg, l), TreeValue(alg, r))
    case BitOr(l, r) => alg.bitOr(TreeValue(alg, l), TreeValue(alg, r))
    case BitAnd(l, r) => alg.bitAnd(TreeValue(alg, l), TreeValue(alg, r))
    case Times(l, r) => alg.mul(TreeValue(alg, l), TreeValue(alg, r))
    case Over(l, r) => alg.div(TreeValue(alg, l), TreeValue(alg, r))
  }

  predicate IsSum(t: Tree) {
    t.Plus? || t.Minus? || t.BitOr? || t.BitAnd?
  }

  predicate IsProduct(t: Tree) {
    t.Times? || t.Over?
  }

  /** The expression as text, with parentheses only where precedence and associativity need them. */
  function Show(t: Tree): string
    decreases t, 2
  {
    match t
    case Plus(l, r) => Show(l) + "+" + ShowTerm(r)
    case Minus(l, r) => Show(l) + "-" + ShowTerm(r)
    case BitOr(l, r) => Show(l) + "|" + ShowTerm(r)
    case BitAnd(l, r) => Show(l) + "&" + ShowTerm(r)
    case _ => ShowTerm(t)
  }

  /** The same where an operand of `*` or `/` is to stand, on its left. */
  function ShowTerm(t: Tree): string
    decreases t, 1
  {
    match t
    case Times(l, r) => ShowTerm(l) + "*" + ShowFactor(r)
    case Over(l, r) => ShowTerm(l) + "/" + ShowFactor(r)
    case _ => ShowFactor(t)
  }

  /** And on its right. */
  function ShowFactor(t: Tree): string
    decreases t, 0
  {
    match t
    case Number(text) => text
    case Plus(l, r) => "(" + Show(l) + "+" + ShowTerm(r) + ")"
    case Minus(l, r) => "(" + Show(l) + "-" + ShowTerm(r) + ")"
    case BitOr(l, r) => "(" + Show(l) + "|" + ShowTerm(r) + ")"
    case BitAnd(l, r) => "(" + Show(l) + "&" + ShowTerm(r) + ")"
    case Times(l, r) => "(" + ShowTerm(l) + "*" + ShowFactor(r) + ")"
    case Over(l, r) => "(" + ShowTerm(l) + "/" + ShowFactor(r) + ")"
  }

  function TokenOf(t: Tree): Token
    requires !t.Number?
  {
    match t
    case Plus(_, _) => Add
    case Minus(_, _) => Sub
    case BitOr(_, _) => Or
    case BitAnd(_, _) => And
    case Times(_, _) => Multi
    case Over(_, _) => Div
  }

  /** Its parse tree. */
  function ToSum(t: Tree): Sum
    decreases t, 2
  {
    if IsSum(t) then SumOp(ToSum(t.left), "", TokenOf(t), ToTerm(t.right)) else FirstTerm(ToTerm(t))
  }

  function ToTerm(t: Tree): Term
    decreases t, 1
  {
    if IsProduct(t) then TermOp(ToTerm(t.left), "", TokenOf(t), ToFactor(t.right)) else FirstFactor(ToFactor(t))
  }

  function ToFactor(t: Tree): Factor
    decreases t, 0
  {
    if t.Number? then Lit("", t.text)
    else if IsSum(t) then Paren("", SumOp(ToSum(t.left), "", TokenOf(t), ToTerm(t.right)), "")
    else Paren("", FirstTerm(TermOp(ToTerm(t.left), "", TokenOf(t), ToFactor(t.right))), "")
  }

  lemma {:induction false} PrintKeepsValue<V>(alg: Algebra<V>, t: Tree)
    requires TreeOk(t)
    ensures FactorOk(ToFactor(t)) && FactorValue(alg, ToFactor(t)) == TreeValue(alg, t)
    ensures TermOk(ToTerm(t)) && TermValue(alg, ToTerm(t)) == TreeValue(alg, t)
    ensures SumOk(ToSum(t)) && SumValue(alg, ToSum(t)) == TreeValue(alg, t)
  {
    if t.Number? {
      hide LiteralValue, IsLiteral;
      assert ToTerm(t) == FirstFactor(ToFactor(t));
      assert ToSum(t) == FirstTerm(ToTerm(t));
    } else {
      hide ToSum, ToTerm, ToFactor, TreeValue, ApplyToken, LiteralValue, IsLiteral;
      PrintKeepsValue(alg, t.left);
      PrintKeepsValue(alg, t.right);
      TreeUnfolds(t);
      ValueUnfolds(alg, t);
      if IsProduct(t) {
        assert TermOk(ToTerm(t)) && SumOk(FirstTerm(ToTerm(t)));
        assert SumValue(alg, FirstTerm(ToTerm(t))) == TermValue(alg, ToTerm(t));
      }
    }
  }

  lemma ValueUnfolds<V>(alg: Algebra<V>, t: Tree)
    requires TreeOk(t) && !t.Number?
    ensures IsAddToken(TokenOf(t)) == IsSum(t) && IsMulToken(TokenOf(t)) == IsProduct(t)
    ensures TreeValue(alg, t) == ApplyToken(alg, TokenOf(t), TreeValue(alg, t.left), TreeValue(alg, t.right))
  {
  }

  lemma ShowUnfolds(t: Tree)
    requires !t.Number?
    ensures IsSum(t) ==> Show(t) == Show(t.left) + OpText(TokenOf(t)) + ShowTerm(t.right)
    ensures IsProduct(t) ==> Show(t) == ShowTerm(t)
  {
    hide ShowTerm;
  }

  lemma ShowTermUnfolds(t: Tree)
    requires !t.Number?
    ensures IsProduct(t) ==> ShowTerm(t) == ShowTerm(t.left) + OpText(TokenOf(t)) + ShowFactor(t.right)
    ensures IsSum(t) ==> ShowTerm(t) == ShowFactor(t)
  {
    hide ShowFactor;
  }

  lemma ShowFactorUnfolds(t: Tree)
    requires !t.Number?
    ensures IsSum(t) ==> ShowFactor(t) == "(" + (Show(t.left) + OpText(TokenOf(t)) + ShowTerm(t.right)) + ")"
    ensures IsProduct(t) ==> ShowFactor(t) == "(" + (ShowTerm(t.left) + OpText(TokenOf(t)) + ShowFactor(t.right)) + ")"
  {
    hide Show, ShowTerm;
  }

  lemma NothingInFront(s: string)
    ensures "" + s == s && s + "" == s
  {
  }

  /** How the texts of parse trees without gaps are put together. */
  lemma TextUnfolds(s: Sum, t: Term, f: Factor, op: Token)
    ensures SumText(SumOp(s, "", op, t)) == SumText(s) + OpText(op) + TermText(t)
    ensures TermText(TermOp(t, "", op, f)) == TermText(t) + OpText(op) + FactorText(f)
    ensures FactorText(Paren("", s, "")) == "(" + SumText(s) + ")"
    ensures SumText(FirstTerm(t)) == TermText(t) && TermText(FirstFactor(f)) == FactorText(f)
  {
    hide OpText;
    NothingInFront(OpText(op));
    NothingInFront("(");
    NothingInFront("(" + SumText(s));
  }

  lemma TreeUnfolds(t: Tree)
    requires !t.Number?
    ensures IsSum(t) ==> ToSum(t) == SumOp(ToSum(t.left), "", TokenOf(t), ToTerm(t.right))
                         && ToTerm(t) == FirstFactor(ToFactor(t)) && ToFactor(t) == Paren("", ToSum(t), "")
    ensures IsProduct(t) ==> ToTerm(t) == TermOp(ToTerm(t.left), "", TokenOf(t), ToFactor(t.right))
                             && ToSum(t) == FirstTerm(ToTerm(t)) && ToFactor(t) == Paren("", FirstTerm(ToTerm(t)), "")
  {
  }

  /** The parse tree stands for that text. */
  lemma {:induction false} ParseTreeShows(t: Tree)
    ensures FactorText(ToFactor(t)) == ShowFactor(t)
    ensures TermText(ToTerm(t)) == ShowTerm(t)
    ensures SumText(ToSum(t)) == Show(t)
  {
    if t.Number? {
      assert FactorText(ToFactor(t)) == "" + t.text == t.text;
    } else {
      hide Show, ShowTerm, ShowFactor, ToSum, ToTerm, ToFactor, OpText, SumText, TermText, FactorText;
      var l, r, op := t.left, t.right, TokenOf(t);
      ParseTreeShows(l);
      ParseTreeShows(r);
      ShowUnfolds(t);
      ShowTermUnfolds(t);
      ShowFactorUnfolds(t);
      TreeUnfolds(t);
      if IsSum(t) {
        TextUnfolds(ToSum(l), ToTerm(r), ToFactor(t), op);
        TextUnfolds(ToSum(t), ToTerm(t), ToFactor(t), op);
      } else {
        TextUnfolds(ToSum(l), ToTerm(l), ToFactor(r), op);
        TextUnfolds(FirstTerm(ToTerm(t)), ToTerm(t), ToFactor(t), op);
      }
    }
  }

  /** Every expression, printed, evaluates to its own value. */
  lemma PrintedTreeEvaluates<V>(alg: Algebra<V>, t: Tree)
    requires TreeOk(t)
    ensures EvalString(alg, Show(t)) == TreeValue(alg, t)
  {
    hide EvalString, SumText, Show, ToSum, TreeValue, SumValue, SumOk;
    PrintKeepsValue(alg, t);
    ParseTreeShows(t);
    Evaluates(alg, ToSum(t), "");
    assert SumText(ToSum(t)) + "" == SumText(ToSum(t));
  }

  /** What each operator means, by the results of the evaluator alone. */
  lemma OperatorsMean<V>(alg: Algebra<V>, l: Tree, r: Tree)
    requires TreeOk(l) && TreeOk(r)
    ensures EvalString(alg, Show(Plus(l, r))) == alg.add(EvalString(alg, Show(l)), EvalString(alg, Show(r)))
    ensures EvalString(alg, Show(Minus(l, r))) == alg.sub(EvalString(alg, Show(l)), EvalString(alg, Show(r)))
    ensures EvalString(alg, Show(BitOr(l, r))) == alg.bitOr(EvalString(alg, Show(l)), EvalString(alg, Show(r)))
    ensures EvalString(alg, Show(BitAnd(l, r))) == alg.bitAnd(EvalString(alg, Show(l)), EvalString(alg, Show(r)))
    ensures EvalString(alg, Show(Times(l, r))) == alg.mul(EvalString(alg, Show(l)), EvalString(alg, Show(r)))
    ensures EvalString(alg, Show(Over(l, r))) == alg.div(EvalString(alg, Show(l)), EvalString(alg, Show(r)))
  {
    hide EvalString, Show;
    PrintedTreeEvaluates(alg, l);
    PrintedTreeEvaluates(alg, r);
    PrintedTreeEvaluates(alg, Plus(l, r));
    PrintedTreeEvaluates(alg, Minus(l, r));
    PrintedTreeEvaluates(alg, BitOr(l, r));
    PrintedTreeEvaluates(alg, BitAnd(l, r));
    PrintedTreeEvaluates(alg, Times(l, r));
    PrintedTreeEvaluates(alg, Over(l, r));
  }

  // ---------------------------------------------------------------- what numbers mean

  /** Sixteen digits, in small letters or in capitals, and no others. */
  lemma DigitsMean(n: nat, c: char)
    requires n < 16
    ensures DigitValue("0123456789abcdef"[n]) == DigitValue("0123456789ABCDEF"[n]) == n
    ensures c !in "0123456789abcdefABCDEF" ==> DigitValue(c) == -1
  {
  }

  /** A string of digits of some base, the last one counting once. */
  function Positional(digits: string, base: nat): nat
    requires AllDigits(digits, base)
  {
    if digits == "" then 0
    else Positional(digits[..|digits| - 1], base) * base + DigitValue(digits[|digits| - 1])
  }

  predicate AllDigits(s: string, base: nat) {
    forall i :: 0 <= i < |s| ==> 0 <= DigitValue(s[i]) < base
  }

  lemma OneMoreDigit(front: string, c: char, base: nat)
    requires (base == 8 || base == 10 || base == 16) && AllDigits(front, base) && AllDigits([c], base)
    ensures 0 <= DigitValue(c) < base && AllDigits(front + [c], base)
    ensures Positional(front + [c], base) == ShiftIn(Positional(front, base), base, DigitValue(c))
  {
    var more := front + [c];
    assert [c][0] == c && more[..|more| - 1] == front;
  }

  /** No digit of the base, and none of a larger one either. */
  predicate Ends(s: string, base: nat) {
    s != "" ==> !(0 <= DigitValue(s[0]) < base)
  }

  lemma NothingEnds(base: nat)
    ensures Ends("", base)
  {
  }

  /** Reading goes on from the digits read before, up to so many of them, and stops in front of what is no digit. */
  lemma {:induction false} DigitsRead(front: string, s: string, rest: string, base: nat, limit: nat)
    requires (base == 8 || base == 10 || base == 16) && AllDigits(front, base) && AllDigits(s, base) && Ends(rest, base)
    ensures var n := if |s| < limit then |s| else limit;
            ReadDigits(s + rest, base, Positional(front, base), limit) == (Positional(front + s[..n], base), n)
    decreases |s|
  {
    hide Positional, ShiftIn, DigitValue;
    var n := if |s| < limit then |s| else limit;
    if n == 0 {
      assert front + s[..0] == front && (s == "" ==> s + rest == rest);
    } else {
      assert [s[0]][0] == s[0];
      OneMoreDigit(front, s[0], base);
      assert (s + rest)[0] == s[0] && (s + rest)[1..] == s[1..] + rest;
      DigitsRead(front + [s[0]], s[1..], rest, base, limit - 1);
      assert front + s[..n] == (front + [s[0]]) + s[1..][..n - 1];
    }
  }

  function UpToTen(s: string): string {
    if |s| <= 10 then s else s[..10]
  }

  lemma TenDigitsRead(s: string, rest: string, base: nat)
    requires (base == 8 || base == 10 || base == 16) && AllDigits(s, base) && Ends(rest, base)
    ensures ReadDigits(s + rest, base, 0, 10) == (Positional(UpToTen(s), base), |UpToTen(s)|)
  {
    hide ReadDigits, DigitValue;
    DigitsRead("", s, rest, base, 10);
    var n := if |s| < 10 then |s| else 10;
    assert "" + s[..n] == UpToTen(s);
  }

  /** A decimal number.  Only its first ten digits count. */
  lemma WholeNumberMeans<V>(alg: Algebra<V>, a: string)
    requires a != "" && AllDigits(a, 10) && a[0] != '0'
    ensures IsLiteral(a) && LiteralValue(alg, a) == alg.decimal(Positional(UpToTen(a), 10), 0)
  {
    hide ReadDigits, Positional;
    TenDigitsRead(a, "", 10);
    assert a + "" == a;
  }

  lemma PointLiteral(a: string, b: string)
    requires a != "" && AllDigits(a, 10) && AllDigits(b, 10) && a[0] != '0'
    ensures IsLiteral(a + "." + b) && Ends("." + b, 10)
  {
    var t := a + "." + b;
    forall i | 0 <= i < |t|
      ensures IsRunChar(t[i])
    {
      assert t[i] == if i < |a| then a[i] else if i == |a| then '.' else b[i - |a| - 1];
    }
  }

  /** One with a point: what stands behind it is read as a whole number as well. */
  lemma FractionMeans<V>(alg: Algebra<V>, a: string, b: string)
    requires 0 < |a| <= 10 && AllDigits(a, 10) && AllDigits(b, 10) && a[0] != '0'
    ensures IsLiteral(a + "." + b)
    ensures LiteralValue(alg, a + "." + b) == alg.decimal(Positional(a, 10), Positional(UpToTen(b), 10))
  {
    hide ReadDigits, Positional, IsLiteral, AllDigits, DigitValue, Ends;
    PointLiteral(a, b);
    var t, rest := a + "." + b, "." + b;
    assert t == a + rest && t[0] == a[0];
    TenDigitsRead(a, rest, 10);
    assert t[|a|] == '.' && t[|a| + 1..] == b == b + "";
    NothingEnds(10);
    TenDigitsRead(b, "", 10);
  }

  /** An octal one. */
  lemma OctalMeans<V>(alg: Algebra<V>, a: string)
    requires a != "" && AllDigits(a, 8)
    ensures IsLiteral("0" + a) && LiteralValue(alg, "0" + a) == alg.integer(Positional(UpToTen(a), 8))
  {
    hide ReadDigits, Positional;
    TenDigitsRead(a, "", 8);
    var t := "0" + a;
    assert t[1..] == a == a + "" && t[0] == '0' && t[1] == a[0];
  }

  /** Behind a hexadecimal digit the lexer finds no operator. */
  lemma {:induction false} NoOperatorBehind<V>(alg: Algebra<V>, buf: string, pos: nat, val: V)
    requires pos <= |buf| && AllDigits(buf[pos..], 16)
    ensures Scan(alg, buf, pos, val).token in {None, Num}
    decreases |buf| - pos
  {
    hide NumberAt, SkipRun;
    if pos < |buf| {
      assert buf[pos] == buf[pos..][0] && 0 <= DigitValue(buf[pos]) && buf[pos + 1..] == buf[pos..][1..];
      if !IsDigit(buf[pos]) {
        NoOperatorBehind(alg, buf, pos + 1, val);
      }
    }
  }

  lemma HexNumber<V>(alg: Algebra<V>, x: char, a: string)
    requires a != "" && AllDigits(a, 16) && (x == 'x' || x == 'X')
    ensures NumberAt(alg, "0" + [x] + a, 0) == (alg.integer(Positional(UpToTen(a), 16)), 3)
  {
    hide ReadDigits, Positional, DigitValue, AllDigits;
    var buf := "0" + [x] + a;
    assert buf[2..] == a == a + "" && buf[0] == '0' && buf[1] == x;
    TenDigitsRead(a, "", 16);
    StrtolDigits(a, 16);
  }

  lemma StrtolDigits(a: string, base: nat)
    requires a != "" && AllDigits(a, base)
    ensures Strtol(a, base) == ReadDigits(a, base, 0, 10).0
  {
    hide ReadDigits;
    assert 0 <= DigitValue(a[0]);
  }

  /** A hexadecimal one, although its letters are not read as a part of it. */
  lemma HexMeans<V>(alg: Algebra<V>, x: char, a: string)
    requires a != "" && AllDigits(a, 16) && (x == 'x' || x == 'X')
    ensures EvalString(alg, "0" + [x] + a) == alg.integer(Positional(UpToTen(a), 16))
  {
    hide EvalString, Positional, DigitValue, NumberAt, SkipRun, Scan;
    var buf := "0" + [x] + a;
    HexNumber(alg, x, a);
    ScanNumber(alg, buf, alg.zero);
    var end := SkipRun(buf, 3);
    assert buf[end..] == a[end - 2..];
    NumberAlone(alg, buf, LexState(end, alg.integer(Positional(UpToTen(a), 16)), Num, false));
  }

  lemma NumberAlone<V>(alg: Algebra<V>, buf: string, s: LexState<V>)
    requires NextToken(alg, buf, Start(alg)) == s && s.token == Num && s.pos <= |buf| && !s.ungot
    requires AllDigits(buf[s.pos..], 16)
    ensures EvalString(alg, buf) == s.val
  {
    hide Scan, ApplyToken, AllDigits;
    assert FactorOf(alg, buf, Start(alg)) == Eval(s.val, s, 0);
    var n := NextToken(alg, buf, s);
    NoOperatorBehind(alg, buf, s.pos, s.val);
    assert TermOf(alg, buf, Start(alg)) == Eval(s.val, Unget(n), 0);
    assert ExprLoop(alg, buf, s.val, NextToken(alg, buf, Unget(n))).val == s.val;
  }

  lemma ScanNumber<V>(alg: Algebra<V>, buf: string, val: V)
    requires buf != "" && IsDigit(buf[0])
    ensures Scan(alg, buf, 0, val) == LexState(SkipRun(buf, NumberAt(alg, buf, 0).1), NumberAt(alg, buf, 0).0, Num, false)
  {
    hide SkipRun, NumberAt;
  }

  lemma ShowNumber(text: string)
    ensures Show(Number(text)) == text
  {
    assert ShowFactor(Number(text)) == text;
    assert ShowTerm(Number(text)) == text;
  }

  lemma {:induction false} ZeroInFront(b: string)
    requires AllDigits(b, 10)
    ensures Positional("0" + b, 10) == Positional(b, 10)
  {
    var t := "0" + b;
    if b != "" {
      assert t[..|t| - 1] == "0" + b[..|b| - 1] && t[|t| - 1] == b[|b| - 1];
      ZeroInFront(b[..|b| - 1]);
    } else {
      assert t[..0] == "" && t[0] == '0';
    }
  }

  /** So a zero directly behind the point is lost: "1.05" is "1.5". */
  lemma ZeroBehindPointLost<V>(alg: Algebra<V>, a: string, b: string)
    requires 0 < |a| <= 10 && |b| < 10 && AllDigits(a, 10) && AllDigits(b, 10) && a[0] != '0'
    ensures EvalString(alg, a + "." + ("0" + b)) == EvalString(alg, a + "." + b)
  {
    hide LiteralValue, EvalString, IsLiteral, Positional, Show;
    FractionMeans(alg, a, "0" + b);
    FractionMeans(alg, a, b);
    ZeroInFront(b);
    ShowNumber(a + "." + ("0" + b));
    ShowNumber(a + "." + b);
    assert UpToTen("0" + b) == "0" + b;
    PrintedTreeEvaluates(alg, Number(a + "." + ("0" + b)));
    PrintedTreeEvaluates(alg, Number(a + "." + b));
  }

  // ---------------------------------------------------------------- where the lexer goes wrong

  /**
   A lone zero swallows the character behind it, so `IsLiteral` cannot admit it: in "0|1" the
   operator is never seen, and the whole text is one number with the value that ftk_strtol
   gives "|1".
   */
  lemma ZeroSwallowsOperator<V>(alg: Algebra<V>)
    ensures EvalString(alg, "0|1") == alg.integer(0)
  {
    var buf := "0|1";
    assert buf[1..] == "|1";
    assert Strtol("|1", 8) == 0 by {
      assert SkipBlanks("|1") == "|1";
      assert DigitValue('|') == -1;
    }
    assert NumberAt(alg, buf, 0) == (alg.integer(0), 2);
    RunEnds(buf, 2, 3);
    var s := LexState(3, alg.integer(0), Num, false);
    assert TokenOfChar('0') == Num;
    assert NextToken(alg, buf, Start(alg)) == Scan(alg, buf, 0, alg.zero) == s;
    assert FactorOf(alg, buf, Start(alg)) == Eval(s.val, s, 0);
    var n := NextToken(alg, buf, s);
    assert n == s.(token := None);
    assert TermOf(alg, buf, Start(alg)) == Eval(s.val, Unget(n), 0);
    assert ExprLoop(alg, buf, s.val, NextToken(alg, buf, Unget(n))).val == s.val;
  }

  lemma {:induction false} RunFromInside(buf: string, pos: nat, p: nat)
    requires pos <= |buf| && pos <= p <= SkipRun(buf, pos)
    ensures SkipRun(buf, p) == SkipRun(buf, pos)
    decreases p - pos
  {
    if pos < p {
      RunFromInside(buf, pos + 1, p);
    }
  }

  /**
   Reading a number takes exactly the digits and points it begins with, unless that is a single 0
   and something follows: then the character behind the 0 is lost as well.
   */
  lemma NumberTakesRunIff<V>(alg: Algebra<V>, buf: string, pos: nat, val: V)
    requires pos < |buf| && IsDigit(buf[pos])
    ensures var end := SkipRun(buf, pos);
            Scan(alg, buf, pos, val).pos == end <==> buf[pos] != '0' || end > pos + 1 || end == |buf|
  {
    var end, n := SkipRun(buf, pos), NumberAt(alg, buf, pos).1;
    assert end == SkipRun(buf, pos + 1);
    if n <= end {
      RunFromInside(buf, pos, n);
    }
  }
}
