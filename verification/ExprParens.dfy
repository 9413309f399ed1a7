/**
 The lexer of src/ftk_expr.c reports a closing parenthesis as an opening one, so the evaluator
 cannot tell the two apart: exchanging any of them in any text leaves its value as it is.
 */
module ExprParens {
  import opened ExprEval

  /** Texts that differ only in which parentheses open and which close. */
  ghost predicate Alike(s: string, t: string) {
    |s| == |t| && forall i :: 0 <= i < |s| ==> s[i] == t[i] || (s[i] in "()" && t[i] in "()")
  }

  lemma {:induction false} DigitsAlike(s: string, t: string, base: nat, acc: nat, limit: nat)
    requires Alike(s, t) && base <= 16
    ensures ReadDigits(s, base, acc, limit) == ReadDigits(t, base, acc, limit)
    decreases limit
  {
    if limit > 0 && s != "" && 0 <= DigitValue(s[0]) < base {
      DigitsAlike(s[1..], t[1..], base, ShiftIn(acc, base, DigitValue(s[0])), limit - 1);
    }
  }

  lemma {:induction false} BlanksAlike(s: string, t: string)
    requires Alike(s, t)
    ensures Alike(SkipBlanks(s), SkipBlanks(t))
    decreases |s|
  {
    if s != "" && IsBlank(s[0]) {
      BlanksAlike(s[1..], t[1..]);
    }
  }

  lemma StrtolAlike(s: string, t: string, base: nat)
    requires Alike(s, t) && base <= 16
    ensures Strtol(s, base) == Strtol(t, base)
  {
    BlanksAlike(s, t);
    var u, v := SkipBlanks(s), SkipBlanks(t);
    DigitsAlike(u, v, base, 0, 10);
    if u != "" {
      DigitsAlike(u[1..], v[1..], base, 0, 10);
    }
  }

  lemma AtofAlike<V>(alg: Algebra<V>, s: string, t: string)
    requires Alike(s, t)
    ensures Atof(alg, s) == Atof(alg, t)
  {
    DigitsAlike(s, t, 10, 0, 10);
    var n := ReadDigits(s, 10, 0, 10).1;
    if n < |s| {
      DigitsAlike(s[n + 1..], t[n + 1..], 10, 0, 10);
    }
  }

  lemma {:induction false} RunAlike(s: string, t: string, pos: nat)
    requires Alike(s, t) && pos <= |s|
    ensures SkipRun(s, pos) == SkipRun(t, pos)
    decreases |s| - pos
  {
    if pos < |s| && IsRunChar(s[pos]) {
      RunAlike(s, t, pos + 1);
    }
  }

  lemma NumberAlike<V>(alg: Algebra<V>, s: string, t: string, pos: nat)
    requires Alike(s, t) && pos < |s|
    ensures s[pos] !in "()" ==> NumberAt(alg, s, pos) == NumberAt(alg, t, pos)
  {
    hide Atof, Strtol;
    AtofAlike(alg, s[pos..], t[pos..]);
    AtofAlike(alg, s[pos + 1..], t[pos + 1..]);
    StrtolAlike(s[pos + 1..], t[pos + 1..], 8);
    if pos + 2 < |s| {
      StrtolAlike(s[pos + 2..], t[pos + 2..], 16);
    }
  }

  lemma {:induction false} ScanAlike<V>(alg: Algebra<V>, s: string, t: string, pos: nat, val: V)
    requires Alike(s, t) && pos <= |s|
    ensures Scan(alg, s, pos, val) == Scan(alg, t, pos, val)
    decreases |s| - pos
  {
    hide NumberAt, SkipRun;
    if pos < |s| {
      NumberAlike(alg, s, t, pos);
      assert TokenOfChar(s[pos]) == TokenOfChar(t[pos]);
      if TokenOfChar(s[pos]) == Num {
        RunAlike(s, t, NumberAt(alg, s, pos).1);
      } else if TokenOfChar(s[pos]) == None {
        ScanAlike(alg, s, t, pos + 1, val);
      }
    }
  }

  lemma TokenAlike<V>(alg: Algebra<V>, s: string, t: string, st: LexState<V>)
    requires Alike(s, t) && st.pos <= |s|
    ensures NextToken(alg, s, st) == NextToken(alg, t, st)
  {
    hide Scan;
    ScanAlike(alg, s, t, st.pos, st.val);
  }

  lemma {:induction false} FactorAlike<V>(alg: Algebra<V>, s: string, t: string, st: LexState<V>)
    requires Alike(s, t) && st.pos <= |s| && !st.ungot
    ensures FactorOf(alg, s, st) == FactorOf(alg, t, st)
    decreases |s| - st.pos, 0
  {
    hide NextToken, ExprOf;
    TokenAlike(alg, s, t, st);
    var next := NextToken(alg, s, st);
    if next.token == LParen {
      ExprAlike(alg, s, t, next);
    }
  }

  lemma {:induction false} TermLoopAlike<V>(alg: Algebra<V>, s: string, t: string, acc: V, st: LexState<V>)
    requires Alike(s, t) && st.pos <= |s| && (IsMulToken(st.token) ==> !st.ungot)
    ensures TermLoop(alg, s, acc, st) == TermLoop(alg, t, acc, st)
    decreases |s| - st.pos, if IsMulToken(st.token) then 2 else 1
  {
    hide NextToken, FactorOf, ApplyToken;
    if IsMulToken(st.token) {
      FactorAlike(alg, s, t, st);
      var f := FactorOf(alg, s, st);
      TokenAlike(alg, s, t, f.st);
      TermLoopAlike(alg, s, t, ApplyToken(alg, st.token, acc, f.val), NextToken(alg, s, f.st));
    }
  }

  lemma {:induction false} TermAlike<V>(alg: Algebra<V>, s: string, t: string, st: LexState<V>)
    requires Alike(s, t) && st.pos <= |s| && !st.ungot
    ensures TermOf(alg, s, st) == TermOf(alg, t, st)
    decreases |s| - st.pos, 3
  {
    hide NextToken, FactorOf, TermLoop;
    FactorAlike(alg, s, t, st);
    var f := FactorOf(alg, s, st);
    TokenAlike(alg, s, t, f.st);
    TermLoopAlike(alg, s, t, f.val, NextToken(alg, s, f.st));
  }

  lemma {:induction false} ExprLoopAlike<V>(alg: Algebra<V>, s: string, t: string, acc: V, st: LexState<V>)
    requires Alike(s, t) && st.pos <= |s| && (st.ungot ==> st.pos == |s| && st.token == None)
    ensures ExprLoop(alg, s, acc, st) == ExprLoop(alg, t, acc, st)
    decreases |s| - st.pos, if IsAddToken(st.token) then 5 else 4
  {
    hide NextToken, TermOf, ApplyToken;
    if IsAddToken(st.token) {
      TermAlike(alg, s, t, st);
      var r := TermOf(alg, s, st);
      TokenAlike(alg, s, t, r.st);
      ExprLoopAlike(alg, s, t, ApplyToken(alg, st.token, acc, r.val), NextToken(alg, s, r.st));
    }
  }

  lemma {:induction false} ExprAlike<V>(alg: Algebra<V>, s: string, t: string, st: LexState<V>)
    requires Alike(s, t) && st.pos <= |s| && !st.ungot
    ensures ExprOf(alg, s, st) == ExprOf(alg, t, st)
    decreases |s| - st.pos, 6
  {
    hide NextToken, TermOf, ExprLoop;
    TermAlike(alg, s, t, st);
    var r := TermOf(alg, s, st);
    TokenAlike(alg, s, t, r.st);
    ExprLoopAlike(alg, s, t, r.val, NextToken(alg, s, r.st));
  }

  lemma ParensAlike<V>(alg: Algebra<V>, s: string, t: string)
    requires Alike(s, t)
    ensures EvalString(alg, s) == EvalString(alg, t)
  {
    hide ExprOf;
    ExprAlike(alg, s, t, Start(alg));
  }
}
