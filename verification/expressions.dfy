/** Expressions: sequences of symbols whose code is handed to an interpreter.

A chain with several equality operators (`a == b == c`) is split into one
sub-expression per operator, each holding that operator and the operand
groups on either side of it; the sub-results are combined with Python's
short-circuit `and`. Python's `eval` itself is a parameter.
*/
module Expressions {
  import opened Shapes
  import opened Symbols

  /** What evaluating code yields: an integer, a boolean, or a syntax error (`ValueError`). */
  datatype Outcome = IntResult(n: int) | BoolResult(b: bool) | Invalid

  /** Python truthiness; an error is never truthy. */
  predicate Truthy(v: Outcome) {
    match v
    case IntResult(n) => n != 0
    case BoolResult(b) => b
    case Invalid => false
  }

  /** The interpreter the code of an expression with at most one equality operator is handed to. */
  type Interpreter = string -> Outcome

  datatype Expression = Expression(symbols: seq<Symbol>)

  /** `isinstance(s, EqualityOperator)`. */
  predicate IsEq(s: Symbol) {
    s.kind == EqualityOperator
  }

  // ---------------------------------------------------------------------------
  // Substitution and code

  /** The position a Python list index (possibly negative) designates. */
  function Position(n: nat, index: int): (k: nat)
    requires -(n as int) <= index < n
    ensures k < n && (k == index || k == index + n)
  {
    if index < 0 then index + n else index
  }

  /** `substitute_symbol`: a copy of `e` with `sym` at `index`. */
  function Substitute(e: Expression, sym: Symbol, index: int): (r: Expression)
    requires -|e.symbols| <= index < |e.symbols|
    ensures |r.symbols| == |e.symbols|
    ensures r.symbols[Position(|e.symbols|, index)] == sym
    ensures forall i | 0 <= i < |e.symbols| && i != Position(|e.symbols|, index) :: r.symbols[i] == e.symbols[i]
  {
    Expression(e.symbols[Position(|e.symbols|, index) := sym])
  }

  /** Putting the replaced symbol back restores the expression. */
  lemma SubstituteRestore(e: Expression, sym: Symbol, index: int)
    requires -|e.symbols| <= index < |e.symbols|
    ensures Substitute(Substitute(e, sym, index), e.symbols[Position(|e.symbols|, index)], index) == e
  {
    var r := Substitute(Substitute(e, sym, index), e.symbols[Position(|e.symbols|, index)], index);
    assert r.symbols == e.symbols;
  }

  /** Of two substitutions at the same position, the later one wins. */
  lemma SubstituteOverwrite(e: Expression, a: Symbol, b: Symbol, index: int)
    requires -|e.symbols| <= index < |e.symbols|
    ensures Substitute(Substitute(e, a, index), b, index) == Substitute(e, b, index)
  {
    assert Substitute(Substitute(e, a, index), b, index).symbols == Substitute(e, b, index).symbols;
  }

  /** `code`: the concatenation of the symbols' codes. */
  function Code(s: seq<Symbol>): (r: string)
    ensures |s| == 1 ==> r == s[0].code
  {
    if |s| == 0 then "" else Code(s[..|s| - 1]) + s[|s| - 1].code
  }

  /** Code is a homomorphism from symbol sequences to strings. */
  lemma {:induction false} CodeAppend(a: seq<Symbol>, b: seq<Symbol>)
    ensures Code(a + b) == Code(a) + Code(b)
    decreases |b|
  {
    if |b| == 0 {
      assert a + b == a;
    } else {
      var b' := b[..|b| - 1];
      assert (a + b)[..|a + b| - 1] == a + b';
      assert (a + b)[|a + b| - 1] == b[|b| - 1];
      CodeAppend(a, b');
    }
  }

  /** Substituting one symbol changes exactly its own slice of the code. */
  lemma SubstituteCode(e: Expression, sym: Symbol, index: int)
    requires -|e.symbols| <= index < |e.symbols|
    ensures var k := Position(|e.symbols|, index);
      && Code(e.symbols) == Code(e.symbols[..k]) + e.symbols[k].code + Code(e.symbols[k + 1..])
      && Code(Substitute(e, sym, index).symbols) == Code(e.symbols[..k]) + sym.code + Code(e.symbols[k + 1..])
  {
    var k := Position(|e.symbols|, index);
    var s, t := e.symbols, Substitute(e, sym, index).symbols;
    assert s == s[..k] + [s[k]] + s[k + 1..];
    assert t == s[..k] + [sym] + s[k + 1..];
    CodeAppend(s[..k] + [s[k]], s[k + 1..]);
    CodeAppend(s[..k], [s[k]]);
    CodeAppend(s[..k] + [sym], s[k + 1..]);
    CodeAppend(s[..k], [sym]);
  }

  // ---------------------------------------------------------------------------
  // Chained equalities

  /** The positions of the equality operators, left to right. */
  function EqPositions(s: seq<Symbol>): (p: seq<nat>)
    ensures forall k | 0 <= k < |p| :: p[k] < |s| && IsEq(s[p[k]])
  {
    if |s| == 0 then []
    else
      var q := EqPositions(s[..|s| - 1]);
      if IsEq(s[|s| - 1]) then q + [|s| - 1] else q
  }

  /** The positions are strictly increasing. */
  lemma {:induction false} EqPositionsIncreasing(s: seq<Symbol>)
    ensures Increasing(EqPositions(s))
    decreases |s|
  {
    if |s| > 0 {
      EqPositionsIncreasing(s[..|s| - 1]);
    }
  }

  /** Every equality operator is listed. */
  lemma {:induction false} EqPositionsComplete(s: seq<Symbol>)
    ensures forall i | 0 <= i < |s| :: IsEq(s[i]) <==> i in EqPositions(s)
    decreases |s|
  {
    if |s| > 0 {
      var s' := s[..|s| - 1];
      EqPositionsComplete(s');
      forall i | 0 <= i < |s| - 1 ensures IsEq(s[i]) <==> i in EqPositions(s) {
        assert s'[i] == s[i];
      }
    }
  }

  /** A sequence with exactly one equality operator, at `q`, has `[q]` as its positions. */
  lemma EqPositionsSingle(s: seq<Symbol>, q: nat)
    requires q < |s| && forall i | 0 <= i < |s| :: IsEq(s[i]) <==> i == q
    ensures EqPositions(s) == [q]
  {
    EqPositionsIncreasing(s);
    EqPositionsComplete(s);
    var p := EqPositions(s);
    assert q in p;
    forall j | 0 <= j < |p| ensures p[j] == q {
      assert IsEq(s[p[j]]);
    }
    IncreasingConstant(p, q);
  }

  /** A strictly increasing sequence repeats no value. */
  lemma IncreasingConstant(p: seq<int>, q: int)
    requires Increasing(p) && forall j | 0 <= j < |p| :: p[j] == q
    ensures |p| <= 1
  {
    IncreasingPair(p);
  }

  lemma IncreasingPair(p: seq<int>)
    ensures Increasing(p) && |p| >= 2 ==> p[0] < p[1]
  {
  }

  /** A slice whose only equality operator sits at `q` has it at `q - lo`. */
  lemma SliceSingle(s: seq<Symbol>, lo: nat, hi: nat, q: nat)
    requires lo <= q < hi <= |s|
    requires forall i | lo <= i < hi :: IsEq(s[i]) <==> i == q
    ensures EqPositions(s[lo..hi]) == [q - lo]
  {
    var seg := s[lo..hi];
    forall i | 0 <= i < |seg| ensures IsEq(seg[i]) <==> i == q - lo {
      assert seg[i] == s[lo + i];
    }
    EqPositionsSingle(seg, q - lo);
  }

  /** Python's `zip`: pairs up to the shorter length. */
  function Zip<X, Y>(xs: seq<X>, ys: seq<Y>): (z: seq<(X, Y)>)
    ensures |z| == if |xs| < |ys| then |xs| else |ys|
    ensures forall k | 0 <= k < |z| :: z[k] == (xs[k], ys[k])
  {
    if |xs| == 0 || |ys| == 0 then [] else [(xs[0], ys[0])] + Zip(xs[1..], ys[1..])
  }

  /** Where segment `k` starts: just after sign `k - 1`, or at the start. */
  function Low(p: seq<int>, k: nat): int
    requires k < |p|
  {
    if k == 0 then 0 else p[k - 1] + 1
  }

  /** Where segment `k` ends: just before sign `k + 1`, or at the end `n`. */
  function High(p: seq<int>, k: nat, n: int): int
    requires k < |p|
  {
    if k == |p| - 1 then n else p[k + 1]
  }

  /** `zip([-1] + p[:-1], p[1:] + [n])`: the pairs `(low, high)` with `s[low + 1:high]` the stretch
      strictly between the signs either side of sign `k` (or the ends). */
  function Boundaries(p: seq<int>, n: int): (b: seq<(int, int)>)
    requires |p| >= 1
    ensures |b| == |p|
    ensures forall k | 0 <= k < |b| :: b[k].0 + 1 == Low(p, k) && b[k].1 == High(p, k, n)
  {
    var lows: seq<int> := [-1] + p[..|p| - 1];
    Zip(lows, p[1..] + [n])
  }

  /** With two or more increasing signs inside `[0, n)`, every stretch encloses its sign
      and leaves out at least one other. */
  lemma BoundariesInside(p: seq<int>, n: int)
    requires |p| >= 2 && Increasing(p) && forall k | 0 <= k < |p| :: 0 <= p[k] < n
    ensures forall k | 0 <= k < |p| :: 0 <= Low(p, k) <= p[k] < High(p, k, n) <= n && High(p, k, n) - Low(p, k) < n
  {
    forall k | 0 <= k < |p| ensures 0 <= Low(p, k) <= p[k] < High(p, k, n) <= n && High(p, k, n) - Low(p, k) < n {
      if k > 0 {
        assert p[k - 1] < p[k];
      }
      if k < |p| - 1 {
        assert p[k] < p[k + 1];
      }
    }
  }

  /** The sub-expressions `s[low + 1:high]` for the given boundary pairs. */
  function Slices(s: seq<Symbol>, b: seq<(int, int)>): (r: seq<Expression>)
    requires forall k | 0 <= k < |b| :: -1 <= b[k].0 < b[k].1 <= |s|
    ensures |r| == |b|
    ensures forall k | 0 <= k < |b| :: r[k].symbols == s[b[k].0 + 1 .. b[k].1]
  {
    if |b| == 0 then [] else [Expression(s[b[0].0 + 1 .. b[0].1])] + Slices(s, b[1..])
  }

  /** The sub-expressions of a chain with at least two equality operators: segment `k` holds sign `k`
      and runs between the neighbouring signs. */
  function Segments(e: Expression): (segs: seq<Expression>)
    requires |EqPositions(e.symbols)| >= 2
    ensures |segs| == |EqPositions(e.symbols)|
    ensures forall k | 0 <= k < |segs| :: |segs[k].symbols| < |e.symbols|
  {
    hide EqPositions, Zip, Slices, Low, High, Increasing, Boundaries;
    var s := e.symbols;
    var p := EqPositions(s);
    EqPositionsIncreasing(s);
    BoundariesFit(p, |s|);
    Slices(s, Boundaries(p, |s|))
  }

  /** The boundary pairs of an increasing list of signs in `[0, n)` are proper slices of `[0, n)`. */
  lemma BoundariesFit(p: seq<int>, n: int)
    requires |p| >= 2 && Increasing(p) && forall k | 0 <= k < |p| :: 0 <= p[k] < n
    ensures var b := Boundaries(p, n);
      && |b| == |p|
      && forall k | 0 <= k < |b| :: -1 <= b[k].0 < b[k].1 <= n && b[k].1 - (b[k].0 + 1) < n
  {
    hide Zip, Increasing;
    BoundariesInside(p, n);
  }

  /** Segment `k` is the stretch between the signs either side of sign `k`, and contains sign `k`. */
  lemma SegmentSlice(e: Expression, k: nat)
    requires |EqPositions(e.symbols)| >= 2 && k < |EqPositions(e.symbols)|
    ensures var s, p := e.symbols, EqPositions(e.symbols);
      && 0 <= Low(p, k) <= p[k] < High(p, k, |s|) <= |s|
      && Segments(e)[k].symbols == s[Low(p, k)..High(p, k, |s|)]
  {
    hide EqPositions, Zip, Low, High, Increasing;
    var s := e.symbols;
    var p := EqPositions(s);
    EqPositionsIncreasing(s);
    BoundariesInside(p, |s|);
    var b := Boundaries(p, |s|);
    assert Segments(e) == Slices(s, b);
    assert Segments(e)[k].symbols == s[b[k].0 + 1 .. b[k].1];
  }

  /** Between the signs either side of sign `k`, sign `k` is the only equality operator. */
  lemma OnlySign(s: seq<Symbol>, k: nat)
    requires k < |EqPositions(s)|
    ensures var p := EqPositions(s);
      forall i | 0 <= i < |s| && (k == 0 || p[k - 1] < i) && (k == |p| - 1 || i < p[k + 1]) ::
              IsEq(s[i]) <==> i == p[k]
  {
    var p := EqPositions(s);
    EqPositionsIncreasing(s);
    EqPositionsComplete(s);
    OnlySignOf(s, p, k);
  }

  lemma OnlySignOf(s: seq<Symbol>, p: seq<int>, k: nat)
    requires Increasing(p) && k < |p|
    requires forall i | 0 <= i < |s| :: IsEq(s[i]) <==> i in p
    ensures forall i | 0 <= i < |s| && (k == 0 || p[k - 1] < i) && (k == |p| - 1 || i < p[k + 1]) ::
              IsEq(s[i]) <==> i == p[k]
  {
    forall i | 0 <= i < |s| && (k == 0 || p[k - 1] < i) && (k == |p| - 1 || i < p[k + 1]) && IsEq(s[i])
      ensures i == p[k]
    {
      var m :| 0 <= m < |p| && p[m] == i;
    }
  }

  /** Segment `k` holds sign `k` as its only equality operator. */
  lemma SegmentShape(e: Expression, k: nat)
    requires |EqPositions(e.symbols)| >= 2 && k < |EqPositions(e.symbols)|
    ensures var p := EqPositions(e.symbols);
      EqPositions(Segments(e)[k].symbols) == [p[k] - Low(p, k)]
  {
    hide Segments;
    var s, p := e.symbols, EqPositions(e.symbols);
    SegmentSlice(e, k);
    var seg := Segments(e)[k].symbols;
    var lo, hi := Low(p, k), High(p, k, |s|);
    OnlySign(s, k);
    SliceSingle(s, lo, hi, p[k]);
    assert seg == s[lo..hi];
  }

  /** Consecutive segments share the operand group between their signs, which holds no equality operator. */
  lemma SegmentsOverlap(e: Expression, k: nat)
    requires |EqPositions(e.symbols)| >= 2 && k + 1 < |EqPositions(e.symbols)|
    ensures var s, p := e.symbols, EqPositions(e.symbols);
      p[k] < p[k + 1] &&
      var g := s[p[k] + 1 .. p[k + 1]];
      var left, right := Segments(e)[k].symbols, Segments(e)[k + 1].symbols;
      && |g| <= |left| && |g| <= |right|
      && left[|left| - |g|..] == g
      && right[..|g|] == g
      && forall i | 0 <= i < |g| :: !IsEq(g[i])
  {
    hide Segments;
    var s, p := e.symbols, EqPositions(e.symbols);
    SegmentSlice(e, k);
    SegmentSlice(e, k + 1);
    var left, right := Segments(e)[k].symbols, Segments(e)[k + 1].symbols;
    assert p[k] < p[k + 1];
    var g := s[p[k] + 1 .. p[k + 1]];
    assert left == s[Low(p, k)..p[k + 1]];
    assert right == s[p[k] + 1..High(p, k + 1, |s|)];
    assert left[|left| - |g|..] == g;
    assert right[..|g|] == g;
    OnlySign(s, k);
    forall i | 0 <= i < |g| ensures !IsEq(g[i]) {
      assert g[i] == s[p[k] + 1 + i];
    }
  }

  // ---------------------------------------------------------------------------
  // Evaluation

  /** `evaluate`: a chain is the short-circuit `and` of its segments; otherwise the code is interpreted. */
  function Evaluate(eval: Interpreter, e: Expression): (r: Outcome)
    ensures |EqPositions(e.symbols)| <= 1 ==> r == eval(Code(e.symbols))
    decreases |e.symbols|, 1
  {
    if |EqPositions(e.symbols)| > 1 then Conjoin(eval, Segments(e), BoolResult(true), |e.symbols|)
    else eval(Code(e.symbols))
  }

  /** `result = result and exp.evaluate()` over the remaining segments; an error escapes at once. */
  function Conjoin(eval: Interpreter, segs: seq<Expression>, acc: Outcome, bound: nat): (r: Outcome)
    requires forall k | 0 <= k < |segs| :: |segs[k].symbols| < bound
    ensures !Truthy(acc) ==> r == acc
    decreases bound, 0, |segs|
  {
    if |segs| == 0 || !Truthy(acc) then acc
    else
      match Evaluate(eval, segs[0])
      case Invalid => Invalid
      case v => Conjoin(eval, segs[1..], v, bound)
  }

  /** The fold is exactly `True` iff every sub-result but the last is truthy and the last is exactly `True`. */
  lemma {:induction false} ConjoinTrue(eval: Interpreter, segs: seq<Expression>, acc: Outcome, bound: nat)
    requires forall k | 0 <= k < |segs| :: |segs[k].symbols| < bound
    requires |segs| > 0
    ensures Conjoin(eval, segs, acc, bound) == BoolResult(true) <==>
              && Truthy(acc)
              && (forall k | 0 <= k < |segs| - 1 :: Truthy(Evaluate(eval, segs[k])))
              && Evaluate(eval, segs[|segs| - 1]) == BoolResult(true)
    decreases |segs|
  {
    hide Evaluate;
    if Truthy(acc) {
      var v := Evaluate(eval, segs[0]);
      if |segs| > 1 && v != Invalid {
        ConjoinTrue(eval, segs[1..], v, bound);
        assert forall k | 0 <= k < |segs| - 2 :: segs[1..][k] == segs[k + 1];
        if Truthy(v) && forall k | 0 <= k < |segs[1..]| - 1 :: Truthy(Evaluate(eval, segs[1..][k])) {
          forall k | 0 <= k < |segs| - 1 ensures Truthy(Evaluate(eval, segs[k])) {
            if k > 0 {
              assert segs[k] == segs[1..][k - 1];
            }
          }
        }
        assert segs[|segs| - 1] == segs[1..][|segs[1..]| - 1];
      } else if |segs| == 1 && v != Invalid {
        assert segs[1..] == [];
      }
    }
  }

  /** The fold stops at the first sub-result that is not truthy (false, zero or an error) and returns it;
      later segments are never consulted. */
  lemma {:induction false} ConjoinStops(eval: Interpreter, segs: seq<Expression>, acc: Outcome, bound: nat, f: nat)
    requires forall k | 0 <= k < |segs| :: |segs[k].symbols| < bound
    requires Truthy(acc) && f < |segs|
    requires forall k | 0 <= k < f :: Truthy(Evaluate(eval, segs[k]))
    requires !Truthy(Evaluate(eval, segs[f]))
    ensures Conjoin(eval, segs, acc, bound) == Evaluate(eval, segs[f])
    decreases f
  {
    hide Evaluate;
    var v := Evaluate(eval, segs[0]);
    if f > 0 {
      assert Truthy(v) && v != Invalid;
      assert forall k | 0 <= k < f - 1 :: segs[1..][k] == segs[k + 1];
      ConjoinStops(eval, segs[1..], v, bound, f - 1);
      assert segs[1..][f - 1] == segs[f];
    }
  }

  /** A segment has one equality operator, so its evaluation is a single call of the interpreter. */
  lemma SegmentEvaluate(eval: Interpreter, e: Expression, k: nat)
    requires |EqPositions(e.symbols)| >= 2 && k < |EqPositions(e.symbols)|
    ensures Evaluate(eval, Segments(e)[k]) == eval(Code(Segments(e)[k].symbols))
  {
    SegmentShape(e, k);
  }

  /** A chain is evaluated by folding over its segments. */
  lemma EvaluateChain(eval: Interpreter, e: Expression)
    requires |EqPositions(e.symbols)| >= 2
    ensures Evaluate(eval, e) == Conjoin(eval, Segments(e), BoolResult(true), |e.symbols|)
  {
  }

  /** A chain evaluates to exactly `True` iff every segment but the last interprets to a truthy value
      and the last one to exactly `True`. */
  lemma ChainTrue(eval: Interpreter, e: Expression)
    requires |EqPositions(e.symbols)| >= 2
    ensures var segs := Segments(e);
      Evaluate(eval, e) == BoolResult(true) <==>
        && (forall k | 0 <= k < |segs| - 1 :: Truthy(eval(Code(segs[k].symbols))))
        && eval(Code(segs[|segs| - 1].symbols)) == BoolResult(true)
  {
    hide Evaluate, Conjoin, Segments;
    var segs := Segments(e);
    EvaluateChain(eval, e);
    ConjoinTrue(eval, segs, BoolResult(true), |e.symbols|);
    forall k | 0 <= k < |segs| ensures Evaluate(eval, segs[k]) == eval(Code(segs[k].symbols)) {
      SegmentEvaluate(eval, e, k);
    }
  }

  /** A chain's result is the first segment result that is not truthy, if there is one. */
  lemma ChainStops(eval: Interpreter, e: Expression, f: nat)
    requires |EqPositions(e.symbols)| >= 2 && f < |EqPositions(e.symbols)|
    requires forall k | 0 <= k < f :: Truthy(eval(Code(Segments(e)[k].symbols)))
    requires !Truthy(eval(Code(Segments(e)[f].symbols)))
    ensures Evaluate(eval, e) == eval(Code(Segments(e)[f].symbols))
  {
    hide Evaluate, Conjoin, Segments;
    var segs := Segments(e);
    EvaluateChain(eval, e);
    forall k | 0 <= k <= f ensures Evaluate(eval, segs[k]) == eval(Code(segs[k].symbols)) {
      SegmentEvaluate(eval, e, k);
    }
    ConjoinStops(eval, segs, BoolResult(true), |e.symbols|, f);
  }
}
