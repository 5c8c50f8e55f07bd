/** The search for single-stick moves that make a base expression true.

For every ordered pair of positions `(i, j)` the search tries, when `i == j`,
every symbol reachable from the symbol at `i` by moving one stick, and when
`i != j`, every symbol reachable from the one at `i` by removing a stick
combined with every symbol reachable from the one at `j` by adding a stick.
A candidate is recorded only when the new expression evaluates to exactly
`True`; the nested result dictionary is modelled as one map keyed by
`(i, j, source code, destination code)`.
*/
module Search {
  import opened Shapes
  import opened Symbols
  import opened Catalog
  import opened Expressions

  /** A candidate: `src` goes to position `i` and `dst` to position `j` (for a move, `i == j` and `src == dst`). */
  datatype Candidate = Candidate(i: nat, j: nat, src: Symbol, dst: Symbol)

  /** `valid_substitutions[i][j][src.code][dst.code]`, flattened. */
  type Slot = (nat, nat, string, string)

  type Results = map<Slot, Expression>

  function SlotOf(m: Candidate): Slot {
    (m.i, m.j, m.src.code, m.dst.code)
  }

  /** `expression.substitute_symbol(src, i).substitute_symbol(dst, j)`. */
  function Apply(E: Expression, m: Candidate): (r: Expression)
    requires m.i < |E.symbols| && m.j < |E.symbols|
    ensures |r.symbols| == |E.symbols|
    ensures r.symbols[m.j] == m.dst
    ensures m.i != m.j ==> r.symbols[m.i] == m.src
    ensures forall k | 0 <= k < |E.symbols| && k != m.i && k != m.j :: r.symbols[k] == E.symbols[k]
  {
    Substitute(Substitute(E, m.src, m.i), m.dst, m.j)
  }

  /** `m` is one of the candidates the search tries on `E`. */
  predicate Tried(cat: Catalog, E: Expression, m: Candidate) {
    && m.i < |E.symbols| && m.j < |E.symbols|
    && var ki, kj := ShapeOf(E.symbols[m.i]), ShapeOf(E.symbols[m.j]);
    if m.i == m.j then
      ki in cat.move && m.src == m.dst && m.src in cat.move[ki].Values
    else
      && ki in cat.removal && m.src in cat.removal[ki].Values
      && kj in cat.addition && m.dst in cat.addition[kj].Values
  }

  /** `result is True`: an integer or a false result does not count. */
  predicate Good(eval: Interpreter, E: Expression, m: Candidate)
    requires m.i < |E.symbols| && m.j < |E.symbols|
  {
    Evaluate(eval, Apply(E, m)) == BoolResult(true)
  }

  /** Every recorded entry comes from a tried candidate that evaluates to exactly `True`. */
  ghost predicate Sound(eval: Interpreter, cat: Catalog, E: Expression, R: Results) {
    forall s | s in R :: exists m :: Tried(cat, E, m) && Good(eval, E, m) && SlotOf(m) == s && R[s] == Apply(E, m)
  }

  /** The lookups of the search do not fail: every base symbol has an entry in all three maps. */
  predicate Indexed(cat: Catalog, E: Expression) {
    forall k | 0 <= k < |E.symbols| ::
      && ShapeOf(E.symbols[k]) in cat.addition
      && ShapeOf(E.symbols[k]) in cat.removal
      && ShapeOf(E.symbols[k]) in cat.move
  }

  /** `_test_substitution`: records the candidate under its slot, overwriting, when it evaluates to `True`. */
  function TestSubstitution(eval: Interpreter, E: Expression, m: Candidate, R: Results): (R': Results)
    requires m.i < |E.symbols| && m.j < |E.symbols|
    ensures R'.Keys == if Good(eval, E, m) then R.Keys + {SlotOf(m)} else R.Keys
    ensures forall s | s in R && s != SlotOf(m) :: R'[s] == R[s]
    ensures Good(eval, E, m) ==> R'[SlotOf(m)] == Apply(E, m)
    ensures !Good(eval, E, m) ==> R' == R
  {
    hide Evaluate, Apply;
    if Good(eval, E, m) then R[SlotOf(m) := Apply(E, m)] else R
  }

  lemma TestSound(eval: Interpreter, cat: Catalog, E: Expression, m: Candidate, R: Results)
    requires Tried(cat, E, m) && Sound(eval, cat, E, R)
    ensures Sound(eval, cat, E, TestSubstitution(eval, E, m, R))
  {
    hide Evaluate, Apply;
    var R' := TestSubstitution(eval, E, m, R);
    if Good(eval, E, m) {
      assert R' == R[SlotOf(m) := Apply(E, m)];
      forall s | s in R' ensures exists m' :: Tried(cat, E, m') && Good(eval, E, m') && SlotOf(m') == s && R'[s] == Apply(E, m') {
        if s == SlotOf(m) {
          assert Tried(cat, E, m) && Good(eval, E, m) && R'[s] == Apply(E, m);
        } else {
          var m' :| Tried(cat, E, m') && Good(eval, E, m') && SlotOf(m') == s && R[s] == Apply(E, m');
          assert R'[s] == R[s];
        }
      }
    }
  }

  /** The `i == j` case: every move candidate at position `i`. */
  method TryMoves(eval: Interpreter, cat: Catalog, E: Expression, i: nat, R0: Results) returns (R: Results)
    requires i < |E.symbols| && Indexed(cat, E) && Sound(eval, cat, E, R0)
    ensures Sound(eval, cat, E, R) && R0.Keys <= R.Keys
    ensures forall m | Tried(cat, E, m) && Good(eval, E, m) && m.i == i && m.j == i :: SlotOf(m) in R
  {
    hide Evaluate, Apply, Sound;
    var ki := ShapeOf(E.symbols[i]);
    R := R0;
    var pending := cat.move[ki].Values;
    ghost var done: set<Symbol> := {};
    while pending != {}
      invariant pending + done == cat.move[ki].Values
      invariant Sound(eval, cat, E, R) && R0.Keys <= R.Keys
      invariant forall y | y in done && Good(eval, E, Candidate(i, i, y, y)) :: SlotOf(Candidate(i, i, y, y)) in R
      decreases pending
    {
      var y :| y in pending;
      var m := Candidate(i, i, y, y);
      TestSound(eval, cat, E, m, R);
      R := TestSubstitution(eval, E, m, R);
      pending := pending - {y};
      done := done + {y};
    }
  }

  /** Every addition candidate at `j` combined with the removal candidate `a` at `i`. */
  method TryDestinations(eval: Interpreter, cat: Catalog, E: Expression, i: nat, j: nat, a: Symbol, R0: Results)
    returns (R: Results)
    requires i < |E.symbols| && j < |E.symbols| && i != j && Indexed(cat, E)
    requires a in cat.removal[ShapeOf(E.symbols[i])].Values
    requires Sound(eval, cat, E, R0)
    ensures Sound(eval, cat, E, R) && R0.Keys <= R.Keys
    ensures forall m | Tried(cat, E, m) && Good(eval, E, m) && m.i == i && m.j == j && m.src == a :: SlotOf(m) in R
  {
    hide Evaluate, Apply, Sound;
    var kj := ShapeOf(E.symbols[j]);
    R := R0;
    var pending := cat.addition[kj].Values;
    ghost var done: set<Symbol> := {};
    while pending != {}
      invariant pending + done == cat.addition[kj].Values
      invariant Sound(eval, cat, E, R) && R0.Keys <= R.Keys
      invariant forall b | b in done && Good(eval, E, Candidate(i, j, a, b)) :: SlotOf(Candidate(i, j, a, b)) in R
      decreases pending
    {
      var b :| b in pending;
      var m := Candidate(i, j, a, b);
      TestSound(eval, cat, E, m, R);
      R := TestSubstitution(eval, E, m, R);
      pending := pending - {b};
      done := done + {b};
    }
  }

  /** The `i != j` case: every removal candidate at `i` with every addition candidate at `j`. */
  method TryPairs(eval: Interpreter, cat: Catalog, E: Expression, i: nat, j: nat, R0: Results) returns (R: Results)
    requires i < |E.symbols| && j < |E.symbols| && i != j && Indexed(cat, E) && Sound(eval, cat, E, R0)
    ensures Sound(eval, cat, E, R) && R0.Keys <= R.Keys
    ensures forall m | Tried(cat, E, m) && Good(eval, E, m) && m.i == i && m.j == j :: SlotOf(m) in R
  {
    hide Evaluate, Apply, Sound, Good;
    var ki := ShapeOf(E.symbols[i]);
    R := R0;
    var pending := cat.removal[ki].Values;
    ghost var done: set<Symbol> := {};
    while pending != {}
      invariant pending + done == cat.removal[ki].Values
      invariant Sound(eval, cat, E, R) && R0.Keys <= R.Keys
      invariant forall m | Tried(cat, E, m) && Good(eval, E, m) && m.i == i && m.j == j && m.src in done :: SlotOf(m) in R
      decreases pending
    {
      var a :| a in pending;
      R := TryDestinations(eval, cat, E, i, j, a, R);
      pending := pending - {a};
      done := done + {a};
    }
  }

  /** The nested loops over source and destination positions. */
  method Search(eval: Interpreter, cat: Catalog, E: Expression) returns (R: Results)
    requires Indexed(cat, E)
    ensures Sound(eval, cat, E, R)
    ensures forall m | Tried(cat, E, m) && Good(eval, E, m) :: SlotOf(m) in R
    ensures forall s | s in R :: Evaluate(eval, R[s]) == BoolResult(true)
  {
    hide Evaluate, Apply, Good;
    R := map[];
    var n := |E.symbols|;
    var i := 0;
    while i < n
      invariant 0 <= i <= n
      invariant Sound(eval, cat, E, R)
      invariant forall m | Tried(cat, E, m) && Good(eval, E, m) && m.i < i :: SlotOf(m) in R
    {
      var j := 0;
      while j < n
        invariant 0 <= j <= n
        invariant Sound(eval, cat, E, R)
        invariant forall m | Tried(cat, E, m) && Good(eval, E, m) && (m.i < i || (m.i == i && m.j < j)) :: SlotOf(m) in R
      {
        if i == j {
          R := TryMoves(eval, cat, E, i, R);
        } else {
          R := TryPairs(eval, cat, E, i, j, R);
        }
        j := j + 1;
      }
      i := i + 1;
    }
    RecordedTrue(eval, cat, E, R);
  }

  /** Only an exactly `True` result is ever recorded: an integer such as `1` never is. */
  lemma RecordedTrue(eval: Interpreter, cat: Catalog, E: Expression, R: Results)
    requires Sound(eval, cat, E, R)
    ensures forall s | s in R :: Evaluate(eval, R[s]) == BoolResult(true)
  {
    hide Evaluate, Apply;
    forall s | s in R ensures Evaluate(eval, R[s]) == BoolResult(true) {
      var m :| Tried(cat, E, m) && Good(eval, E, m) && SlotOf(m) == s && R[s] == Apply(E, m);
    }
  }
  /** A recorded expression is the base with the two symbols of its slot in place: it differs from the base
      only at the two positions, which hold symbols with the slot's codes. */
  lemma RecordedShape(eval: Interpreter, cat: Catalog, E: Expression, R: Results, s: Slot)
    requires Sound(eval, cat, E, R) && s in R
    ensures s.0 < |E.symbols| && s.1 < |E.symbols| && |R[s].symbols| == |E.symbols|
    ensures R[s].symbols[s.0].code == s.2 && R[s].symbols[s.1].code == s.3
    ensures s.0 == s.1 ==> s.2 == s.3
    ensures forall k | 0 <= k < |E.symbols| && k != s.0 && k != s.1 :: R[s].symbols[k] == E.symbols[k]
  {
    hide Evaluate;
    var m :| Tried(cat, E, m) && Good(eval, E, m) && SlotOf(m) == s && R[s] == Apply(E, m);
  }

  // ---------------------------------------------------------------------------
  // Conservation of sticks

  /** The number of sticks in a row of symbols. */
  function TotalSticks(s: seq<Symbol>): nat {
    if |s| == 0 then 0 else TotalSticks(s[..|s| - 1]) + Size(s[|s| - 1].sticks)
  }

  /** Replacing one symbol changes the total by the difference of the two symbols' sizes. */
  lemma {:induction false} TotalSticksReplace(s: seq<Symbol>, k: nat, x: Symbol)
    requires k < |s|
    ensures TotalSticks(s[k := x]) + Size(s[k].sticks) == TotalSticks(s) + Size(x.sticks)
    decreases |s|
  {
    var t := s[k := x];
    if k < |s| - 1 {
      assert t[..|t| - 1] == s[..|s| - 1][k := x];
      TotalSticksReplace(s[..|s| - 1], k, x);
    } else {
      assert t[..|t| - 1] == s[..|s| - 1];
    }
  }

  lemma ShapeSize(x: Symbol)
    ensures |ShapeOf(x)| == Size(x.sticks)
  {
    NormalizeSize(x.sticks.sticks);
  }

  /** A symbol stored in a catalog entry has the stick count its relation prescribes. */
  lemma EntrySize(A: seq<Symbol>, cat: Catalog, rel: Relation, K: Key, v: Symbol)
    requires IsCatalogOf(A, cat) && K in cat.Table(rel) && v in cat.Table(rel)[K].Values
    ensures rel == Addition ==> Size(v.sticks) == |K| + 1
    ensures rel == Removal ==> Size(v.sticks) + 1 == |K|
    ensures rel == Move ==> Size(v.sticks) == |K|
  {
    hide Normalize, KeyOf, ShapesOf, EntriesExact, IsReachableFrom;
    var k :| k in cat.Table(rel)[K] && cat.Table(rel)[K][k] == v;
    ValuesFromAlphabet(A, cat, rel, K, k);
    assert K in ShapesOf(A);
    CatalogSizes(A, cat, K, k);
    ShapeSize(v);
  }

  /** Every candidate the search tries moves exactly one stick: the total number of sticks is unchanged. */
  lemma SticksConserved(A: seq<Symbol>, cat: Catalog, E: Expression, m: Candidate)
    requires IsCatalogOf(A, cat) && Tried(cat, E, m)
    ensures TotalSticks(Apply(E, m).symbols) == TotalSticks(E.symbols)
  {
    hide TotalSticks, IsCatalogOf;
    var s := E.symbols;
    var t := Substitute(E, m.src, m.i).symbols;
    assert t == s[m.i := m.src];
    var u := Apply(E, m).symbols;
    assert u == t[m.j := m.dst];
    TotalSticksReplace(s, m.i, m.src);
    TotalSticksReplace(t, m.j, m.dst);
    ShapeSize(s[m.i]);
    ShapeSize(s[m.j]);
    if m.i == m.j {
      EntrySize(A, cat, Move, ShapeOf(s[m.i]), m.src);
    } else {
      EntrySize(A, cat, Removal, ShapeOf(s[m.i]), m.src);
      EntrySize(A, cat, Addition, ShapeOf(s[m.j]), m.dst);
      assert t[m.j] == s[m.j];
    }
  }
}
