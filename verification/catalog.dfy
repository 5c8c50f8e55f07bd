/** The symbol collection: for a fixed alphabet, which symbols are reachable
from which by adding, removing or moving exactly one stick.

A Python set of symbols deduplicates by shape and keeps the first symbol
inserted for each shape; it is modelled as a `SymbolSet`, a map from shape to
that symbol. The three dictionaries keyed by symbol are maps keyed by shape.
*/
module Catalog {
  import opened Shapes
  import opened Symbols

  type SymbolSet = map<Key, Symbol>

  /** `set.add`: a symbol whose shape is already present is not stored again. */
  function Insert(S: SymbolSet, y: Symbol): (r: SymbolSet)
    ensures r.Keys == S.Keys + {ShapeOf(y)}
    ensures forall k :: k in S ==> r[k] == S[k]
    ensures ShapeOf(y) !in S ==> r[ShapeOf(y)] == y
  {
    if ShapeOf(y) in S then S else S[ShapeOf(y) := y]
  }

  /** The shapes of the alphabet. */
  function ShapesOf(A: seq<Symbol>): set<Key> {
    set i | 0 <= i < |A| :: ShapeOf(A[i])
  }

  lemma ShapesOfIndex(A: seq<Symbol>, k: Key) returns (i: nat)
    requires k in ShapesOf(A)
    ensures i < |A| && ShapeOf(A[i]) == k
  {
    i :| 0 <= i < |A| && ShapeOf(A[i]) == k;
  }

  lemma ShapesOfPrefix(A: seq<Symbol>, a: nat)
    requires a < |A|
    ensures ShapesOf(A[..a + 1]) == ShapesOf(A[..a]) + {ShapeOf(A[a])}
  {
    var P, Q := A[..a + 1], A[..a];
    forall k ensures k in ShapesOf(P) <==> k in ShapesOf(Q) + {ShapeOf(A[a])} {
      if k in ShapesOf(P) {
        var i := ShapesOfIndex(P, k);
        if i < a {
          assert Q[i] == P[i];
        }
      }
      if k in ShapesOf(Q) {
        var i := ShapesOfIndex(Q, k);
        assert P[i] == Q[i];
      }
      if k == ShapeOf(A[a]) {
        assert P[a] == A[a];
      }
    }
  }

  /** The position of the first alphabet symbol with shape `k`. */
  function FirstIndex(A: seq<Symbol>, k: Key): (i: nat)
    requires k in ShapesOf(A)
    ensures i < |A| && ShapeOf(A[i]) == k
    ensures forall j :: 0 <= j < i ==> ShapeOf(A[j]) != k
  {
    if ShapeOf(A[0]) == k then 0
    else
      ShapesOfTail(A, k);
      1 + FirstIndex(A[1..], k)
  }

  lemma ShapesOfTail(A: seq<Symbol>, k: Key)
    requires k in ShapesOf(A) && ShapeOf(A[0]) != k
    ensures k in ShapesOf(A[1..])
  {
    var i := ShapesOfIndex(A, k);
    assert A[1..][i - 1] == A[i];
  }

  /** The symbol a Python set built from the alphabet keeps for shape `k`. */
  function Rep(A: seq<Symbol>, k: Key): Symbol
    requires k in ShapesOf(A)
  {
    A[FirstIndex(A, k)]
  }

  /** Shape `k` is shape `K` with one stick added. */
  predicate Reaches(k: Key, K: Key) {
    IsReachableFrom(StickCollection(k), StickCollection(K))
  }

  /** Shape `k` is reachable by adding one stick to some shape obtained from `K` by removing one. */
  predicate MoveReaches(k: Key, K: Key) {
    exists I :: I in RemovalSet(StickCollection(K)) && Reaches(k, I)
  }

  datatype Relation = Addition | Removal | Move

  /** `out` belongs in the `rel` map entry of `inp`. */
  predicate Related(rel: Relation, out: Key, inp: Key) {
    match rel
    case Addition => Reaches(out, inp)
    case Removal => Reaches(inp, out)
    case Move => MoveReaches(out, inp)
  }

  datatype Catalog = Catalog(
    symbols: seq<Symbol>,
    addition: map<Key, SymbolSet>,
    removal: map<Key, SymbolSet>,
    move: map<Key, SymbolSet>)
  {
    function Table(rel: Relation): map<Key, SymbolSet> {
      match rel
      case Addition => addition
      case Removal => removal
      case Move => move
    }
  }

  /** Everything in `S` is related to `K` and is the alphabet's first symbol of its shape. */
  ghost predicate SetSound(A: seq<Symbol>, S: SymbolSet, rel: Relation, K: Key) {
    forall k | k in S :: k in ShapesOf(A) && Related(rel, k, K) && S[k] == Rep(A, k)
  }

  /** Every one of the first `n` alphabet symbols related to `K` has its shape in `S`. */
  ghost predicate CompleteBelow(A: seq<Symbol>, S: SymbolSet, rel: Relation, K: Key, n: int) {
    forall b | 0 <= b < n && b < |A| && Related(rel, ShapeOf(A[b]), K) :: ShapeOf(A[b]) in S
  }

  /** Every entry of `M` holds exactly the alphabet symbols related to its key. */
  ghost predicate EntriesExact(A: seq<Symbol>, M: map<Key, SymbolSet>, rel: Relation) {
    forall K | K in M :: SetSound(A, M[K], rel, K) && CompleteBelow(A, M[K], rel, K, |A|)
  }

  ghost predicate TableOf(A: seq<Symbol>, M: map<Key, SymbolSet>, rel: Relation) {
    M.Keys == ShapesOf(A) && EntriesExact(A, M, rel)
  }

  /** `cat` holds, for every shape of the alphabet, exactly the related alphabet symbols. */
  ghost predicate IsCatalogOf(A: seq<Symbol>, cat: Catalog) {
    && cat.symbols == A
    && TableOf(A, cat.addition, Addition)
    && TableOf(A, cat.removal, Removal)
    && TableOf(A, cat.move, Move)
  }

  // ---------------------------------------------------------------------------
  // Construction, following the loops of SymbolCollection.__init__

  lemma FirstOfShape(A: seq<Symbol>, S: SymbolSet, b: nat)
    requires b < |A| && ShapeOf(A[b]) !in S
    requires forall j | 0 <= j < b && ShapeOf(A[j]) == ShapeOf(A[b]) :: ShapeOf(A[j]) in S
    ensures ShapeOf(A[b]) in ShapesOf(A) && Rep(A, ShapeOf(A[b])) == A[b]
  {
    var k := ShapeOf(A[b]);
    assert k in ShapesOf(A);
    var f := FirstIndex(A, k);
    assert ShapeOf(A[f]) == k;
  }

  /** Inserts `A[b]` when it is related to `K`, keeping `S` sound. */
  lemma InsertSound(A: seq<Symbol>, S: SymbolSet, rel: Relation, K: Key, b: nat)
    requires b < |A| && SetSound(A, S, rel, K) && Related(rel, ShapeOf(A[b]), K)
    requires forall j | 0 <= j < b && ShapeOf(A[j]) == ShapeOf(A[b]) :: ShapeOf(A[j]) in S
    ensures SetSound(A, Insert(S, A[b]), rel, K)
  {
    hide IsReachableFrom, Normalize, KeyOf, RemovalSet, Related;
    if ShapeOf(A[b]) !in S {
      FirstOfShape(A, S, b);
    }
  }

  /** The inner loop over `symbol_out` for the addition and removal maps. */
  method ScanDirect(A: seq<Symbol>, x: Symbol, sa0: SymbolSet, sr0: SymbolSet) returns (sa: SymbolSet, sr: SymbolSet)
    requires SetSound(A, sa0, Addition, ShapeOf(x)) && SetSound(A, sr0, Removal, ShapeOf(x))
    ensures SetSound(A, sa, Addition, ShapeOf(x)) && CompleteBelow(A, sa, Addition, ShapeOf(x), |A|)
    ensures SetSound(A, sr, Removal, ShapeOf(x)) && CompleteBelow(A, sr, Removal, ShapeOf(x), |A|)
  {
    hide IsReachableFrom, Normalize, KeyOf, ShapesOf, Rep, Insert, RemovalSet, SetSound;
    var kx := ShapeOf(x);
    sa, sr := sa0, sr0;
    var b := 0;
    while b < |A|
      invariant 0 <= b <= |A|
      invariant SetSound(A, sa, Addition, kx) && CompleteBelow(A, sa, Addition, kx, b)
      invariant SetSound(A, sr, Removal, kx) && CompleteBelow(A, sr, Removal, kx, b)
    {
      var y := A[b];
      ReachByKey(y.sticks, x.sticks);
      ReachByKey(x.sticks, y.sticks);
      if IsReachableFrom(y.sticks, x.sticks) {
        InsertSound(A, sa, Addition, kx, b);
        sa := Insert(sa, y);
      }
      if IsReachableFrom(x.sticks, y.sticks) {
        InsertSound(A, sr, Removal, kx, b);
        sr := Insert(sr, y);
      }
      b := b + 1;
    }
  }

  /** Removal-set members are normalized shapes. */
  lemma RemovalSetNormal(c: StickCollection, I: Key)
    requires I in RemovalSet(c)
    ensures KeyOf(StickCollection(I)) == I
  {
    RemovalSetMember(c, I);
  }

  /** A symbol reachable from an intermediate of `x` is related to `x` by a move. */
  lemma MoveStep(x: Symbol, y: Symbol, I: Key)
    requires I in RemovalSet(x.sticks) && Reaches(ShapeOf(y), I)
    ensures Related(Move, ShapeOf(y), ShapeOf(x))
  {
    RemovalSetOfKey(x.sticks);
  }

  /** The loop over `symbol_out` for one intermediate shape `I` of the move map. */
  method ScanIntermediate(A: seq<Symbol>, x: Symbol, I: Key, sm0: SymbolSet) returns (sm: SymbolSet)
    requires I in RemovalSet(x.sticks)
    requires SetSound(A, sm0, Move, ShapeOf(x))
    ensures SetSound(A, sm, Move, ShapeOf(x))
    ensures sm0.Keys <= sm.Keys
    ensures forall b | 0 <= b < |A| && Reaches(ShapeOf(A[b]), I) :: ShapeOf(A[b]) in sm
  {
    hide IsReachableFrom, Normalize, KeyOf, ShapesOf, Rep, Insert, SetSound, Related, RemovalSet;
    var kx := ShapeOf(x);
    RemovalSetNormal(x.sticks, I);
    sm := sm0;
    var b := 0;
    while b < |A|
      invariant 0 <= b <= |A|
      invariant SetSound(A, sm, Move, kx)
      invariant sm0.Keys <= sm.Keys
      invariant forall j | 0 <= j < b && Reaches(ShapeOf(A[j]), I) :: ShapeOf(A[j]) in sm
    {
      var y := A[b];
      ReachByKey(y.sticks, StickCollection(I));
      if IsReachableFrom(y.sticks, StickCollection(I)) {
        MoveStep(x, y, I);
        InsertSound(A, sm, Move, kx, b);
        sm := Insert(sm, y);
      }
      b := b + 1;
    }
  }

  /** The loop over the intermediates of `symbol_in.removal_set` (a set: any order). */
  method ScanMoves(A: seq<Symbol>, x: Symbol, sm0: SymbolSet) returns (sm: SymbolSet)
    requires SetSound(A, sm0, Move, ShapeOf(x))
    ensures SetSound(A, sm, Move, ShapeOf(x)) && CompleteBelow(A, sm, Move, ShapeOf(x), |A|)
  {
    hide IsReachableFrom, Normalize, KeyOf, ShapesOf, Rep, Insert, SetSound, Related, RemovalSet, CompleteBelow;
    var kx := ShapeOf(x);
    sm := sm0;
    var pending := RemovalSet(x.sticks);
    ghost var done: set<Key> := {};
    while pending != {}
      invariant pending + done == RemovalSet(x.sticks)
      invariant SetSound(A, sm, Move, kx)
      invariant forall I, b | I in done && 0 <= b < |A| && Reaches(ShapeOf(A[b]), I) :: ShapeOf(A[b]) in sm
      decreases pending
    {
      var I :| I in pending;
      sm := ScanIntermediate(A, x, I, sm);
      pending := pending - {I};
      done := done + {I};
    }
    MovesComplete(A, x, sm, done);
  }

  /** Having scanned every intermediate of `x` completes the move entry of `x`. */
  lemma MovesComplete(A: seq<Symbol>, x: Symbol, sm: SymbolSet, done: set<Key>)
    requires done == RemovalSet(x.sticks)
    requires forall I, b | I in done && 0 <= b < |A| && Reaches(ShapeOf(A[b]), I) :: ShapeOf(A[b]) in sm
    ensures CompleteBelow(A, sm, Move, ShapeOf(x), |A|)
  {
    hide IsReachableFrom, Normalize, KeyOf;
    RemovalSetOfKey(x.sticks);
    forall b | 0 <= b < |A| && Related(Move, ShapeOf(A[b]), ShapeOf(x))
      ensures ShapeOf(A[b]) in sm
    {
      var I :| I in RemovalSet(StickCollection(ShapeOf(x))) && Reaches(ShapeOf(A[b]), I);
      assert I in done;
    }
  }

  lemma EntriesUpdate(A: seq<Symbol>, M: map<Key, SymbolSet>, rel: Relation, K: Key, S: SymbolSet)
    requires EntriesExact(A, M, rel) && SetSound(A, S, rel, K) && CompleteBelow(A, S, rel, K, |A|)
    ensures EntriesExact(A, M[K := S], rel)
  {
    hide SetSound, CompleteBelow;
  }

  /** `setdefault(symbol, set())`: the entry for `K`, empty when there is none yet. */
  function Entry(A: seq<Symbol>, M: map<Key, SymbolSet>, rel: Relation, K: Key): (S: SymbolSet)
    requires EntriesExact(A, M, rel)
    ensures SetSound(A, S, rel, K)
    ensures K in M ==> S == M[K]
    ensures K !in M ==> S == map[]
  {
    if K in M then M[K] else map[]
  }

  /** The three maps hold exact entries for precisely the shapes of the first `a` alphabet symbols. */
  ghost predicate BuiltUpTo(A: seq<Symbol>, a: nat, add: map<Key, SymbolSet>, rem: map<Key, SymbolSet>, mv: map<Key, SymbolSet>)
    requires a <= |A|
  {
    && add.Keys == ShapesOf(A[..a]) && rem.Keys == add.Keys && mv.Keys == add.Keys
    && EntriesExact(A, add, Addition) && EntriesExact(A, rem, Removal) && EntriesExact(A, mv, Move)
  }

  /** One iteration of the outer loop over `symbol_in`. */
  method BuildStep(A: seq<Symbol>, a: nat, add: map<Key, SymbolSet>, rem: map<Key, SymbolSet>, mv: map<Key, SymbolSet>)
    returns (add': map<Key, SymbolSet>, rem': map<Key, SymbolSet>, mv': map<Key, SymbolSet>)
    requires a < |A| && BuiltUpTo(A, a, add, rem, mv)
    ensures BuiltUpTo(A, a + 1, add', rem', mv')
  {
    hide IsReachableFrom, Normalize, KeyOf, Rep, Insert, RemovalSet, CompleteBelow, Related, SetSound, ShapesOf, EntriesExact, Entry;
    var x := A[a];
    var kx := ShapeOf(x);
    ShapesOfPrefix(A, a);
    var sr0 := Entry(A, rem, Removal, kx);
    var sa0 := Entry(A, add, Addition, kx);
    var sm0 := Entry(A, mv, Move, kx);
    var sa, sr := ScanDirect(A, x, sa0, sr0);
    var sm := ScanMoves(A, x, sm0);
    EntriesUpdate(A, add, Addition, kx, sa);
    EntriesUpdate(A, rem, Removal, kx, sr);
    EntriesUpdate(A, mv, Move, kx, sm);
    add', rem', mv' := add[kx := sa], rem[kx := sr], mv[kx := sm];
  }

  /** `SymbolCollection(symbols)`: builds the addition, removal and move maps. */
  method Build(A: seq<Symbol>) returns (cat: Catalog)
    ensures IsCatalogOf(A, cat)
  {
    var add: map<Key, SymbolSet> := map[];
    var rem: map<Key, SymbolSet> := map[];
    var mv: map<Key, SymbolSet> := map[];
    assert ShapesOf(A[..0]) == {};
    hide ShapesOf, EntriesExact;
    var a := 0;
    while a < |A|
      invariant 0 <= a <= |A| && BuiltUpTo(A, a, add, rem, mv)
    {
      add, rem, mv := BuildStep(A, a, add, rem, mv);
      a := a + 1;
    }
    assert A[..|A|] == A;
    cat := Catalog(A, add, rem, mv);
  }

  // ---------------------------------------------------------------------------
  // Properties of a catalog

  /** A table entry holds exactly the alphabet shapes related to its key. */
  lemma TableExact(A: seq<Symbol>, M: map<Key, SymbolSet>, rel: Relation, K: Key, k: Key)
    requires TableOf(A, M, rel) && K in M
    ensures k in M[K] <==> k in ShapesOf(A) && Related(rel, k, K)
  {
    if k in ShapesOf(A) && Related(rel, k, K) {
      var b := ShapesOfIndex(A, k);
      assert ShapeOf(A[b]) in M[K];
    }
  }

  /** Every alphabet symbol has an entry in all three maps, and the entries agree with reachability. */
  lemma CatalogReach(A: seq<Symbol>, cat: Catalog, x: Symbol, y: Symbol)
    requires IsCatalogOf(A, cat) && x in A && y in A
    ensures ShapeOf(x) in cat.addition && ShapeOf(x) in cat.removal && ShapeOf(x) in cat.move
    ensures ShapeOf(y) in cat.addition[ShapeOf(x)] <==> IsReachableFrom(y.sticks, x.sticks)
    ensures ShapeOf(y) in cat.removal[ShapeOf(x)] <==> IsReachableFrom(x.sticks, y.sticks)
    ensures ShapeOf(y) in cat.move[ShapeOf(x)] <==>
              exists t :: t in x.sticks.sticks && IsReachableFrom(y.sticks, Sub(x.sticks, t))
  {
    var i :| 0 <= i < |A| && A[i] == x;
    var j :| 0 <= j < |A| && A[j] == y;
    assert ShapeOf(A[i]) in ShapesOf(A) && ShapeOf(A[j]) in ShapesOf(A);
    var kx, ky := ShapeOf(x), ShapeOf(y);
    TableExact(A, cat.addition, Addition, kx, ky);
    TableExact(A, cat.removal, Removal, kx, ky);
    TableExact(A, cat.move, Move, kx, ky);
    ReachByKey(y.sticks, x.sticks);
    ReachByKey(x.sticks, y.sticks);
    RemovalSetOfKey(x.sticks);
    MoveByRemoval(x.sticks, y.sticks);
  }

  /** Moving means: some single removal from `x` leaves a shape from which `y` is reachable. */
  lemma MoveByRemoval(x: StickCollection, y: StickCollection)
    ensures MoveReaches(KeyOf(y), KeyOf(x)) <==> exists t :: t in x.sticks && IsReachableFrom(y, Sub(x, t))
  {
    RemovalSetOfKey(x);
    if MoveReaches(KeyOf(y), KeyOf(x)) {
      var I :| I in RemovalSet(StickCollection(KeyOf(x))) && Reaches(KeyOf(y), I);
      var t := RemovalWitness(x, I);
      ReachByKey(y, Sub(x, t));
      assert IsReachableFrom(y, Sub(x, t));
    }
    if exists t :: t in x.sticks && IsReachableFrom(y, Sub(x, t)) {
      var t :| t in x.sticks && IsReachableFrom(y, Sub(x, t));
      ReachByKey(y, Sub(x, t));
      assert KeyOf(Sub(x, t)) in RemovalSet(x);
    }
  }

  /** Inverse law: `y` is in the addition entry of `x` exactly when `x` is in the removal entry of `y`. */
  lemma InverseLaw(A: seq<Symbol>, cat: Catalog, K: Key, k: Key)
    requires IsCatalogOf(A, cat) && K in ShapesOf(A) && k in ShapesOf(A)
    ensures k in cat.addition[K] <==> K in cat.removal[k]
  {
    TableExact(A, cat.addition, Addition, K, k);
    TableExact(A, cat.removal, Removal, k, K);
  }

  /** Every stored symbol is an alphabet member whose shape is its key. */
  lemma ValuesFromAlphabet(A: seq<Symbol>, cat: Catalog, rel: Relation, K: Key, k: Key)
    requires IsCatalogOf(A, cat) && K in cat.Table(rel) && k in cat.Table(rel)[K]
    ensures cat.Table(rel)[K][k] in A && ShapeOf(cat.Table(rel)[K][k]) == k
  {
    assert SetSound(A, cat.Table(rel)[K], rel, K);
  }

  /** Additions gain a stick, removals lose one, and moves keep the stick count; the empty shape moves nowhere. */
  lemma CatalogSizes(A: seq<Symbol>, cat: Catalog, K: Key, k: Key)
    requires IsCatalogOf(A, cat) && K in ShapesOf(A)
    ensures k in cat.addition[K] ==> |k| == |K| + 1
    ensures k in cat.removal[K] ==> |k| + 1 == |K|
    ensures k in cat.move[K] ==> |k| == |K|
    ensures K == {} ==> cat.move[K] == map[]
  {
    hide Normalize, KeyOf, ShapesOf, Rep, Insert;
    assert SetSound(A, cat.addition[K], Addition, K);
    assert SetSound(A, cat.removal[K], Removal, K);
    assert SetSound(A, cat.move[K], Move, K);
    if k in cat.move[K] {
      var I :| I in RemovalSet(StickCollection(K)) && Reaches(k, I);
      RemovalSetSizes(StickCollection(K));
    }
    if K == {} {
      assert RemovalSet(StickCollection(K)) == {};
      assert forall k' :: !MoveReaches(k', K);
      assert cat.move[K].Keys == {};
    }
  }
}
