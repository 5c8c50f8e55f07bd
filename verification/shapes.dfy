/** Sticks and stick collections: the geometric layer of the matchstick puzzle.

A stick collection is a finite set of sticks whose equality is translation
invariant: every stick is shifted so that the smallest row and the smallest
column become 0, and only that normalized set (its `Key`) is compared.
*/
module Shapes {

  datatype Orientation = Horizontal | Vertical

  /** A single matchstick at a grid cell. */
  datatype Stick = Stick(row: int, column: int, orientation: Orientation)

  /** An arbitrary collection of sticks (the raw, un-normalized set). */
  datatype StickCollection = StickCollection(sticks: set<Stick>)

  /** A normalized stick set: the identity of a shape. */
  type Key = set<Stick>

  /** A sequence of integers in strictly increasing order (hence without repeats). */
  ghost predicate Increasing(p: seq<int>) {
    forall k, l | 0 <= k < l < |p| :: p[k] < p[l]
  }

  /** The least element of a non-empty finite set of integers. */
  function MinOf(xs: set<int>): (m: int)
    requires xs != {}
    ensures m in xs
    ensures forall x :: x in xs ==> m <= x
  {
    LeastExists(xs);
    var m :| m in xs && forall x :: x in xs ==> m <= x;
    m
  }

  /** A set is empty or has a member. */
  lemma Inhabited<T>(s: set<T>)
    ensures s == {} || exists x :: x in s
  {
    if forall x :: x !in s {
      assert s == {};
    }
  }

  /** Some member of a non-empty set. */
  lemma Pick<T>(s: set<T>) returns (x: T)
    requires s != {}
    ensures x in s
  {
    Inhabited(s);
    x :| x in s;
  }

  lemma {:induction false} LeastExists(xs: set<int>)
    requires xs != {}
    ensures exists m :: m in xs && forall x :: x in xs ==> m <= x
    decreases |xs|
  {
    var y := Pick(xs);
    if xs != {y} {
      LeastExists(xs - {y});
      var m :| m in xs - {y} && forall x :: x in xs - {y} ==> m <= x;
      var w := if y < m then y else m;
      forall x | x in xs ensures w <= x {
        if x != y {
          assert x in xs - {y};
        }
      }
      assert w in xs;
    } else {
      assert forall x :: x in xs ==> y <= x;
    }
  }

  lemma MinOfUnique(xs: set<int>, v: int)
    requires v in xs
    requires forall x :: x in xs ==> v <= x
    ensures MinOf(xs) == v
  {
  }

  function Rows(s: set<Stick>): set<int> {
    set t | t in s :: t.row
  }

  function Columns(s: set<Stick>): set<int> {
    set t | t in s :: t.column
  }

  /** The smallest row of the set, or 0 for the empty set. */
  function MinRow(s: set<Stick>): int {
    if s == {} then 0 else
      var t :| t in s;
      assert t.row in Rows(s);
      MinOf(Rows(s))
  }

  /** The smallest column of the set, or 0 for the empty set. */
  function MinColumn(s: set<Stick>): int {
    if s == {} then 0 else
      var t :| t in s;
      assert t.column in Columns(s);
      MinOf(Columns(s))
  }

  function Moved(t: Stick, dr: int, dc: int): Stick {
    Stick(t.row + dr, t.column + dc, t.orientation)
  }

  /** Every stick of `s` shifted by `dr` rows and `dc` columns. */
  function Translate(s: set<Stick>, dr: int, dc: int): set<Stick> {
    set t | t in s :: Moved(t, dr, dc)
  }

  /** The set shifted so that its minimum row and minimum column are 0. */
  function Normalize(s: set<Stick>): Key {
    Translate(s, -MinRow(s), -MinColumn(s))
  }

  function KeyOf(c: StickCollection): Key {
    Normalize(c.sticks)
  }

  /** Equality of stick collections: equality of their normalized sets. */
  predicate Same(a: StickCollection, b: StickCollection) {
    KeyOf(a) == KeyOf(b)
  }

  function Size(c: StickCollection): nat {
    |c.sticks|
  }

  /** A copy of `c` with stick `t` added. */
  function Add(c: StickCollection, t: Stick): (r: StickCollection)
    ensures t in r.sticks && c.sticks <= r.sticks
    ensures t !in c.sticks ==> Size(r) == Size(c) + 1
    ensures t in c.sticks ==> r == c
  {
    StickCollection(c.sticks + {t})
  }

  /** A copy of `c` with stick `t` removed; `c` itself when `t` is absent. */
  function Sub(c: StickCollection, t: Stick): (r: StickCollection)
    ensures t !in r.sticks && r.sticks <= c.sticks
    ensures t !in c.sticks ==> r == c
    ensures t in c.sticks ==> Size(r) == Size(c) - 1 && r.sticks + {t} == c.sticks
  {
    if t !in c.sticks then c
    else StickCollection(c.sticks - {t})
  }

  /** The shapes obtainable by removing exactly one stick, deduplicated by shape. */
  function RemovalSet(c: StickCollection): set<Key> {
    set t | t in c.sticks :: KeyOf(Sub(c, t))
  }

  // ---------------------------------------------------------------------------
  // Translation

  lemma TranslateMember(s: set<Stick>, dr: int, dc: int, u: Stick)
    ensures u in Translate(s, dr, dc) <==> Moved(u, -dr, -dc) in s
  {
    if u in Translate(s, dr, dc) {
      var t :| t in s && Moved(t, dr, dc) == u;
      assert Moved(u, -dr, -dc) == t;
    }
    if Moved(u, -dr, -dc) in s {
      assert Moved(Moved(u, -dr, -dc), dr, dc) == u;
    }
  }

  /** Removing a stick commutes with translation. */
  lemma TranslateRemove(s: set<Stick>, t: Stick, dr: int, dc: int)
    ensures Translate(s - {t}, dr, dc) == Translate(s, dr, dc) - {Moved(t, dr, dc)}
  {
    forall u ensures u in Translate(s - {t}, dr, dc) <==> u in Translate(s, dr, dc) - {Moved(t, dr, dc)} {
      TranslateMember(s - {t}, dr, dc, u);
      TranslateMember(s, dr, dc, u);
    }
  }

  lemma TranslateAdd(s: set<Stick>, t: Stick, dr: int, dc: int)
    ensures Translate(s + {t}, dr, dc) == Translate(s, dr, dc) + {Moved(t, dr, dc)}
  {
    forall u ensures u in Translate(s + {t}, dr, dc) <==> u in Translate(s, dr, dc) + {Moved(t, dr, dc)} {
      TranslateMember(s + {t}, dr, dc, u);
      TranslateMember(s, dr, dc, u);
    }
  }

  /** Translation is a bijection, so it keeps the number of sticks. */
  lemma {:induction false} TranslateSize(s: set<Stick>, dr: int, dc: int)
    ensures |Translate(s, dr, dc)| == |s|
    decreases |s|
  {
    if s != {} {
      var t :| t in s;
      TranslateSize(s - {t}, dr, dc);
      TranslateRemove(s, t, dr, dc);
      assert Moved(t, dr, dc) in Translate(s, dr, dc);
    } else {
      assert Translate(s, dr, dc) == {};
    }
  }

  lemma TranslateCompose(s: set<Stick>, a: int, b: int, c: int, d: int)
    ensures Translate(Translate(s, a, b), c, d) == Translate(s, a + c, b + d)
  {
    forall u ensures u in Translate(Translate(s, a, b), c, d) <==> u in Translate(s, a + c, b + d) {
      TranslateMember(Translate(s, a, b), c, d, u);
      TranslateMember(s, a, b, Moved(u, -c, -d));
      TranslateMember(s, a + c, b + d, u);
    }
  }

  lemma TranslateZero(s: set<Stick>)
    ensures Translate(s, 0, 0) == s
  {
    forall u ensures u in Translate(s, 0, 0) <==> u in s {
      TranslateMember(s, 0, 0, u);
    }
  }

  lemma TranslateMinimum(s: set<Stick>, dr: int, dc: int)
    ensures MinRow(Translate(s, dr, dc)) == MinRow(s) + (if s == {} then 0 else dr)
    ensures MinColumn(Translate(s, dr, dc)) == MinColumn(s) + (if s == {} then 0 else dc)
  {
    var s' := Translate(s, dr, dc);
    if s != {} {
      var t :| t in s;
      assert t.row in Rows(s) && t.column in Columns(s);
      assert Moved(t, dr, dc) in s';
      var m := MinOf(Rows(s));
      var w :| w in s && w.row == m;
      assert Moved(w, dr, dc) in s';
      assert m + dr in Rows(s');
      forall x | x in Rows(s') ensures m + dr <= x {
        var u :| u in s' && u.row == x;
        TranslateMember(s, dr, dc, u);
        assert Moved(u, -dr, -dc).row in Rows(s);
      }
      MinOfUnique(Rows(s'), m + dr);
      var n := MinOf(Columns(s));
      var v :| v in s && v.column == n;
      assert Moved(v, dr, dc) in s';
      assert n + dc in Columns(s');
      forall x | x in Columns(s') ensures n + dc <= x {
        var u :| u in s' && u.column == x;
        TranslateMember(s, dr, dc, u);
        assert Moved(u, -dr, -dc).column in Columns(s);
      }
      MinOfUnique(Columns(s'), n + dc);
    } else {
      assert s' == {};
    }
  }

  // ---------------------------------------------------------------------------
  // Normalization and translation-invariant equality

  /** Translation invariance: shifting every stick leaves the normalized set unchanged. */
  lemma NormalizeTranslate(s: set<Stick>, dr: int, dc: int)
    ensures Normalize(Translate(s, dr, dc)) == Normalize(s)
  {
    TranslateMinimum(s, dr, dc);
    if s == {} {
      assert Translate(s, dr, dc) == {};
    } else {
      TranslateCompose(s, dr, dc, -MinRow(s) - dr, -MinColumn(s) - dc);
    }
  }

  lemma NormalizeSize(s: set<Stick>)
    ensures |Normalize(s)| == |s|
  {
    TranslateSize(s, -MinRow(s), -MinColumn(s));
  }

  lemma NormalizeIdempotent(s: set<Stick>)
    ensures Normalize(Normalize(s)) == Normalize(s)
  {
    NormalizeTranslate(s, -MinRow(s), -MinColumn(s));
  }

  /** A normalized non-empty set has its minimum row and column at 0. */
  lemma NormalizeAtOrigin(s: set<Stick>)
    requires s != {}
    ensures MinRow(Normalize(s)) == 0 && MinColumn(Normalize(s)) == 0
  {
    TranslateMinimum(s, -MinRow(s), -MinColumn(s));
  }

  /** Two collections are equal exactly when one is a translation of the other. */
  lemma SameIffTranslate(a: StickCollection, b: StickCollection)
    ensures Same(a, b) <==> exists dr: int, dc: int :: b.sticks == Translate(a.sticks, dr, dc)
  {
    if Same(a, b) {
      var dr := MinRow(b.sticks) - MinRow(a.sticks);
      var dc := MinColumn(b.sticks) - MinColumn(a.sticks);
      TranslateCompose(a.sticks, -MinRow(a.sticks), -MinColumn(a.sticks), MinRow(b.sticks), MinColumn(b.sticks));
      TranslateCompose(b.sticks, -MinRow(b.sticks), -MinColumn(b.sticks), MinRow(b.sticks), MinColumn(b.sticks));
      TranslateZero(b.sticks);
      assert b.sticks == Translate(a.sticks, dr, dc);
    }
    if exists dr: int, dc: int :: b.sticks == Translate(a.sticks, dr, dc) {
      var dr: int, dc: int :| b.sticks == Translate(a.sticks, dr, dc);
      NormalizeTranslate(a.sticks, dr, dc);
    }
  }

  /** Equal collections hold the same number of sticks. */
  lemma SameSize(a: StickCollection, b: StickCollection)
    requires Same(a, b)
    ensures Size(a) == Size(b)
  {
    NormalizeSize(a.sticks);
    NormalizeSize(b.sticks);
  }

  // ---------------------------------------------------------------------------
  // Single-stick add and remove

  lemma SubAddInverse(c: StickCollection, t: Stick)
    requires t !in c.sticks
    ensures Sub(Add(c, t), t) == c
  {
    assert (c.sticks + {t}) - {t} == c.sticks;
  }

  lemma AddSubInverse(c: StickCollection, t: Stick)
    requires t in c.sticks
    ensures Add(Sub(c, t), t) == c
  {
  }

  lemma RemovalWitness(c: StickCollection, k: Key) returns (t: Stick)
    requires k in RemovalSet(c)
    ensures t in c.sticks && k == KeyOf(Sub(c, t))
  {
    t :| t in c.sticks && k == KeyOf(Sub(c, t));
  }

  /** Removing stick `t` and then translating gives the same shape as translating and removing its image. */
  lemma RemoveThenTranslate(s: set<Stick>, t: Stick, dr: int, dc: int)
    requires t in s
    ensures Moved(t, dr, dc) in Translate(s, dr, dc)
    ensures KeyOf(Sub(StickCollection(Translate(s, dr, dc)), Moved(t, dr, dc))) == KeyOf(Sub(StickCollection(s), t))
  {
    TranslateRemove(s, t, dr, dc);
    NormalizeTranslate(s - {t}, dr, dc);
  }

  lemma Unmove(t': Stick, dr: int, dc: int) returns (t: Stick)
    ensures Moved(t, dr, dc) == t' && t == Moved(t', -dr, -dc)
  {
    t := Stick(t'.row - dr, t'.column - dc, t'.orientation);
  }

  /** The removal set of a translated collection is the same set of shapes. */
  lemma RemovalSetTranslate(s: set<Stick>, dr: int, dc: int)
    ensures RemovalSet(StickCollection(Translate(s, dr, dc))) == RemovalSet(StickCollection(s))
  {
    var c := StickCollection(s);
    var c' := StickCollection(Translate(s, dr, dc));
    forall k ensures k in RemovalSet(c') <==> k in RemovalSet(c) {
      if k in RemovalSet(c) {
        var t := RemovalWitness(c, k);
        RemoveThenTranslate(s, t, dr, dc);
      }
      if k in RemovalSet(c') {
        var t' := RemovalWitness(c', k);
        var t := Unmove(t', dr, dc);
        TranslateMember(s, dr, dc, t');
        RemoveThenTranslate(s, t, dr, dc);
      }
    }
  }

  lemma RemovalSetOfKey(c: StickCollection)
    ensures RemovalSet(StickCollection(KeyOf(c))) == RemovalSet(c)
  {
    hide RemovalSet;
    var dr, dc := -MinRow(c.sticks), -MinColumn(c.sticks);
    assert KeyOf(c) == Translate(c.sticks, dr, dc);
    RemovalSetTranslate(c.sticks, dr, dc);
  }

  lemma {:induction false} ImageSize(s: set<Stick>, c: StickCollection)
    requires s <= c.sticks
    ensures |set t | t in s :: KeyOf(Sub(c, t))| <= |s|
    decreases |s|
  {
    hide KeyOf, Sub;
    if s != {} {
      var t :| t in s;
      ImageSize(s - {t}, c);
      var img := set u | u in s :: KeyOf(Sub(c, u));
      var img' := set u | u in s - {t} :: KeyOf(Sub(c, u));
      assert img == img' + {KeyOf(Sub(c, t))};
    } else {
      assert (set t | t in s :: KeyOf(Sub(c, t))) == {};
    }
  }

  /** Every shape of the removal set has one stick fewer, and there are at most as many shapes as sticks. */
  lemma RemovalSetSizes(c: StickCollection)
    ensures forall k :: k in RemovalSet(c) ==> |k| == Size(c) - 1
    ensures |RemovalSet(c)| <= Size(c)
  {
    forall k | k in RemovalSet(c) ensures |k| == Size(c) - 1 {
      var t :| t in c.sticks && k == KeyOf(Sub(c, t));
      NormalizeSize(Sub(c, t).sticks);
    }
    ImageSize(c.sticks, c);
  }

  /** Every member of the removal set is the shape of `c` with some stick removed. */
  lemma RemovalSetMember(c: StickCollection, k: Key)
    ensures k in RemovalSet(c) <==> exists t :: t in c.sticks && Same(Sub(c, t), StickCollection(k)) && k == Normalize(k)
  {
    if k in RemovalSet(c) {
      var t :| t in c.sticks && k == KeyOf(Sub(c, t));
      NormalizeIdempotent(Sub(c, t).sticks);
    }
    if exists t :: t in c.sticks && Same(Sub(c, t), StickCollection(k)) && k == Normalize(k) {
      var t :| t in c.sticks && Same(Sub(c, t), StickCollection(k)) && k == Normalize(k);
      assert k == KeyOf(Sub(c, t));
    }
  }
}
