/** Symbols (digits and operators) and the single-stick reachability primitive.

A symbol's identity is its shape alone: two symbols with different names or
codes but equal stick collections are the same symbol. The kind tag is kept
because expression evaluation dispatches on it.
*/
module Symbols {
  import opened Shapes

  /** The Python class of a symbol: `Digit`, `Operator` or its subclass `EqualityOperator`. */
  datatype Kind = Digit | Operator | EqualityOperator

  datatype Symbol = Symbol(sticks: StickCollection, code: string, name: string, kind: Kind)

  /** The identity of a symbol: its normalized stick set. */
  function ShapeOf(s: Symbol): Key {
    KeyOf(s.sticks)
  }

  /** `x` has exactly one stick more than `y`, and removing some stick of `x` leaves a shape equal to `y`. */
  predicate IsReachableFrom(x: StickCollection, y: StickCollection) {
    Size(x) == Size(y) + 1 && exists t :: t in x.sticks && Same(y, Sub(x, t))
  }

  lemma ReachForward(x: StickCollection, y: StickCollection, t: Stick) returns (s: Stick)
    requires Size(x) == Size(y) + 1 && t in x.sticks && Same(y, Sub(x, t))
    ensures s !in y.sticks && Same(Add(y, s), x)
  {
    SameIffTranslate(Sub(x, t), y);
    var dr: int, dc: int :| y.sticks == Translate(x.sticks - {t}, dr, dc);
    s := Moved(t, dr, dc);
    TranslateMember(x.sticks - {t}, dr, dc, s);
    assert Moved(s, -dr, -dc) == t;
    TranslateAdd(x.sticks - {t}, t, dr, dc);
    assert (x.sticks - {t}) + {t} == x.sticks;
    assert Add(y, s).sticks == Translate(x.sticks, dr, dc);
    NormalizeTranslate(x.sticks, dr, dc);
  }

  lemma ReachBackward(x: StickCollection, y: StickCollection, s: Stick) returns (t: Stick)
    requires s !in y.sticks && Same(Add(y, s), x)
    ensures Size(x) == Size(y) + 1 && t in x.sticks && Same(y, Sub(x, t))
  {
    SameSize(Add(y, s), x);
    SameIffTranslate(Add(y, s), x);
    var dr: int, dc: int :| x.sticks == Translate(y.sticks + {s}, dr, dc);
    t := Moved(s, dr, dc);
    TranslateAdd(y.sticks, s, dr, dc);
    TranslateRemove(y.sticks + {s}, s, dr, dc);
    assert (y.sticks + {s}) - {s} == y.sticks;
    assert Sub(x, t).sticks == Translate(y.sticks, dr, dc);
    NormalizeTranslate(y.sticks, dr, dc);
  }

  /** Reachability means: adding exactly one new stick to `y` gives a shape equal to `x`. */
  lemma ReachIffAddOne(x: StickCollection, y: StickCollection)
    ensures IsReachableFrom(x, y) <==> exists s :: s !in y.sticks && Same(Add(y, s), x)
  {
    if IsReachableFrom(x, y) {
      var t :| t in x.sticks && Same(y, Sub(x, t));
      var s := ReachForward(x, y, t);
    }
    if exists s :: s !in y.sticks && Same(Add(y, s), x) {
      var s :| s !in y.sticks && Same(Add(y, s), x);
      var t := ReachBackward(x, y, s);
    }
  }

  /** Reachability is strict: never reflexive, never in both directions. */
  lemma ReachIsStrict(x: StickCollection, y: StickCollection)
    ensures IsReachableFrom(x, y) ==> Size(x) == Size(y) + 1
    ensures IsReachableFrom(x, y) ==> !IsReachableFrom(y, x)
    ensures !IsReachableFrom(x, x)
  {
  }

  /** Reachability does not change when the target is replaced by an equal shape. */
  lemma ReachSameTarget(x: StickCollection, y: StickCollection, y': StickCollection)
    requires Same(y, y')
    ensures IsReachableFrom(x, y) == IsReachableFrom(x, y')
  {
    SameSize(y, y');
  }

  /** Reachability does not change when the larger collection, the one reached, is translated. */
  lemma ReachTranslate(x: StickCollection, y: StickCollection, dr: int, dc: int)
    ensures IsReachableFrom(StickCollection(Translate(x.sticks, dr, dc)), y) == IsReachableFrom(x, y)
  {
    var x' := StickCollection(Translate(x.sticks, dr, dc));
    TranslateSize(x.sticks, dr, dc);
    if IsReachableFrom(x, y) {
      var t :| t in x.sticks && Same(y, Sub(x, t));
      RemoveThenTranslate(x.sticks, t, dr, dc);
      assert Same(y, Sub(x', Moved(t, dr, dc)));
    }
    if IsReachableFrom(x', y) {
      var t' :| t' in x'.sticks && Same(y, Sub(x', t'));
      var t := Unmove(t', dr, dc);
      TranslateMember(x.sticks, dr, dc, t');
      RemoveThenTranslate(x.sticks, t, dr, dc);
      assert Same(y, Sub(x, t));
    }
  }

  /** Reachability depends only on the two shapes, so it can be decided on normalized sets. */
  lemma ReachByKey(x: StickCollection, y: StickCollection)
    ensures IsReachableFrom(x, y) == IsReachableFrom(StickCollection(KeyOf(x)), StickCollection(KeyOf(y)))
  {
    var y' := StickCollection(KeyOf(y));
    NormalizeIdempotent(y.sticks);
    assert Same(y, y');
    ReachSameTarget(x, y, y');
    var dr, dc := -MinRow(x.sticks), -MinColumn(x.sticks);
    assert KeyOf(x) == Translate(x.sticks, dr, dc);
    ReachTranslate(x, y', dr, dc);
  }
}
