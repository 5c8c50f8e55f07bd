# Matchstick puzzle engine — a Dafny model

This project models the engine of `digits.py`, a solver for "move one matchstick
to make the equation true" puzzles.

- **Shapes.** A digit or operator is drawn with matchsticks on a small grid. A
  stick is a `(row, column, orientation)` triple. A stick collection is compared
  by its *normalized* set: every stick is shifted so that the smallest row and
  the smallest column are 0. Equality is therefore invariant under translation.
  Sticks can be added and removed one at a time. The *removal set* holds every
  shape reachable by removing one stick.
- **Symbols.** A symbol's identity is its shape alone. `x.is_reachable_from(y)`
  holds when `x` has one stick more than `y` and removing one of `x`'s sticks
  gives `y`'s shape. `with_pattern` draws a symbol from lines of text against a
  template grid.
- **The symbol collection** precomputes three maps for every symbol of the
  alphabet: the symbols reachable by *adding* one stick, by *removing* one, and
  by *moving* one (remove a stick, then add one).
- **Expressions** are sequences of symbols. They support `substitute_symbol`
  and `code`, which concatenates the symbols' codes. `evaluate` splits a chain
  `a = b = c` at its equality signs and combines the pieces with Python's
  short-circuit `and`. A piece with at most one sign goes to Python's `eval`.
- **The search** tries every ordered pair of positions `(i, j)`:
  - for `i == j`, every move candidate at `i`;
  - otherwise, every removal candidate at `i` with every addition candidate at `j`.

  It records each rearranged expression that evaluates to exactly `True`, keyed
  by `(i, j, source code, destination code)`.

Modelling choices:

- **Shape identity.** A shape's identity is `Shapes.KeyOf`, the normalized
  stick set.
- **Symbol sets.** A Python set of symbols deduplicates by shape and keeps the
  first symbol inserted. It is modelled as a map from shape to symbol
  (`Catalog.SymbolSet`). The dictionaries keyed by symbols become maps keyed by
  shape.
- **`eval`.** Python's `eval` is a parameter, `Expressions.Interpreter`. It maps
  code text to an integer, a boolean or `Invalid`; `Invalid` stands for the
  `ValueError` that `evaluate` raises on a `SyntaxError`.
- **Iteration order.** The source iterates over Python sets. The model picks
  elements in an unspecified order (`:|`), and every contract holds whatever
  the order.

Files, one module each:

| file | module |
|---|---|
| `shapes.dfy` | `Shapes`: sticks, normalization, add/remove, removal set |
| `symbols.dfy` | `Symbols`: symbols and `is_reachable_from` |
| `patterns.dfy` | `Patterns`: `with_pattern` and the two templates |
| `catalog.dfy` | `Catalog`: `SymbolCollection.__init__` |
| `expressions.dfy` | `Expressions`: `Expression`, `substitute_symbol`, `code`, `evaluate` |
| `search.dfy` | `Search`: `_test_substitution` and the search loop |

## Model

| member | source | states |
|---|---|---|
| Shapes.SameIffTranslate | digits.py:51-61 | two collections are equal exactly when one is a translate of the other |
| Shapes.NormalizeTranslate | digits.py:97-104 | shifting every stick by the same offset leaves the normalized set, and so equality and the hash, unchanged |
| Shapes.NormalizeIdempotent | digits.py:51-61 | normalizing a normalized set changes nothing |
| Shapes.NormalizeAtOrigin | digits.py:51-52 | a non-empty normalized set has smallest row 0 and smallest column 0 |
| Shapes.NormalizeSize | digits.py:54-61 | normalization neither merges nor loses sticks |
| Shapes.SameSize | digits.py:97-98 | equal collections have the same number of sticks |
| Shapes.Add | digits.py:76-82 | adding a stick gives a superset holding it: one stick larger when it is new, the same collection otherwise |
| Shapes.Sub | digits.py:84-92 | removing a stick that is absent returns the collection itself; otherwise exactly that stick is gone and the size drops by one |
| Shapes.SubAddInverse | digits.py:76-92 | removing a stick just added restores the collection |
| Shapes.AddSubInverse | digits.py:76-92 | adding back a stick just removed restores the collection |
| Shapes.RemovalSetMember | digits.py:64-74 | a shape is in the removal set exactly when removing some stick gives a collection equal to it |
| Shapes.RemovalSetSizes | digits.py:64-74 | every shape in the removal set has one stick fewer, and there are at most as many shapes as sticks |
| Shapes.RemovalSetTranslate | digits.py:64-74 | the removal set of a translated collection is the same set of shapes |
| Symbols.ReachIffAddOne | digits.py:165-175 | `x` is reachable from `y` exactly when adding one new stick to `y` gives a shape equal to `x` |
| Symbols.ReachIsStrict | digits.py:165-175 | reachability adds exactly one stick, never holds in both directions and never from a symbol to itself |
| Symbols.ReachByKey | digits.py:156-175 | reachability depends only on the two shapes, so deciding it on the normalized sets gives the same answer |
| Symbols.ReachTranslate | digits.py:165-175 | translating the larger collection does not change reachability |
| Patterns.WithPattern | digits.py:187-211 | an accepted pattern lies inside its template |
| Patterns.WithPatternMeaning | digits.py:192-210 | a pattern is accepted exactly when every character the zip reaches is one of the four accepted ones and every pictured stick is in the template; it then draws exactly the pictured sticks |
| Patterns.MakeSymbol | digits.py:187-211 | building a symbol succeeds exactly when the class's template accepts the pattern; the symbol holds exactly the drawn collection, keeps the class, code and name, and lies inside the template |
| Patterns.RenderRoundTrip | digits.py:196-211 | reading the rendering of any subset of the template gives back exactly that subset |
| Patterns.MakeRoundTrip | digits.py:187-247 | a rendered subset of a class's template builds a symbol of that class with exactly those sticks |
| Patterns.IgnoresExtraLines | digits.py:196 | lines beyond the template's rows do not change the outcome |
| Patterns.Glyph | digits.py:198-205 | a character draws only at its own cell and draws every orientation it marks |
| Patterns.AscendingIncreasing | digits.py:193-194 | the sorted rows and columns are strictly increasing |
| Patterns.AscendingIndex | digits.py:193-194 | every row and column of the template appears in the sorted list |
| Patterns.DigitGrid | digits.py:126-133 | the digit template's grid is rows 0, 4, 8 by columns 0, 1, 2 |
| Patterns.ZeroPattern | digits.py:349-357 | the zero glyph reads as the six outer sticks of the digit template |
| Catalog.Insert | digits.py:264 | adding a symbol to a set adds its shape and keeps the existing member of that shape |
| Catalog.Entry | digits.py:259-261 | `setdefault` yields the existing entry, or an empty set for a new symbol |
| Catalog.ScanDirect | digits.py:262-266 | after the inner loop, the addition and removal sets hold exactly the alphabet symbols related to the input symbol |
| Catalog.ScanIntermediate | digits.py:268-270 | one intermediate shape contributes every alphabet symbol reachable from it to the move set, and nothing unrelated |
| Catalog.ScanMoves | digits.py:267-270 | after all intermediates, the move set holds exactly the alphabet symbols reachable through some intermediate |
| Catalog.BuildStep | digits.py:258-270 | processing the next input symbol extends the three maps to one more symbol of the alphabet, keeping them exact |
| Catalog.Build | digits.py:249-270 | the three maps have an entry for every symbol of the alphabet, and each entry holds exactly the related alphabet symbols |
| Catalog.TableExact | digits.py:258-270 | a shape is in an entry exactly when it is an alphabet shape in the entry's relation to the key |
| Catalog.CatalogReach | digits.py:258-270 | for alphabet symbols `x` and `y`: `y` is in `addition[x]` exactly when `y` is reachable from `x`; `y` is in `removal[x]` exactly when `x` is reachable from `y`; `y` is in `move[x]` exactly when removing some stick of `x` leaves a collection from which `y` is reachable |
| Catalog.MoveByRemoval | digits.py:178-185 | going through the removal set's shapes is the same as removing a stick of the symbol itself |
| Catalog.InverseLaw | digits.py:262-266 | `y` is in `addition[x]` exactly when `x` is in `removal[y]` |
| Catalog.ValuesFromAlphabet | digits.py:258-270 | every stored symbol is an alphabet symbol of the stored shape |
| Catalog.CatalogSizes | digits.py:258-270 | additions gain one stick, removals lose one, moves keep the count, and the empty shape has no moves |
| Expressions.Substitute | digits.py:283-289 | the substituted expression has the same length, holds the new symbol at the index (negative indices count from the end) and equals the original elsewhere |
| Expressions.SubstituteRestore | digits.py:283-289 | putting the old symbol back restores the expression |
| Expressions.SubstituteOverwrite | digits.py:283-289 | a second substitution at the same index overrides the first |
| Expressions.CodeAppend | digits.py:291-296 | the code of a concatenation is the concatenation of the codes |
| Expressions.SubstituteCode | digits.py:283-296 | substitution replaces exactly the substituted symbol's code inside the expression's code |
| Expressions.EqPositions | digits.py:315 | every listed position holds an equality operator |
| Expressions.EqPositionsIncreasing | digits.py:315 | the equality positions are listed in strictly increasing order |
| Expressions.EqPositionsComplete | digits.py:315 | a position is listed exactly when it holds an equality operator |
| Expressions.Boundaries | digits.py:317-318 | the zip pairs each sign with the previous sign (or -1) and the next sign (or the length) |
| Expressions.BoundariesInside | digits.py:317-318 | each boundary pair brackets its own sign and lies inside the expression |
| Expressions.Segments | digits.py:316-326 | a chain with n ≥ 2 signs splits into exactly n pieces, each shorter than the whole |
| Expressions.SegmentSlice | digits.py:319-326 | piece `k` is the slice from just after sign `k-1` up to sign `k+1` |
| Expressions.SegmentShape | digits.py:316-326 | each piece holds exactly one equality operator, at the place of its own sign |
| Expressions.SegmentsOverlap | digits.py:319-326 | consecutive pieces share the operand group between their signs, which holds no sign |
| Expressions.Evaluate | digits.py:331-336 | an expression with at most one sign is handed to `eval` as its code |
| Expressions.SegmentEvaluate | digits.py:319-336 | each piece, holding one sign, is evaluated by `eval` on its code |
| Expressions.ConjoinTrue | digits.py:327-330 | a left-to-right `and` is exactly `True` when every value but the last is truthy and the last is `True` |
| Expressions.ConjoinStops | digits.py:327-330 | the `and` returns the first falsy value and evaluates nothing after it |
| Expressions.ChainTrue | digits.py:316-330 | a chain is exactly `True` when every piece but the last evaluates truthy and the last evaluates to `True` |
| Expressions.ChainStops | digits.py:316-330 | a chain's value is that of its first falsy piece; a later piece cannot raise |
| Search.Apply | digits.py:636-642 | the candidate expression has the destination symbol at `j`, the source symbol at `i` when `i != j`, and the base symbol everywhere else |
| Search.TestSubstitution | digits.py:632-658 | a slot is recorded (overwriting any earlier entry) exactly when the candidate evaluates to exactly `True`; every other slot is unchanged, and a candidate that fails leaves the results untouched |
| Search.TestSound | digits.py:643-658 | testing a tried candidate keeps every recorded entry justified by a tried candidate that evaluates to `True` |
| Search.TryMoves | digits.py:664-667 | the move loop records every tried move at `i` that evaluates to `True`, and only justified entries |
| Search.TryDestinations | digits.py:670-671 | the inner loop records every addition candidate at `j` that completes a `True` pair with the given source |
| Search.TryPairs | digits.py:668-671 | the pair loops record every removal and addition pair at `(i, j)` that evaluates to `True` |
| Search.Search | digits.py:661-671 | every recorded entry comes from a tried candidate and evaluates to `True`, and every tried candidate that evaluates to `True` has its slot recorded |
| Search.RecordedTrue | digits.py:648 | every recorded expression evaluates to exactly `True` |
| Search.RecordedShape | digits.py:636-658 | a recorded expression differs from the base only at `i` and `j`, which hold symbols with the slot's codes; a move uses the same code at both |
| Search.EntrySize | digits.py:258-270 | a symbol stored under a shape has one stick more (addition), one fewer (removal) or the same number (move) |
| Search.SticksConserved | digits.py:661-671 | every tried candidate has the same total number of sticks as the base expression |
| Search.TotalSticksReplace | digits.py:283-289 | replacing one symbol changes the stick total by the difference of the two symbols' sizes |

## Left out

- Python's `eval` (digits.py:334) is the parameter `Interpreter`. Python 2 literal rules such as octal `04` are therefore not modelled.
- Exceptions other than `SyntaxError` inside `eval` (for example `ZeroDivisionError`) would escape `_test_substitution` and stop the script. The model folds every failure of `eval` into `Invalid`, which the search skips.
- Console output is not modelled, being I/O only: the module-level `print` calls (digits.py:629, 673-681).
- `display_code` and its `unicode` conversion (digits.py:154, 298-303) are presentation only.
- `StickCollection.from_dict` (digits.py:109-123) is not modelled. The two templates it builds (digits.py:126-142) are written out as `Patterns.DigitSticks` and `Patterns.OperatorSticks`.
- The glyph catalogue (digits.py:339-623) is not modelled as data: the alphabet is a parameter of `Catalog.Build`. Only the zero glyph is worked as an example (`Patterns.ZeroPattern`).
- The base expression of the search (digits.py:625-627) is likewise a parameter.
- `Symbol.__ne__` (digits.py:159-160) is not modelled. It reads the nonexistent attribute `sticks__`, so any call would raise `AttributeError`. Nothing in the engine calls it, because sets and dictionaries use `__eq__` and `__hash__`.
- `Stick.__repr__`, `is_vertical` and `is_horizontal` (digits.py:23-40) are not modelled: they are not used by the engine.
- Hashing and the `_removal_set` memo (digits.py:62, 69-74, 103-104) are not modelled. Sets are mathematical sets, so caching changes nothing.
- `Symbol.removal_set` (digits.py:177-185) keeps whichever raw collection Python happens to store for each shape. The model keeps the normalized shapes instead (`Shapes.RemovalSet`); `Symbols.ReachByKey` shows that reachability cannot tell them apart.
- Search.Search: when two candidates share a slot, the entry kept is the one tried last. The order of Python set iteration decides which one that is. The contract states only that the kept entry comes from some tried candidate that evaluates to `True`.
- Search.Search: a base expression symbol whose shape is missing from the catalog makes the source raise `KeyError`. The model requires every base shape to be in the catalog (`Search.Indexed`). This holds whenever the base expression is drawn from the alphabet (`Catalog.CatalogReach`).
- Catalog.Build: Python's `set.add` keeps the first symbol of each shape it sees. The model keeps the first alphabet symbol of each shape (`Catalog.Rep`), which is the same symbol, because the loops scan the alphabet in order.
- Expressions.Substitute: the model requires the index to be in range (negative indices counting from the end). It does not model the `IndexError` that `new_symbols[index] = ...` (digits.py:288) raises for any other index. The search only passes positions taken from `enumerate` (digits.py:662-663), so it never reaches that error.
- Patterns.MakeSymbol: takes the symbol's code as given. A digit's code is `str(value)` (digits.py:218-220); for example, blank's `value=""` gives code `""`. The `value` attribute and the `str` conversion are not modelled.
- Chain error propagation: when a piece of a chain is falsy, the short-circuit `and` means the later pieces are never evaluated, so their errors are never raised. The model follows the code here (`Expressions.ChainStops`).
