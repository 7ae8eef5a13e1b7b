# Stoichiometry core in Dafny

A Dafny model of the core of a small Python chemistry library. The core has three parts:

- `Element` (element.py): a periodic-table entry. Two elements are equal when their atomic numbers
  are equal. An element hashes by `(number, symbol)` and prints as its symbol. `a + b` makes a
  molecule of the two.
- `ElementManager` (elementmanager.py): a registry of 118 slots, indexed by atomic number minus
  one, plus a dict from symbol to slot. It is filled from a dataset of records by `add_element`.
  `get` looks an element up by number or by symbol.
- `Molecule` (molecule.py): an insertion-ordered dict from elements to quantities. It derives the
  molar mass and the per-element mass fractions, converts to moles, computes ideal-gas volume
  and pressure, and combines two molecules with `add_molecule`.

The files:

- `outcomes.dfy` (module `Outcomes`) holds the shared result types. `Result` stands for a value
  or one of the two exceptions that escape the core (`ElementNotDefined`, `ZeroDivisionError`).
  `Returned` stands for the places where the source *returns* a `TypeError` instance instead of
  raising it.
- `element.dfy` (module `Elements`) models element.py. `Element` is a datatype, and its
  constructor is `__init__`.
- `molecule.dfy` (module `Molecules`) models molecule.py, and also `Element.__add__`, which
  needs the molecule type. A Python dict is modelled as its item sequence (`Composition`). A dict
  treats two elements as one key when their hashes and `==` agree. `Hash` includes the atomic
  number, so that is exactly when `(number, symbol)` agree. The `for` loops of
  `calculate_mass`, `calculate_element_percentage` and `add_molecule` are methods with loop
  invariants. Each method is proved equal to a specification function (`WeightedSum`,
  `Fractions`, `Merge`), and the lemmas state what those functions mean. A molecule is an
  immutable value whose fields are set once by its constructor (`NewMolecule`).
- `elementmanager.dfy` (module `Registry`) models the registry as a class. It has an
  `array<Option<Element>>` of 118 slots and a `map<string, int>` index, and `AddElement`
  updates them in place. `LoadSlots` and `LoadIndex` give the state after a whole dataset has
  been added. The lemmas about those two functions state last-write-wins and the registry
  invariant.

Masses, gas quantities and their arithmetic are `real`, so sums and quotients are exact.

On these edge cases the model follows the code as written, not its docstrings:

- `get` on an empty slot returns `None`; it does not raise, although the docstring of `get`
  (elementmanager.py:65-67) says an undefined element raises `ElementNotDefined`.
- `get(0)` and the numbers -117..-1 wrap around to the end of the slot list. Numbers of -118
  and below raise `ElementNotDefined`, as numbers above 118 do.
- `==` against a non-element returns a `TypeError` object, and so does `add_molecule` on a
  non-molecule.
- Two elements with the same number but different symbols are equal, yet they are two keys in
  a dict, because their hashes differ (`EqualElementsMayHashApart`, `PairShape`).

## Model

| member | source | states |
|---|---|---|
| `Elements.Equals` | element.py:26-30 | a non-element operand gives a TypeError object carrying the type's name; otherwise the result is true exactly when the atomic numbers are equal |
| `Elements.Hash` | element.py:32-33 | the dict key of an element: its atomic number paired with its symbol, so name and mass do not enter it |
| `Elements.Str` | element.py:35-36 | `str(e)` is the element's symbol |
| `Elements.ReprString` | element.py:38-39 | `repr(e)` is the element's symbol |
| `Elements.EqualsIsEquivalence` | element.py:26-30 | element equality is reflexive, symmetric and transitive |
| `Elements.EqualsIgnoresAttributes` | element.py:26-30 | changing the name, symbol or mass of the right operand does not change the outcome of `==` |
| `Elements.HashConsistentWithEquals` | element.py:26-33 | equal hashes imply equal elements; equal elements with the same symbol hash alike; the hash ignores name and mass |
| `Elements.EqualElementsMayHashApart` | element.py:26-33 | two elements with number 1 and symbols "H" and "D" are equal, yet their hashes differ |
| `Elements.StringFormsAreSymbol` | element.py:35-39 | `str` and `repr` both give exactly the symbol |
| `Molecules.PairComposition` | element.py:50 | the dict literal `{a: 1, b: 1}`: inserting `a` and then `b` with quantity 1 each, where a repeated key keeps `a` |
| `Molecules.PairShape` | element.py:50 | the literal `{a: 1, b: 1}` is `[(a,1),(b,1)]` in that order when the keys differ, and the single entry `[(a,1)]` when they coincide |
| `Molecules.ElementAdd` | element.py:41-50 | `a + b` is the molecule of that literal; with different keys its molar mass is `a.mass + b.mass`, with the same key it is `a.mass` |
| `Molecules.GetAfterSet` | molecule.py:149-151 | after `d[e] = v`, looking up `e`'s key gives `v` and every other key reads as before |
| `Molecules.MoleculeOf` | molecule.py:16-19 | construction fails with ZeroDivisionError exactly when there is an entry and the weighted sum is 0; otherwise the molar mass is the weighted sum, there is one percentage per entry in insertion order, and percentage `i` times the molar mass is entry `i`'s mass times quantity |
| `Molecules.NewMolecule` | molecule.py:16-19 | the constructor, built from the two loop methods with `calculate_mass(1)` as the molar mass, yields exactly `MoleculeOf` |
| `Molecules.CalculateMass` | molecule.py:42-59 | the accumulating loop computes the weighted sum; the result times `mol` is that sum; `mol == 0` raises ZeroDivisionError |
| `Molecules.CalculateElementPercentage` | molecule.py:21-40 | the appending loop yields each entry's contribution divided by the molar mass, in insertion order; a zero molar mass with at least one entry raises |
| `Molecules.SumOfFractions` | molecule.py:30-40 | the fractions of a composition over any non-zero total add up to its weighted sum divided by that total |
| `Molecules.PercentagesSumToOne` | molecule.py:21-40 | when the molar mass is non-zero the element percentages sum to exactly 1 |
| `Molecules.CalculateMol` | molecule.py:61-73 | it raises exactly when the molar mass is zero; otherwise the result times the molar mass is the given mass |
| `Molecules.MolarMassIsOneMole` | molecule.py:73 | `calculate_mol(molar_mass)` is exactly 1 |
| `Molecules.CalculateVolume` | molecule.py:75-99 | it raises exactly when the pressure is zero |
| `Molecules.CalculatePressure` | molecule.py:101-125 | it raises exactly when the volume is zero |
| `Molecules.StandardVolumeIsGasLaw` | molecule.py:93-97 | the constant 22.3983 equals `273.15 * 0.082 / 1`, and `calculate_volume(1)` at the defaults is 22.3983 |
| `Molecules.IdealGasLaw` | molecule.py:75-125 | on both the shortcut and the general branch, volume times pressure (and pressure times volume) equals `n * R * T` |
| `Molecules.VolumePressureRoundTrip` | molecule.py:75-125 | for non-zero inputs, the pressure computed for the computed volume is the original pressure |
| `Molecules.MergeCompositions` | molecule.py:142-151 | the copy-then-update-or-insert loop computes `Merge`; for a genuine dict `other`, each key's quantity is the sum of its two quantities, and the elements are `self`'s in order followed by `other`'s new ones |
| `Molecules.MergeQuantities` | molecule.py:142-151 | each key's merged quantity is its quantity in `self` plus its quantity in `other`, with an absent key counting as 0 |
| `Molecules.MergeOrder` | molecule.py:142-151 | the merged elements are `self`'s elements in their order, then the elements of `other` that `self` lacked, in `other`'s order |
| `Molecules.MergeIsDict` | molecule.py:142-151 | merging into a dict keeps its keys distinct |
| `Molecules.MergeElements` | molecule.py:142-151 | the merge holds no element object that neither operand held |
| `Molecules.MergeWeightedSum` | molecule.py:142-153 | if elements with the same key agree on their mass, the merged weighted sum is the sum of the two weighted sums |
| `Molecules.AddMolecule` | molecule.py:127-153 | a non-molecule operand gives a TypeError object naming its type; otherwise the result is the molecule built from the merged composition, and the quantities add up key by key |
| `Molecules.AddMoleculeMolarMass` | molecule.py:142-153 | combining two well-formed molecules whose shared elements agree on mass succeeds exactly when the merge is empty or the summed molar mass is non-zero, and then gives a well-formed molecule whose molar mass is the sum of theirs |
| `Molecules.WaterScenario` | molecule.py:16-40 | `{H: 2, O: 1}` has molar mass 18.015 and percentages `[2.016/18.015, 15.999/18.015]` in insertion order |
| `Registry.ElementManager.constructor` | elementmanager.py:18-27 | it starts from 118 empty slots and an empty index, calls `add_element` once per record in order, and ends in exactly the state `LoadSlots`/`LoadIndex` give, with the registry invariant holding |
| `Registry.ElementManager.AddElement` | elementmanager.py:29-52 | slot `number-1` now holds the record's element, the symbol maps to `number-1`, every other slot and symbol is unchanged, and the invariant is kept |
| `Registry.ElementManager.Get` | elementmanager.py:54-82 | numbers 1..118 give slot `n-1`, possibly `None`; numbers -117..0 wrap to slot `118+n-1`; other numbers, unknown symbols and other types raise ElementNotDefined; a known symbol gives its populated slot; a populated slot found by number `n` holds number `n` |
| `Registry.ElementOf` | elementmanager.py:42-49 | the element `add_element` builds from a record: its number, name, symbol and mass, unchanged |
| `Registry.LoadConsistent` | elementmanager.py:29-52 | after any dataset, every symbol names a populated slot and every populated slot `i` holds an element numbered `i+1` |
| `Registry.LoadSlotsLastWrite` | elementmanager.py:51 | slot `n-1` holds the element of the last record numbered `n`, and stays empty when there is none |
| `Registry.LoadIndexLastWrite` | elementmanager.py:52 | a symbol maps to the slot of the last record carrying it, and is absent when no record carries it |
| `Registry.StaleSymbolAfterOverwrite` | elementmanager.py:51-52 | after a record is overwritten by one with the same number and another symbol, the old symbol still maps to the slot, which now holds the newer element |
| `Registry.DistinctDatasetLookups` | elementmanager.py:18-52 | with distinct numbers and symbols, each record's slot holds its element and its symbol maps to that slot |
| `Registry.DistinctDatasetSymbols` | elementmanager.py:76-80 | with distinct numbers and symbols, every known symbol leads to an element carrying that symbol |
| `Registry.HydrogenLookups` | elementmanager.py:54-82 | after loading a dataset that holds Hydrogen once, `get(1)` and `get("H")` both return that element |

## Left out

- Reading `ElementData.json` in the registry constructor is I/O. The constructor takes the
  sequence of records instead. Malformed records (missing fields) are not modelled, because a
  `Record` always has all four fields.
- Records numbered outside 1..118 are excluded by a precondition of `AddElement`. The source
  raises `IndexError` for them, or wraps negative indices.
- The `errorhandling` module is not part of this model. `ElementNotDefined` is a variant of
  `Outcomes.Error`.
- Molecule.py and Element.py are older duplicates that the modelled modules do not import. They
  are not modelled. Molecule.py assigns rather than accumulates, so its mass is the last
  element's contribution only.
- The commented-out `formula_to_molecule` stub is not modelled.
- Floating-point rounding is not modelled: masses and gas quantities are exact reals.
  The `!=` comparisons with 273.15 and 1 are taken with their real-number meaning.
- Python's hash function is not modelled. The tuple `(number, symbol)` stands for its hash, so
  collisions between different tuples are ignored.
- `Element.__add__` with a right operand that is not an `Element` is not modelled. The source
  annotates the operand as an `Element`. What another value does depends on that value: an
  unhashable one raises `TypeError` while the dict literal is built, one without a `mass`
  attribute fails inside the molecule constructor, and one with a numeric `mass` goes through.
- `get` with a `bool`: Python treats `True` and `False` as the ints 1 and 0. `NumberTarget`
  covers them under those values and has no separate case.
- `calculate_volume` and `calculate_pressure` ignore the molecule they are called on. They are
  modelled as functions without it.
- Python object identity, aliasing and later reassignment of a molecule's attributes are not
  modelled. A molecule is an immutable value, so "neither operand is modified by
  `add_molecule`" holds by construction.
- Molecules.MergeWeightedSum: the molar-mass sum is stated under the extra hypothesis that
  elements with the same key have the same mass. Without it, the merged molecule weighs a shared
  element at the mass of `self`'s copy.
- Molecules.AddMoleculeMolarMass: needs the same equal-mass hypothesis as
  Molecules.MergeWeightedSum.
