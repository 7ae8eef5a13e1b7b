/**
 * The molecule of molecule.py: an insertion-ordered dict from elements to
 * quantities, with the molar mass and mass fractions derived from it, the
 * mole and ideal-gas conversions, and the combination of two molecules.
 */
module Molecules {
  import opened Outcomes
  import opened Elements

  // ---------------------------------------------------------------------------
  // Compositions: Python dicts keyed by Element
  // ---------------------------------------------------------------------------

  /**
   * A dict `{Element: int}` as its items in insertion order. Two elements are
   * the same key when their hashes, `(number, symbol)`, agree.
   */
  type Composition = seq<(Element, int)>

  /** The keys of a dict are pairwise distinct. */
  predicate IsDict(c: Composition)
  {
    forall i, j :: 0 <= i < j < |c| ==> Hash(c[i].0) != Hash(c[j].0)
  }

  /** The position of key `k` in the dict, if present. */
  function Find(c: Composition, k: Key): (r: Option<nat>)
    ensures r.Some? ==> r.value < |c| && Hash(c[r.value].0) == k
    ensures r.Some? ==> forall j :: 0 <= j < r.value ==> Hash(c[j].0) != k
    ensures r.None? ==> forall j :: 0 <= j < |c| ==> Hash(c[j].0) != k
    decreases |c|
  {
    if |c| == 0 then None
    else if Hash(c[0].0) == k then Some(0)
    else match Find(c[1..], k)
      case None => None
      case Some(i) => Some(i + 1)
  }

  /** `d.get(k, 0)`: the quantity stored under `k`, 0 when absent. */
  function Get(c: Composition, k: Key): int
  {
    match Find(c, k)
    case Some(i) => c[i].1
    case None => 0
  }

  /**
   * `d[e] = v`: replaces the value of a present key in place (the stored key
   * object stays), or inserts a new key at the end.
   */
  function DictSet(c: Composition, e: Element, v: int): Composition
  {
    match Find(c, Hash(e))
    case Some(i) => c[i := (c[i].0, v)]
    case None => c + [(e, v)]
  }

  /** The elements of a dict, in insertion order. */
  function Elems(c: Composition): (r: seq<Element>)
    ensures |r| == |c|
  {
    seq(|c|, i requires 0 <= i < |c| => c[i].0)
  }

  /** The set of element objects a dict holds as keys. */
  function ElementSet(c: Composition): set<Element>
  {
    set i | 0 <= i < |c| :: c[i].0
  }

  /** Elements with the same key have the same atomic mass. */
  predicate Coherent(s: set<Element>)
  {
    forall x, y :: x in s && y in s && Hash(x) == Hash(y) ==> x.mass == y.mass
  }

  /** A key that no entry has is not found. */
  lemma FindAbsent(c: Composition, k: Key)
    requires forall j :: 0 <= j < |c| ==> Hash(c[j].0) != k
    ensures Find(c, k) == None
  {
  }

  /** The first entry with key `k` is where `k` is found. */
  lemma FindFirst(c: Composition, k: Key, i: nat)
    requires i < |c| && Hash(c[i].0) == k
    requires forall j :: 0 <= j < i ==> Hash(c[j].0) != k
    ensures Find(c, k) == Some(i)
  {
  }

  /** Lookup depends on the keys alone. */
  lemma FindSameKeys(c: Composition, d: Composition, k: Key)
    requires |c| == |d| && forall j :: 0 <= j < |c| ==> Hash(c[j].0) == Hash(d[j].0)
    ensures Find(c, k) == Find(d, k)
  {
    match Find(c, k) {
      case Some(i) => FindFirst(d, k, i);
      case None => FindAbsent(d, k);
    }
  }

  /** Lookup in a dict listing the elements of `a` and then of `f`, when `f` lacks the key. */
  lemma FindBeforeTail(c: Composition, a: Composition, f: Composition, k: Key)
    requires Elems(c) == Elems(a) + Elems(f) && Find(f, k).None?
    ensures Find(c, k) == Find(a, k)
  {
    forall j | 0 <= j < |c| ensures c[j].0 == if j < |a| then a[j].0 else f[j - |a|].0 {
      assert Elems(c)[j] == c[j].0;
    }
    match Find(a, k) {
      case Some(i) => FindFirst(c, k, i);
      case None => FindAbsent(c, k);
    }
  }

  /** Looking up the key just written gives the value written; other keys are unaffected. */
  lemma GetAfterSet(c: Composition, e: Element, v: int, k: Key)
    ensures Get(DictSet(c, e, v), k) == if k == Hash(e) then v else Get(c, k)
  {
    var d := DictSet(c, e, v);
    match Find(c, Hash(e)) {
      case Some(i) =>
        FindSameKeys(c, d, k);
      case None =>
        assert forall j :: 0 <= j < |c| ==> d[j] == c[j];
        if k == Hash(e) {
          FindFirst(d, k, |c|);
        } else {
          match Find(c, k) {
            case Some(j) => FindFirst(d, k, j);
            case None => FindAbsent(d, k);
          }
        }
    }
  }

  /** Writing a key keeps the element order, appending `e` when its key was absent. */
  lemma DictSetOrder(c: Composition, e: Element, v: int)
    ensures Elems(DictSet(c, e, v)) == if Find(c, Hash(e)).Some? then Elems(c) else Elems(c) + [e]
  {
  }

  /** Writing a key adds no element object other than `e`. */
  lemma DictSetElements(c: Composition, e: Element, v: int)
    ensures ElementSet(DictSet(c, e, v)) <= ElementSet(c) + {e}
  {
    var d := DictSet(c, e, v);
    forall x | x in ElementSet(d) ensures x in ElementSet(c) + {e} {
      var j :| 0 <= j < |d| && d[j].0 == x;
      if j < |c| {
        assert c[j].0 == x;
      }
    }
  }

  /** Writing a key keeps the keys of a dict distinct. */
  lemma DictSetIsDict(c: Composition, e: Element, v: int)
    requires IsDict(c)
    ensures IsDict(DictSet(c, e, v))
  {
  }

  // ---------------------------------------------------------------------------
  // Molar mass and element percentages
  // ---------------------------------------------------------------------------

  /** The mass an entry contributes: `element.mass * quantity`. */
  function Contribution(x: (Element, int)): real
  {
    x.0.mass * (x.1 as real)
  }

  /** The sum of all contributions, accumulated from the first entry to the last. */
  function WeightedSum(c: Composition): real
  {
    if |c| == 0 then 0.0 else WeightedSum(c[..|c| - 1]) + Contribution(c[|c| - 1])
  }

  /** The sum of a list of floats, from the first to the last. */
  function Sum(s: seq<real>): real
  {
    if |s| == 0 then 0.0 else Sum(s[..|s| - 1]) + s[|s| - 1]
  }

  /** Each entry's contribution divided by `total`, in insertion order. */
  function Fractions(c: Composition, total: real): (r: seq<real>)
    requires |c| == 0 || total != 0.0
    ensures |r| == |c|
  {
    seq(|c|, i requires 0 <= i < |c| => Contribution(c[i]) / total)
  }

  /** Fractions of a prefix are the prefix of the fractions. */
  lemma FractionsPrefix(c: Composition, total: real, n: nat)
    requires total != 0.0 && n <= |c|
    ensures Fractions(c[..n], total) == Fractions(c, total)[..n]
  {
  }

  /** The fractions add up to the weighted sum divided by `total`. */
  lemma {:induction false} SumOfFractions(c: Composition, total: real)
    requires total != 0.0
    ensures Sum(Fractions(c, total)) == WeightedSum(c) / total
  {
    if |c| > 0 {
      var n := |c| - 1;
      var f := Fractions(c, total);
      SumOfFractions(c[..n], total);
      FractionsPrefix(c, total, n);
      assert f[..|f| - 1] == Fractions(c[..n], total);
      assert f[n] == Contribution(c[n]) / total;
      calc {
        Sum(f);
        Sum(f[..n]) + f[n];
        WeightedSum(c[..n]) / total + Contribution(c[n]) / total;
        (WeightedSum(c[..n]) + Contribution(c[n])) / total;
        WeightedSum(c) / total;
      }
    }
  }

  /** The weighted sum of a concatenation is the sum of the weighted sums. */
  lemma {:induction false} WeightedSumAppend(c: Composition, d: Composition)
    ensures WeightedSum(c + d) == WeightedSum(c) + WeightedSum(d)
    decreases |d|
  {
    if |d| > 0 {
      var n := |d| - 1;
      assert (c + d)[..|c + d| - 1] == c + d[..n];
      WeightedSumAppend(c, d[..n]);
    } else {
      assert c + d == c;
    }
  }

  /** Adding `q` to the quantity of entry `i` adds that element's mass times `q`. */
  lemma {:induction false} WeightedSumBump(c: Composition, i: nat, q: int)
    requires i < |c|
    ensures WeightedSum(c[i := (c[i].0, c[i].1 + q)]) == WeightedSum(c) + c[i].0.mass * (q as real)
    decreases |c|
  {
    var n := |c| - 1;
    var d := c[i := (c[i].0, c[i].1 + q)];
    if i == n {
      assert d[..n] == c[..n];
      assert Contribution(d[n]) == Contribution(c[n]) + c[i].0.mass * (q as real);
    } else {
      assert d[..n] == c[..n][i := (c[i].0, c[i].1 + q)];
      WeightedSumBump(c[..n], i, q);
    }
  }

  // ---------------------------------------------------------------------------
  // The molecule
  // ---------------------------------------------------------------------------

  /** A molecule: its composition and the two attributes its constructor derives. */
  datatype Molecule = Molecule(elements: Composition, molarMass: real, elementPercentage: seq<real>)

  /**
   * The outcome of `Molecule(elements)`: the molar mass is the weighted sum,
   * and the percentage list divides each contribution by it, which raises
   * ZeroDivisionError when the sum is zero and there is at least one entry.
   */
  function MoleculeOf(c: Composition): (r: Result<Molecule>)
    ensures r.Failure? <==> |c| > 0 && WeightedSum(c) == 0.0
    ensures r.Failure? ==> r.error == ZeroDivision
    ensures r.Success? ==> r.value.elements == c && r.value.molarMass == WeightedSum(c)
    ensures r.Success? ==> |r.value.elementPercentage| == |c|
    ensures r.Success? ==> forall i :: 0 <= i < |c| ==>
              r.value.elementPercentage[i] * r.value.molarMass == Contribution(c[i])
  {
    var total := WeightedSum(c);
    if |c| > 0 && total == 0.0 then Failure(ZeroDivision)
    else Success(Molecule(c, total, Fractions(c, total)))
  }

  /** A molecule as its constructor leaves it, built from a genuine dict. */
  predicate WellFormed(m: Molecule)
  {
    IsDict(m.elements) && MoleculeOf(m.elements) == Success(m)
  }

  /** `calculate_mass(mol)`: the summed elemental mass divided by `mol`. */
  method CalculateMass(elements: Composition, mol: real) returns (r: Result<real>)
    ensures r.Failure? <==> mol == 0.0
    ensures r.Failure? ==> r.error == ZeroDivision
    ensures r.Success? ==> r.value == WeightedSum(elements) / mol
    ensures r.Success? ==> r.value * mol == WeightedSum(elements)
  {
    var resultMass := 0.0;
    var i := 0;
    while i < |elements|
      invariant 0 <= i <= |elements|
      invariant resultMass == WeightedSum(elements[..i])
    {
      var (element, quantity) := elements[i];
      assert elements[..i + 1][..i] == elements[..i];
      resultMass := resultMass + element.mass * (quantity as real);
      i := i + 1;
    }
    assert elements[..i] == elements;
    if mol == 0.0 {
      r := Failure(ZeroDivision);
    } else {
      r := Success(resultMass / mol);
    }
  }

  /**
   * `calculate_element_percentage()`: one fraction per entry, in insertion
   * order; the first division by a zero molar mass raises.
   */
  method CalculateElementPercentage(elements: Composition, molarMass: real) returns (r: Result<seq<real>>)
    ensures r.Failure? <==> |elements| > 0 && molarMass == 0.0
    ensures r.Failure? ==> r.error == ZeroDivision
    ensures r.Success? ==> r.value == Fractions(elements, molarMass)
  {
    if |elements| > 0 && molarMass == 0.0 {
      return Failure(ZeroDivision);
    }
    var result: seq<real> := [];
    var i := 0;
    while i < |elements|
      invariant 0 <= i <= |elements|
      invariant |result| == i
      invariant forall j :: 0 <= j < i ==> result[j] == Contribution(elements[j]) / molarMass
    {
      var (element, quantity) := elements[i];
      var elementMass := element.mass * (quantity as real);
      result := result + [elementMass / molarMass];
      i := i + 1;
    }
    r := Success(result);
  }

  /** `Molecule(elements)`: computes `molar_mass` as `calculate_mass(1)`, then the percentages. */
  method NewMolecule(elements: Composition) returns (r: Result<Molecule>)
    ensures r == MoleculeOf(elements)
  {
    var mass := CalculateMass(elements, 1.0);
    var molarMass := mass.value;
    var percentage := CalculateElementPercentage(elements, molarMass);
    match percentage {
      case Failure(e) => r := Failure(e);
      case Success(p) => r := Success(Molecule(elements, molarMass, p));
    }
  }

  /** The element percentages of a molecule with non-zero mass add up to exactly 1. */
  lemma PercentagesSumToOne(c: Composition)
    requires WeightedSum(c) != 0.0
    ensures MoleculeOf(c).Success?
    ensures Sum(MoleculeOf(c).value.elementPercentage) == 1.0
  {
    var total := WeightedSum(c);
    SumOfFractions(c, total);
    assert total / total == 1.0;
  }

  /** `calculate_mol(a)`: moles in `a` grams, `a / molar_mass`. */
  function CalculateMol(m: Molecule, a: real): (r: Result<real>)
    ensures r.Failure? <==> m.molarMass == 0.0
    ensures r.Failure? ==> r.error == ZeroDivision
    ensures r.Success? ==> r.value * m.molarMass == a
  {
    if m.molarMass == 0.0 then Failure(ZeroDivision) else Success(a / m.molarMass)
  }

  /** One molar mass of substance is exactly one mole. */
  lemma MolarMassIsOneMole(m: Molecule)
    requires m.molarMass != 0.0
    ensures CalculateMol(m, m.molarMass) == Success(1.0)
  {
  }

  // ---------------------------------------------------------------------------
  // Ideal gas law
  // ---------------------------------------------------------------------------

  /** The ideal gas constant, in L·atm/(mol·K). */
  const R: real := 0.082

  /** The precomputed molar volume at 273.15 K and 1 atm. */
  const StandardMolarVolume: real := 22.3983

  /**
   * `calculate_volume(n, temp, pressure)`: `n` times the precomputed molar
   * volume at the default temperature and pressure, otherwise `n * temp * R / pressure`.
   */
  function CalculateVolume(n: real, temp: real := 273.15, pressure: real := 1.0): (r: Result<real>)
    ensures r.Failure? <==> pressure == 0.0
    ensures r.Failure? ==> r.error == ZeroDivision
  {
    var factor := if temp != 273.15 || pressure != 1.0 then
                    (if pressure == 0.0 then None else Some(temp * R / pressure))
                  else Some(StandardMolarVolume);
    match factor
    case None => Failure(ZeroDivision)
    case Some(f) => Success(n * f)
  }

  /**
   * `calculate_pressure(n, temp, volume)`: `n` times the precomputed factor at
   * the default temperature and volume, otherwise `n * temp * R / volume`.
   */
  function CalculatePressure(n: real, temp: real := 273.15, volume: real := 1.0): (r: Result<real>)
    ensures r.Failure? <==> volume == 0.0
    ensures r.Failure? ==> r.error == ZeroDivision
  {
    var factor := if temp != 273.15 || volume != 1.0 then
                    (if volume == 0.0 then None else Some(temp * R / volume))
                  else Some(StandardMolarVolume);
    match factor
    case None => Failure(ZeroDivision)
    case Some(f) => Success(n * f)
  }

  /** The standard molar volume is the general formula at 273.15 K and 1 atm. */
  lemma StandardVolumeIsGasLaw()
    ensures StandardMolarVolume == 273.15 * R / 1.0
    ensures CalculateVolume(1.0) == Success(22.3983)
  {
  }

  /** Both functions obey the ideal gas law `P V = n R T`, shortcut or not. */
  lemma {:induction false} IdealGasLaw(n: real, temp: real, pv: real)
    requires pv != 0.0
    ensures CalculateVolume(n, temp, pv).value * pv == n * R * temp
    ensures CalculatePressure(n, temp, pv).value * pv == n * R * temp
  {
    var f := temp * R / pv;
    assert f * pv == temp * R;
    assert (n * f) * pv == n * (f * pv);
    if temp == 273.15 && pv == 1.0 {
      assert StandardMolarVolume == temp * R;
    }
  }

  /** The pressure for the volume `calculate_volume` computed is the pressure that went in. */
  lemma {:induction false} VolumePressureRoundTrip(n: real, temp: real, pressure: real)
    requires pressure != 0.0 && n != 0.0 && temp != 0.0
    ensures CalculateVolume(n, temp, pressure).value != 0.0
    ensures CalculatePressure(n, temp, CalculateVolume(n, temp, pressure).value) == Success(pressure)
  {
    var v := CalculateVolume(n, temp, pressure).value;
    IdealGasLaw(n, temp, pressure);
    assert n * R * temp != 0.0 by {
      assert n * R != 0.0;
    }
    assert v != 0.0;
    IdealGasLaw(n, temp, v);
    var p' := CalculatePressure(n, temp, v).value;
    assert p' * v == v * pressure;
    assert p' == pressure;
  }

  // ---------------------------------------------------------------------------
  // Combining molecules
  // ---------------------------------------------------------------------------

  /**
   * The composition `add_molecule` builds: starting from a copy of `a`, each
   * entry `(e, q)` of `b` in order stores `q` plus the quantity already under
   * `e`'s key (0 when absent), so a present key is incremented in place and an
   * absent one is inserted at the end.
   */
  function Merge(a: Composition, b: Composition): Composition
    decreases |b|
  {
    if |b| == 0 then a
    else
      var acc := Merge(a, b[..|b| - 1]);
      var x := b[|b| - 1];
      DictSet(acc, x.0, Get(acc, Hash(x.0)) + x.1)
  }

  /** The entries of `b` whose keys `a` lacks, in `b`'s order: what a merge appends. */
  function Fresh(a: Composition, b: Composition): Composition
  {
    if |b| == 0 then []
    else Fresh(a, b[..|b| - 1]) + (if Find(a, Hash(b[|b| - 1].0)).Some? then [] else [b[|b| - 1]])
  }

  /** Prefixes of a dict are dicts, and the last key does not occur before it. */
  lemma DictPrefix(b: Composition)
    requires IsDict(b) && |b| > 0
    ensures IsDict(b[..|b| - 1])
    ensures Find(b[..|b| - 1], Hash(b[|b| - 1].0)).None?
  {
    var n := |b| - 1;
    var p := b[..n];
    forall j | 0 <= j < n ensures Hash(p[j].0) != Hash(b[n].0) {
      assert p[j] == b[j];
    }
    FindAbsent(p, Hash(b[n].0));
  }

  /** In a dict, the last entry's quantity is found under its key; the other keys read as in the prefix. */
  lemma GetLast(b: Composition, k: Key)
    requires IsDict(b) && |b| > 0
    ensures Get(b, k) == if k == Hash(b[|b| - 1].0) then b[|b| - 1].1 else Get(b[..|b| - 1], k)
  {
    var n := |b| - 1;
    var p := b[..n];
    DictPrefix(b);
    assert b == p + [b[n]];
    assert b == DictSet(p, b[n].0, b[n].1);
    GetAfterSet(p, b[n].0, b[n].1, k);
  }

  /** Each key's quantity in the merge is the sum of its quantities in the two operands. */
  lemma {:induction false} MergeQuantities(a: Composition, b: Composition, k: Key)
    requires IsDict(b)
    ensures Get(Merge(a, b), k) == Get(a, k) + Get(b, k)
    decreases |b|
  {
    if |b| > 0 {
      var n := |b| - 1;
      var acc := Merge(a, b[..n]);
      var x := b[n];
      DictPrefix(b);
      GetLast(b, k);
      MergeQuantities(a, b[..n], k);
      GetAfterSet(acc, x.0, Get(acc, Hash(x.0)) + x.1, k);
      if k == Hash(x.0) {
        assert Get(b[..n], k) == 0;
      }
    }
  }

  /** The merge holds no element object that neither operand held. */
  lemma {:induction false} MergeElements(a: Composition, b: Composition)
    ensures ElementSet(Merge(a, b)) <= ElementSet(a) + ElementSet(b)
    decreases |b|
  {
    if |b| > 0 {
      var n := |b| - 1;
      var acc := Merge(a, b[..n]);
      var x := b[n];
      assert ElementSet(acc) <= ElementSet(a) + ElementSet(b) by {
        MergeElements(a, b[..n]);
        PrefixElements(b);
      }
      assert x.0 in ElementSet(b) by {
        PrefixElements(b);
      }
      DictSetElements(acc, x.0, Get(acc, Hash(x.0)) + x.1);
    }
  }

  /**
   * Merging keeps all keys distinct: each step either updates a present key
   * or appends an absent one.
   */
  lemma {:induction false} MergeIsDict(a: Composition, b: Composition)
    requires IsDict(a)
    ensures IsDict(Merge(a, b))
    decreases |b|
  {
    if |b| > 0 {
      var n := |b| - 1;
      MergeIsDict(a, b[..n]);
      DictSetIsDict(Merge(a, b[..n]), b[n].0, Get(Merge(a, b[..n]), Hash(b[n].0)) + b[n].1);
    }
  }

  /** A key of `Fresh(a, b)` is a key of `b` and not a key of `a`. */
  lemma {:induction false} FreshKeys(a: Composition, b: Composition, k: Key)
    ensures Find(Fresh(a, b), k).Some? ==> Find(b, k).Some? && Find(a, k).None?
    decreases |b|
  {
    if |b| > 0 {
      var n := |b| - 1;
      var p := Fresh(a, b[..n]);
      var f := Fresh(a, b);
      FreshKeys(a, b[..n], k);
      if Find(f, k).Some? {
        var j := Find(f, k).value;
        if j < |p| {
          assert f[j] == p[j];
          assert Find(p, k).Some? by {
            assert Hash(p[j].0) == k;
          }
          var i := Find(b[..n], k).value;
          assert Hash(b[i].0) == k;
        } else {
          assert f[j] == b[n];
        }
      }
    }
  }

  /**
   * The merge lists the elements of `a` first, in their order, then the
   * elements of `b` that `a` lacked, in `b`'s order.
   */
  lemma {:induction false} MergeOrder(a: Composition, b: Composition)
    requires IsDict(b)
    ensures Elems(Merge(a, b)) == Elems(a) + Elems(Fresh(a, b))
    decreases |b|
  {
    if |b| == 0 {
      assert Elems(Fresh(a, b)) == [];
    } else {
      var n := |b| - 1;
      var acc := Merge(a, b[..n]);
      var x := b[n];
      var h := Hash(x.0);
      var fr := Fresh(a, b[..n]);
      assert Elems(acc) == Elems(a) + Elems(fr) by {
        DictPrefix(b);
        MergeOrder(a, b[..n]);
      }
      assert Find(acc, h) == Find(a, h) by {
        DictPrefix(b);
        FreshKeys(a, b[..n], h);
        FindBeforeTail(acc, a, fr, h);
      }
      DictSetOrder(acc, x.0, Get(acc, h) + x.1);
      if Find(a, h).None? {
        assert Fresh(a, b) == fr + [x];
        assert Elems(fr + [x]) == Elems(fr) + [x.0];
      }
    }
  }

  /**
   * When elements with the same key agree on their mass, the merge's weighted
   * sum is the sum of the operands' weighted sums.
   */
  lemma {:induction false} MergeWeightedSum(a: Composition, b: Composition)
    requires Coherent(ElementSet(a) + ElementSet(b))
    ensures WeightedSum(Merge(a, b)) == WeightedSum(a) + WeightedSum(b)
    decreases |b|
  {
    if |b| > 0 {
      var n := |b| - 1;
      var s := ElementSet(a) + ElementSet(b);
      var acc := Merge(a, b[..n]);
      assert WeightedSum(acc) == WeightedSum(a) + WeightedSum(b[..n]) by {
        PrefixElements(b);
        assert ElementSet(a) + ElementSet(b[..n]) <= s;
        MergeWeightedSum(a, b[..n]);
      }
      assert ElementSet(acc) <= s && b[n].0 in s by {
        PrefixElements(b);
        MergeElements(a, b[..n]);
      }
      MergeStepWeightedSum(acc, b[n], s);
    }
  }

  /** The elements of a proper prefix, and the last element, are elements of the whole. */
  lemma PrefixElements(b: Composition)
    requires |b| > 0
    ensures ElementSet(b[..|b| - 1]) <= ElementSet(b)
    ensures b[|b| - 1].0 in ElementSet(b)
  {
    var n := |b| - 1;
    forall y | y in ElementSet(b[..n]) ensures y in ElementSet(b) {
      var j :| 0 <= j < n && b[..n][j].0 == y;
      assert b[j].0 == y;
    }
  }

  /**
   * One merge step adds the entry's contribution, provided the element already
   * stored under its key weighs the same.
   */
  lemma MergeStepWeightedSum(acc: Composition, x: (Element, int), s: set<Element>)
    requires Coherent(s) && ElementSet(acc) <= s && x.0 in s
    ensures WeightedSum(DictSet(acc, x.0, Get(acc, Hash(x.0)) + x.1)) == WeightedSum(acc) + Contribution(x)
  {
    match Find(acc, Hash(x.0)) {
      case Some(i) =>
        assert acc[i].0 in ElementSet(acc);
        IncrementWeightedSum(acc, x, i);
      case None =>
        InsertWeightedSum(acc, x);
    }
  }

  /** Incrementing a present key adds `mass * q` of the element stored there. */
  lemma IncrementWeightedSum(acc: Composition, x: (Element, int), i: nat)
    requires Find(acc, Hash(x.0)) == Some(i) && acc[i].0.mass == x.0.mass
    ensures WeightedSum(DictSet(acc, x.0, Get(acc, Hash(x.0)) + x.1)) == WeightedSum(acc) + Contribution(x)
  {
    assert DictSet(acc, x.0, Get(acc, Hash(x.0)) + x.1) == acc[i := (acc[i].0, acc[i].1 + x.1)];
    WeightedSumBump(acc, i, x.1);
  }

  /** Inserting an absent key adds the new entry's contribution. */
  lemma InsertWeightedSum(acc: Composition, x: (Element, int))
    requires Find(acc, Hash(x.0)) == None
    ensures WeightedSum(DictSet(acc, x.0, Get(acc, Hash(x.0)) + x.1)) == WeightedSum(acc) + Contribution(x)
  {
    var d := DictSet(acc, x.0, Get(acc, Hash(x.0)) + x.1);
    assert d == acc + [x];
    assert d[..|d| - 1] == acc;
  }

  /** `copy()` followed by the update-or-insert loop of `add_molecule`. */
  method MergeCompositions(a: Composition, b: Composition) returns (r: Composition)
    ensures r == Merge(a, b)
    ensures IsDict(b) ==> forall k :: Get(r, k) == Get(a, k) + Get(b, k)
    ensures IsDict(b) ==> Elems(r) == Elems(a) + Elems(Fresh(a, b))
  {
    r := a;
    var i := 0;
    while i < |b|
      invariant 0 <= i <= |b|
      invariant r == Merge(a, b[..i])
    {
      var (element, quantity) := b[i];
      assert b[..i + 1][..i] == b[..i];
      match Find(r, Hash(element)) {
        case Some(j) =>
          r := DictSet(r, element, r[j].1 + quantity);
        case None =>
          r := DictSet(r, element, quantity);
      }
      i := i + 1;
    }
    assert b[..i] == b;
    if IsDict(b) {
      forall k ensures Get(r, k) == Get(a, k) + Get(b, k) {
        MergeQuantities(a, b, k);
      }
      MergeOrder(a, b);
    }
  }

  /** The argument of `add_molecule`: a molecule, or a value of some other Python type. */
  datatype MoleculeOperand = MoleculeArg(molecule: Molecule) | NonMolecule(typeName: string)

  /**
   * `self.add_molecule(other)`: a TypeError object for a non-molecule,
   * otherwise a new molecule built from the merged composition.
   */
  method AddMolecule(self: Molecule, other: MoleculeOperand) returns (r: Result<Returned<Molecule>>)
    ensures other.NonMolecule? ==>
              r == Success(TypeErrorObject("Cannot add object of type " + other.typeName))
    ensures other.MoleculeArg? ==>
              var built := MoleculeOf(Merge(self.elements, other.molecule.elements));
              && (built.Failure? ==> r == Failure(built.error))
              && (built.Success? ==> r == Success(Value(built.value)))
    ensures other.MoleculeArg? && IsDict(other.molecule.elements) && r.Success? ==>
              forall k :: Get(r.value.v.elements, k) == Get(self.elements, k) + Get(other.molecule.elements, k)
  {
    match other {
      case NonMolecule(t) =>
        r := Success(TypeErrorObject("Cannot add object of type " + t));
      case MoleculeArg(m) =>
        var newElements := MergeCompositions(self.elements, m.elements);
        var built := NewMolecule(newElements);
        match built {
          case Failure(e) => r := Failure(e);
          case Success(n) => r := Success(Value(n));
        }
    }
  }

  /**
   * Combining two well-formed molecules whose shared elements agree on mass
   * succeeds exactly when the merge is empty or the summed molar mass is not
   * zero, and then gives a well-formed molecule whose molar mass is the sum
   * of theirs.
   */
  lemma {:induction false} AddMoleculeMolarMass(m1: Molecule, m2: Molecule)
    requires WellFormed(m1) && WellFormed(m2)
    requires Coherent(ElementSet(m1.elements) + ElementSet(m2.elements))
    ensures MoleculeOf(Merge(m1.elements, m2.elements)).Success? <==>
              |Merge(m1.elements, m2.elements)| == 0 || m1.molarMass + m2.molarMass != 0.0
    ensures MoleculeOf(Merge(m1.elements, m2.elements)).Success? ==>
              && WellFormed(MoleculeOf(Merge(m1.elements, m2.elements)).value)
              && MoleculeOf(Merge(m1.elements, m2.elements)).value.molarMass == m1.molarMass + m2.molarMass
  {
    var c := Merge(m1.elements, m2.elements);
    assert WeightedSum(c) == m1.molarMass + m2.molarMass by {
      WellFormedMass(m1);
      WellFormedMass(m2);
      MergeWeightedSum(m1.elements, m2.elements);
    }
    MergeIsDict(m1.elements, m2.elements);
    BuiltIsWellFormed(c);
  }

  /** A well-formed molecule's molar mass is the weighted sum of its elements. */
  lemma WellFormedMass(m: Molecule)
    requires WellFormed(m)
    ensures m.molarMass == WeightedSum(m.elements)
  {
  }

  /** Whatever `MoleculeOf` builds from a dict is well-formed. */
  lemma BuiltIsWellFormed(c: Composition)
    requires IsDict(c)
    ensures MoleculeOf(c).Success? ==> WellFormed(MoleculeOf(c).value)
  {
  }

  // ---------------------------------------------------------------------------
  // Element + Element
  // ---------------------------------------------------------------------------

  /** The dict literal `{a: 1, b: 1}`: two insertions in order; a repeated key keeps `a`. */
  function PairComposition(a: Element, b: Element): Composition
  {
    DictSet(DictSet([], a, 1), b, 1)
  }

  /** `a + b` with different keys gives `{a: 1, b: 1}`; with the same key, `{a: 1}`. */
  lemma PairShape(a: Element, b: Element)
    ensures Hash(a) != Hash(b) ==> PairComposition(a, b) == [(a, 1), (b, 1)]
    ensures Hash(a) == Hash(b) ==> PairComposition(a, b) == [(a, 1)]
  {
    assert DictSet([], a, 1) == [(a, 1)];
  }

  /** `a + b` (Element.__add__): the molecule built from `{a: 1, b: 1}`. */
  method ElementAdd(a: Element, b: Element) returns (r: Result<Molecule>)
    ensures r == MoleculeOf(PairComposition(a, b))
    ensures Hash(a) != Hash(b) && r.Success? ==>
              r.value.elements == [(a, 1), (b, 1)] && r.value.molarMass == a.mass + b.mass
    ensures Hash(a) == Hash(b) && r.Success? ==>
              r.value.elements == [(a, 1)] && r.value.molarMass == a.mass
  {
    PairShape(a, b);
    var literal := PairComposition(a, b);
    r := NewMolecule(literal);
    var single: Composition := [(a, 1)];
    assert WeightedSum(single) == a.mass by {
      assert single[..0] == [];
    }
    if Hash(a) != Hash(b) {
      assert [(a, 1), (b, 1)][..1] == [(a, 1)];
    }
  }

  /** Water: two hydrogens and one oxygen weigh 18.015, with fractions in insertion order. */
  lemma WaterScenario()
    ensures var h := Element(1, "Hydrogen", "H", 1.008);
            var o := Element(8, "Oxygen", "O", 15.999);
            MoleculeOf([(h, 2), (o, 1)]) ==
              Success(Molecule([(h, 2), (o, 1)], 18.015, [2.016 / 18.015, 15.999 / 18.015]))
  {
    var h := Element(1, "Hydrogen", "H", 1.008);
    var o := Element(8, "Oxygen", "O", 15.999);
    var c: Composition := [(h, 2), (o, 1)];
    assert c[..1] == [(h, 2)];
    assert |c[..1][..0]| == 0;
    assert WeightedSum(c[..1]) == 2.016;
    assert WeightedSum(c) == 18.015;
    assert Fractions(c, 18.015) == [2.016 / 18.015, 15.999 / 18.015];
  }
}
