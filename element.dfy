/** The periodic-table entry of element.py: an immutable value. */
module Elements {
  import opened Outcomes

  /**
   * An element: atomic number, name, symbol and atomic mass. The datatype
   * constructor is `Element.__init__`: it stores the four fields unchanged.
   */
  datatype Element = Element(number: int, name: string, symbol: string, mass: real)

  /** The right-hand operand of `==`: an Element, or a value of some other Python type. */
  datatype Operand = ElementArg(element: Element) | NonElement(typeName: string)

  /**
   * `self == other`: compares atomic numbers only; with a non-Element it
   * returns (does not raise) a TypeError object.
   */
  function Equals(self: Element, other: Operand): (r: Returned<bool>)
    ensures r.TypeErrorObject? <==> other.NonElement?
    ensures other.NonElement? ==> r.message == "Object of type " + other.typeName + " is not an Element"
    ensures other.ElementArg? ==> (r == Value(true) <==> self.number == other.element.number)
    ensures other.ElementArg? ==> (r == Value(false) <==> self.number != other.element.number)
  {
    match other
    case NonElement(t) => TypeErrorObject("Object of type " + t + " is not an Element")
    case ElementArg(e) => Value(self.number == e.number)
  }

  /**
   * The value a Python dict hashes an element by: `hash((number, symbol))`.
   * The tuple itself stands for its hash; collisions between different tuples
   * are not modelled.
   */
  type Key = (int, string)

  function Hash(e: Element): Key
  {
    (e.number, e.symbol)
  }

  /** `str(e)`. */
  function Str(e: Element): string
  {
    e.symbol
  }

  /** `repr(e)`. */
  function ReprString(e: Element): string
  {
    e.symbol
  }

  /** Both string forms render the symbol alone and nothing else. */
  lemma StringFormsAreSymbol(number: int, name: string, symbol: string, mass: real)
    ensures Str(Element(number, name, symbol, mass)) == symbol
    ensures ReprString(Element(number, name, symbol, mass)) == symbol
  {
  }

  /** Equality on elements is an equivalence relation. */
  lemma EqualsIsEquivalence(a: Element, b: Element, c: Element)
    ensures Equals(a, ElementArg(a)) == Value(true)
    ensures Equals(a, ElementArg(b)) == Equals(b, ElementArg(a))
    ensures Equals(a, ElementArg(b)) == Value(true) && Equals(b, ElementArg(c)) == Value(true)
            ==> Equals(a, ElementArg(c)) == Value(true)
  {
  }

  /** Equality ignores name, symbol and mass. */
  lemma EqualsIgnoresAttributes(a: Element, b: Element, name: string, symbol: string, mass: real)
    ensures Equals(a, ElementArg(Element(b.number, name, symbol, mass))) == Equals(a, ElementArg(b))
  {
  }

  /**
   * The hash ignores name and mass, and elements with equal hashes are equal,
   * so a dict treats two elements as one key exactly when their hashes agree.
   */
  lemma HashConsistentWithEquals(a: Element, b: Element)
    ensures Hash(a) == Hash(b) ==> Equals(a, ElementArg(b)) == Value(true)
    ensures Equals(a, ElementArg(b)) == Value(true) && a.symbol == b.symbol ==> Hash(a) == Hash(b)
    ensures Hash(a) == Hash(Element(a.number, b.name, a.symbol, b.mass))
  {
  }

  /**
   * Equal elements need not hash alike: with the same atomic number and a
   * different symbol, `==` holds while the hashes differ.
   */
  lemma EqualElementsMayHashApart()
    ensures var h := Element(1, "Hydrogen", "H", 1.008);
            var d := Element(1, "Deuterium", "D", 2.014);
            Equals(h, ElementArg(d)) == Value(true) && Hash(h) != Hash(d)
  {
  }
}
