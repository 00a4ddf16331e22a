/** `CodeLocation` of the Plugin assembly: a file range with a text, as
    sent for secondary locations. Equality compares all six fields; the
    hash code combines five of them (not `EndColumn`) in unchecked 32-bit
    arithmetic, `(h * 397) ^ x`. String hash codes come from the runtime
    and are a parameter; a null string hashes to 0. */
module CodeLocations {
  import opened Wrappers

  datatype CodeLocation = CodeLocation(
    fileName: Option<string>,
    line: int,
    column: int,
    endLine: int,
    endColumn: int,
    text: Option<string>)

  /** The typed `Equals(CodeLocation other)`. */
  predicate Equals(a: CodeLocation, b: CodeLocation) {
    && a.fileName == b.fileName
    && a.line == b.line
    && a.column == b.column
    && a.endLine == b.endLine
    && a.endColumn == b.endColumn
    && a.text == b.text
  }

  /** Location equality is value equality of the whole record, hence an
      equivalence relation. */
  lemma EqualsIsValueEquality(a: CodeLocation, b: CodeLocation)
    ensures Equals(a, b) <==> a == b
  {
  }

  /** What `Equals(object)` can be handed: null, a `CodeLocation` at some
      reference, or an object of another type. */
  datatype Object = Null | LocationObject(reference: nat, location: CodeLocation) | OtherObject(reference: nat)

  /** `Equals(object obj)` on the location `self` stored at `selfReference`.
      A reference designates one object: the object at `selfReference` is
      `self` itself. */
  function ObjectEquals(selfReference: nat, self: CodeLocation, obj: Object): (r: bool)
    requires obj.LocationObject? && obj.reference == selfReference ==> obj.location == self
    requires obj.OtherObject? ==> obj.reference != selfReference
    ensures r <==> obj.LocationObject? && obj.location == self
  {
    if obj.Null? then false
    else if obj.reference == selfReference then true
    else if !obj.LocationObject? then false
    else Equals(self, obj.location)
  }

  const TwoTo32: int := 0x1_0000_0000
  const TwoTo31: int := 0x8000_0000

  /** An `int` reinterpreted as its 32-bit pattern (two's complement). */
  function ToBits(x: int): bv32 {
    (x % TwoTo32) as bv32
  }

  /** A 32-bit pattern read back as a signed `int`. */
  function ToSigned(b: bv32): (x: int)
    ensures -TwoTo31 <= x < TwoTo31
  {
    if (b as int) < TwoTo31 then b as int else b as int - TwoTo32
  }

  function StringHash(s: Option<string>, stringHash: string -> bv32): bv32 {
    match s
    case None => 0
    case Some(t) => stringHash(t)
  }

  function Combine(h: bv32, x: bv32): bv32 {
    (h * 397) ^ x
  }

  /** `GetHashCode()`. */
  function GetHashCode(loc: CodeLocation, stringHash: string -> bv32): (h: int)
    ensures -TwoTo31 <= h < TwoTo31
  {
    var h0 := StringHash(loc.fileName, stringHash);
    var h1 := Combine(h0, ToBits(loc.line));
    var h2 := Combine(h1, ToBits(loc.column));
    var h3 := Combine(h2, ToBits(loc.endLine));
    var h4 := Combine(h3, StringHash(loc.text, stringHash));
    ToSigned(h4)
  }

  /** The hash is consistent with equality: equal locations have equal hash
      codes, whatever the string hash. */
  lemma EqualsImpliesSameHash(a: CodeLocation, b: CodeLocation, stringHash: string -> bv32)
    requires Equals(a, b)
    ensures GetHashCode(a, stringHash) == GetHashCode(b, stringHash)
  {
  }

  /** `EndColumn` plays no part in the hash: locations that differ only
      there collide although they are not equal. */
  lemma HashIgnoresEndColumn(a: CodeLocation, endColumn: int, stringHash: string -> bv32)
    requires endColumn != a.endColumn
    ensures GetHashCode(a.(endColumn := endColumn), stringHash) == GetHashCode(a, stringHash)
    ensures !Equals(a.(endColumn := endColumn), a)
  {
  }

  /** The multiplier at work: with null strings, line 1 and zero columns,
      the hash is 397 cubed; any end column gives the same value. */
  lemma HashExample(endColumn: int, stringHash: string -> bv32)
    ensures GetHashCode(CodeLocation(None, 1, 0, 0, endColumn, None), stringHash) == 62570773
  {
    var loc := CodeLocation(None, 1, 0, 0, endColumn, None);
    assert ToBits(1) == 1 && ToBits(0) == 0;
    assert Combine(0, 1) == 1;
    assert Combine(1, 0) == 397;
    assert Combine(397, 0) == 157609;
    assert Combine(157609, 0) == 62570773;
  }
}
