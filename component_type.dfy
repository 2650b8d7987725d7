/**
 * The component kind enumeration and the derivation of a storage key from a
 * kind (Architecture.cpp, `component_type_e` and the `std::hash` calls).
 */
module ComponentType {

  /** `component_type_e`: the closed set of component kinds. */
  datatype ComponentKind = Transform

  /** `size_t`: the key type of the registry. */
  type Hash = nat

  /** `uint32_t`. */
  newtype UInt32 = x: int | 0 <= x < 0x1_0000_0000

  /** The numeric value each enumerator is declared with. */
  function EnumValue(kind: ComponentKind): int
  {
    match kind
    case Transform => 0x0A
  }

  /** `static_cast<uint32_t>(type)`: the conversion reduces the value modulo
      2^32. Every enumerator value fits, so the cast keeps the value and does
      not truncate. */
  function ToUInt32(kind: ComponentKind): (v: UInt32)
    ensures v as int == EnumValue(kind)
  {
    (EnumValue(kind) % 0x1_0000_0000) as UInt32
  }

  /** `std::hash<uint32_t>`. The standard library does not fix its value; the
      model uses the identity (the choice of the common implementations). */
  function StdHash(v: UInt32): Hash
  {
    v as int
  }

  /** The key of a kind: hash of the enumerator's 32-bit value, as computed
      by `Component`'s constructor. With the identity hash and a cast that
      does not truncate, it is the enumerator's declared value. */
  function KeyOf(kind: ComponentKind): (h: Hash)
    ensures h == EnumValue(kind)
  {
    StdHash(ToUInt32(kind))
  }

  lemma StdHashInjective(a: UInt32, b: UInt32)
    ensures StdHash(a) == StdHash(b) <==> a == b
  {
  }

  /** Distinct kinds get distinct keys. The enumeration has a single
      enumerator, so this holds trivially here; it carries weight only once a
      second kind is declared, when it needs distinct enumerator values and an
      injective hash. */
  lemma KeyOfInjective(a: ComponentKind, b: ComponentKind)
    ensures KeyOf(a) == KeyOf(b) <==> a == b
  {
    StdHashInjective(ToUInt32(a), ToUInt32(b));
  }
}
