/**
 * `Component` and `TransformComponent<Type>` (Architecture.cpp).
 */
module ComponentModel {
  import opened ComponentType

  /** A component: its kind and the key derived from it are fixed when it is
      constructed. The kind-specific payload and the back-reference to the
      hosting object carry no logic and are not part of this model. */
  class Component {
    const kind: ComponentKind
    /** `m_hash`, computed in the constructor from the kind. */
    const hash: Hash := KeyOf(kind)

    /** `Component(type, parent)`, and through it `TransformComponent<Type>(base)`. */
    constructor (kind: ComponentKind)
      ensures this.kind == kind && hash == KeyOf(kind)
    {
      this.kind := kind;
    }

    /** `Component::GetHash`: the key depends on the kind alone. That no other
        kind has this key holds trivially while there is a single kind. */
    function GetHash(): (h: Hash)
      ensures h == KeyOf(kind)
      ensures forall other: ComponentKind :: KeyOf(other) == h ==> other == kind
    {
      forall other: ComponentKind ensures KeyOf(other) == hash ==> other == kind {
        KeyOfInjective(other, kind);
      }
      hash
    }
  }

  /** The static `TransformComponent<Type>::GetHash`, computed from the template
      argument without any instance: it is the key every instance of kind
      `Type` carries. */
  function TransformComponentHash(Type: ComponentKind): (h: Hash)
    ensures h == KeyOf(Type)
  {
    StdHash(ToUInt32(Type))
  }

  /** An instance built for kind `Type` reports the same key as the static
      function of `TransformComponent<Type>`, so a component attached through
      its instance key is found again through the static key. */
  lemma InstanceHashMatchesStatic(c: Component)
    ensures c.GetHash() == TransformComponentHash(c.kind)
  {
  }

  /** The converse: the static key of `Type` is the instance key of no
      component of any other kind (trivially so while there is a single kind). */
  lemma StaticHashSelectsKind(c: Component, Type: ComponentKind)
    ensures c.GetHash() == TransformComponentHash(Type) <==> c.kind == Type
  {
    KeyOfInjective(c.kind, Type);
  }
}
