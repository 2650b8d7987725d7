/**
 * `GameObjectBase` (Architecture.cpp): an object that hosts components through
 * the `Components` store it owns, and the usage sequence of `main`.
 */
module GameObjects {
  import opened ComponentType
  import opened ComponentModel
  import opened Registry
  import opened ComponentStore

  class GameObjectBase {
    /** `m_components`, owned by value. */
    const components: Components

    ghost predicate Valid()
      reads this, components
    {
      components.Valid()
    }

    constructor ()
      ensures Valid() && fresh(components) && components.entries == map[]
    {
      components := new Components();
    }

    /** Attaches `component`; returns what the store returns. */
    method TryAddComponent(component: Component?) returns (added: bool)
      requires Valid()
      modifies components
      ensures Valid()
      ensures added == Add(old(components.entries), component).ok
      ensures components.entries == Add(old(components.entries), component).store
    {
      added := components.TryAddComponent(component);
    }

    /** The component attached under `hash`, or null; changes nothing. */
    function TryGetComponent(hash: Hash): (c: Component?)
      reads this, components
      ensures c == Lookup(components.entries, hash)
      ensures Valid() && c != null ==> c.hash == hash
    {
      components.Get(hash)
    }

    /** Detaches the component under `hash`; returns what the store returns. */
    method TryDeleteComponent(hash: Hash) returns (deleted: bool)
      requires Valid()
      modifies components
      ensures Valid()
      ensures deleted == Delete(old(components.entries), hash).ok
      ensures components.entries == Delete(old(components.entries), hash).store
    {
      deleted := components.TryDeleteComponent(hash);
    }

    /** Releases every component; the object itself stays usable. */
    method Destroy()
      requires Valid()
      modifies components
      ensures Valid() && components.entries == map[]
    {
      components.RemoveAllComponents();
    }
  }

  /** The sequence `main` runs on a fresh object: attach a transform, find it
      again through the static key, detach it, destroy the object. A repeated
      detach, a lookup after `Destroy` and a new attach after `Destroy` are
      added to show what the object does next. */
  method PlayerScenario() returns (transform: Component, added: bool, found: Component?,
                                   deleted: bool, deletedAgain: bool,
                                   foundAfterDestroy: Component?, addedAfterDestroy: bool)
    ensures transform.kind == Transform
    ensures added && found == transform
    ensures deleted && !deletedAgain
    ensures foundAfterDestroy == null && addedAfterDestroy
  {
    var player := new GameObjectBase();
    transform := new Component(Transform);
    added := player.TryAddComponent(transform);
    found := player.TryGetComponent(TransformComponentHash(Transform));
    deleted := player.TryDeleteComponent(TransformComponentHash(Transform));
    deletedAgain := player.TryDeleteComponent(TransformComponentHash(Transform));
    player.Destroy();
    foundAfterDestroy := player.TryGetComponent(TransformComponentHash(Transform));
    var another := new Component(Transform);
    addedAfterDestroy := player.TryAddComponent(another);
  }
}
