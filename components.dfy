/**
 * The `Components` class (Architecture.cpp): the per-object store that owns
 * at most one component per kind.
 */
module ComponentStore {
  import opened ComponentType
  import opened ComponentModel
  import opened Registry

  class Components {
    /** `m_components`. */
    var entries: Store

    ghost predicate Valid()
      reads this
    {
      Keyed(entries)
    }

    constructor ()
      ensures Valid() && entries == map[]
    {
      entries := map[];
    }

    /** Inserts `component` under its own key unless it is null or the key is
        taken; the existing entry is never overwritten. */
    method TryAddComponent(component: Component?) returns (added: bool)
      requires Valid()
      modifies this
      ensures Valid()
      ensures added == Add(old(entries), component).ok
      ensures entries == Add(old(entries), component).store
    {
      if component == null {
        return false;
      }
      var hash := component.GetHash();
      if hash in entries {
        added := false;
      } else {
        entries := entries[hash := component];
        added := true;
      }
    }

    /** Erases the entry under `hash`, if any, and reports whether there was one. */
    method TryDeleteComponent(hash: Hash) returns (deleted: bool)
      requires Valid()
      modifies this
      ensures Valid()
      ensures deleted == Delete(old(entries), hash).ok
      ensures entries == Delete(old(entries), hash).store
    {
      deleted := hash in entries;
      entries := entries - {hash};
    }

    /** Destroys every owned component. */
    method RemoveAllComponents()
      requires Valid()
      modifies this
      ensures Valid() && entries == map[]
    {
      entries := map[];
    }

    /** `operator[]`: the component filed under `hash`, or null. It reads the
        store and changes nothing. */
    function Get(hash: Hash): (c: Component?)
      reads this
      ensures c == Lookup(entries, hash)
      ensures Valid() && c != null ==> c.hash == hash
    {
      Lookup(entries, hash)
    }
  }
}
