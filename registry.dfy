/**
 * The behaviour of the `Components` store (Architecture.cpp) as functions on
 * the value of its `m_components` map, and what follows from them over any
 * sequence of calls.
 */
module Registry {
  import opened ComponentType
  import opened ComponentModel

  /** The contents of `m_components`: key to owned component. */
  type Store = map<Hash, Component>

  /** The store invariant: every component is filed under its own key, which
      means at most one component per kind (`AtMostOnePerKind`). */
  ghost predicate Keyed(m: Store)
  {
    forall h :: h in m ==> m[h].hash == h
  }

  /** The outcome of a mutating call: what it returned and the new contents. */
  datatype Outcome = Outcome(ok: bool, store: Store)

  /** `operator[]`: the component under `h`, or null when there is none. */
  function Lookup(m: Store, h: Hash): (c: Component?)
    ensures c != null ==> c in m.Values
    ensures Keyed(m) && c != null ==> c.hash == h
  {
    if h in m then m[h] else null
  }

  /** `TryAddComponent` (emplace): refuses null and an occupied key, and
      otherwise files the component under its own key. */
  function Add(m: Store, c: Component?): (r: Outcome)
    ensures r.ok <==> c != null && Lookup(m, c.hash) == null
    ensures !r.ok ==> r.store == m
    ensures r.ok ==> Lookup(r.store, c.hash) == c && r.store.Keys == m.Keys + {c.hash}
    ensures forall h :: (c == null || h != c.hash) ==> Lookup(r.store, h) == Lookup(m, h)
    ensures Keyed(m) ==> Keyed(r.store)
  {
    if c == null then Outcome(false, m)
    else if c.hash in m then Outcome(false, m)
    else Outcome(true, m[c.hash := c])
  }

  /** `TryDeleteComponent` (erase): reports whether the key was present and
      leaves it absent. */
  function Delete(m: Store, h: Hash): (r: Outcome)
    ensures r.ok <==> Lookup(m, h) != null
    ensures Lookup(r.store, h) == null && r.store.Keys == m.Keys - {h}
    ensures forall h' :: h' != h ==> Lookup(r.store, h') == Lookup(m, h')
    ensures Keyed(m) ==> Keyed(r.store)
  {
    Outcome(h in m, m - {h})
  }

  /** A store that satisfies the invariant holds at most one component of
      each kind. */
  lemma AtMostOnePerKind(m: Store, h1: Hash, h2: Hash)
    requires Keyed(m) && h1 in m && h2 in m
    ensures m[h1].kind == m[h2].kind ==> h1 == h2
  {
    KeyOfInjective(m[h1].kind, m[h2].kind);
  }

  /** What is found under the static key of `Type` is a component of kind
      `Type` (trivially so while there is a single kind). This is about the
      kind only: the model does not tell a plain `Component` from a
      `TransformComponent<Type>`. */
  lemma LookupByKindHasKind(m: Store, kind: ComponentKind)
    requires Keyed(m)
    ensures Lookup(m, TransformComponentHash(kind)) != null ==>
              Lookup(m, TransformComponentHash(kind)).kind == kind
  {
    var c := Lookup(m, TransformComponentHash(kind));
    if c != null {
      StaticHashSelectsKind(c, kind);
    }
  }

  /** Adding a second component of a kind that is present fails and keeps the
      first one. */
  lemma SecondAddKeepsFirst(m: Store, c: Component, c': Component)
    requires Add(m, c).ok && c'.kind == c.kind
    ensures !Add(Add(m, c).store, c').ok
    ensures Lookup(Add(Add(m, c).store, c').store, c.hash) == c
  {
  }

  /** A second consecutive delete of the same key returns false. */
  lemma SecondDeleteFails(m: Store, h: Hash)
    ensures !Delete(Delete(m, h).store, h).ok
  {
  }

  /** The calls that change a `Components` store. */
  datatype Call = TryAdd(component: Component?) | TryDelete(key: Hash) | RemoveAll

  function Step(m: Store, call: Call): Outcome
  {
    match call
    case TryAdd(c) => Add(m, c)
    case TryDelete(h) => Delete(m, h)
    case RemoveAll => Outcome(true, map[])
  }

  /** The contents after a sequence of calls; every call keeps the invariant. */
  function Run(m: Store, calls: seq<Call>): (s: Store)
    ensures Keyed(m) ==> Keyed(s)
    decreases |calls|
  {
    if calls == [] then m else Run(Step(m, calls[0]).store, calls[1..])
  }

  function Present(m: Store, h: Hash): nat
  {
    if h in m then 1 else 0
  }

  /** How many calls of the sequence attached a component under `h`. */
  function Attached(m: Store, calls: seq<Call>, h: Hash): nat
    decreases |calls|
  {
    if calls == [] then 0
    else
      var r := Step(m, calls[0]);
      (if calls[0].TryAdd? && r.ok && calls[0].component.hash == h then 1 else 0)
      + Attached(r.store, calls[1..], h)
  }

  /** How many calls of the sequence destroyed the component under `h`: a
      delete of `h` that returned true, or a clear while `h` was present. */
  function Released(m: Store, calls: seq<Call>, h: Hash): nat
    decreases |calls|
  {
    if calls == [] then 0
    else
      var r := Step(m, calls[0]);
      (if (calls[0].TryDelete? && r.ok && calls[0].key == h) || (calls[0].RemoveAll? && h in m) then 1 else 0)
      + Released(r.store, calls[1..], h)
  }

  /** Ownership is balanced: every component that was attached under `h` is
      either still present at the end or was destroyed exactly once. */
  lemma {:induction false} AttachReleaseBalance(m: Store, calls: seq<Call>, h: Hash)
    ensures Present(m, h) + Attached(m, calls, h) == Released(m, calls, h) + Present(Run(m, calls), h)
    decreases |calls|
  {
    if calls != [] {
      AttachReleaseBalance(Step(m, calls[0]).store, calls[1..], h);
    }
  }

  /** From an empty store, a key is released no more often than something was
      attached under it: a delete returns true at most once per successful add. */
  lemma ReleasesNeverOutnumberAttaches(calls: seq<Call>, h: Hash)
    ensures Released(map[], calls, h) <= Attached(map[], calls, h)
  {
    AttachReleaseBalance(map[], calls, h);
  }

  /** Once a component is filed under `h` it stays there, whatever is added,
      until a delete of `h` or a clear; in particular no later add replaces it. */
  lemma {:induction false} PresentUntilRemoved(m: Store, calls: seq<Call>, h: Hash)
    requires h in m
    requires forall i :: 0 <= i < |calls| ==> !calls[i].RemoveAll? && !(calls[i].TryDelete? && calls[i].key == h)
    ensures Lookup(Run(m, calls), h) == m[h]
    decreases |calls|
  {
    if calls != [] {
      PresentUntilRemoved(Step(m, calls[0]).store, calls[1..], h);
    }
  }
}
