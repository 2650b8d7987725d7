# Component registry of Simple-Architecture, in Dafny

The repository's one piece of logic is the per-object component registry in
`Architecture.cpp`. A game object owns a `Components` store. The store maps a
per-kind key to exactly one owned component. It can attach a component if
its key is free, look a component up by key (null when absent), delete one by
key, and clear everything. `GameObjectBase` forwards attach, get, detach and
destroy to its store. A component's key is the hash of its kind's 32-bit
enumerator value. It is computed once by the `Component` constructor and again,
statically, by `TransformComponent<Type>::GetHash`.

Files and modules:

- `component_type.dfy` — module `ComponentType`: the kind enumeration, the
  `uint32_t` cast, `std::hash` and the derived key `KeyOf`. The enumeration
  has one enumerator, so the lemmas that distinct kinds get distinct keys hold
  trivially; they carry weight only once a second kind is declared.
- `component.dfy` — module `ComponentModel`: class `Component`, whose key is a
  `const` field fixed from the kind, and the static transform key.
- `registry.dfy` — module `Registry`: the store's behaviour as functions on
  the value of `m_components` (`Lookup`, `Add`, `Delete`), the store invariant
  `Keyed`, and lemmas over single calls and over any sequence of calls.
- `components.dfy` — module `ComponentStore`: class `Components`. Its map
  field is updated in place by methods whose contracts tie the new map to
  `Registry`.
- `game_object.dfy` — module `GameObjects`: class `GameObjectBase`, which
  owns a `Components` object. It also holds `PlayerScenario`, the call
  sequence of `main`, as it runs with assertions enabled.

Components are Dafny objects, so "the component found is the one attached"
is reference identity, as with the source's `shared_ptr`. A null
`shared_ptr` is the nullable type `Component?`.

## Model

| member | source | states |
|---|---|---|
| `ComponentType.ToUInt32` | Architecture.cpp:7-9 | the enumerator value fits in 32 bits, so `static_cast<uint32_t>` keeps it unchanged |
| `ComponentType.KeyOfInjective` | Architecture.cpp:7-9 | two kinds get the same key if and only if they are the same kind (trivial with one enumerator) |
| `ComponentType.KeyOf` | Architecture.cpp:44 | the key of a kind, the hash of its 32-bit value, is the enumerator's declared value (10 for `Transform`) |
| `ComponentType.StdHashInjective` | Architecture.cpp:44 | the modelled `std::hash<uint32_t>` gives equal hashes exactly for equal values |
| `ComponentModel.Component.constructor` | Architecture.cpp:43-44 | a new component has the given kind and the key of that kind (`TransformComponent(base)` at lines 65-66 calls it with kind `Type`) |
| `ComponentModel.TransformComponentHash` | Architecture.cpp:68-70 | the static key of `Type` is the key `KeyOf(Type)` that every instance of kind `Type` carries |
| `ComponentModel.Component.GetHash` | Architecture.cpp:48-50 | an instance's key is the key of its kind, and no other kind has that key (trivial with one enumerator) |
| `ComponentModel.InstanceHashMatchesStatic` | Architecture.cpp:68-70 | the instance key of a component of kind `Type` equals the static `TransformComponent<Type>::GetHash()` |
| `ComponentModel.StaticHashSelectsKind` | Architecture.cpp:66-70 | a component's key equals the static key of `Type` if and only if the component is of kind `Type` (trivial with one enumerator) |
| `Registry.Lookup` | Architecture.cpp:103-106 | a non-null result is a component the store owns; in a store satisfying the invariant, it is filed under its own key |
| `Registry.Add` | Architecture.cpp:84-93 | succeeds iff the component is non-null and its key is absent; on failure the store is unchanged, so an existing entry is kept; on success its key now yields it; every other key's lookup is unchanged; the invariant is kept |
| `Registry.Delete` | Architecture.cpp:95-97 | returns true iff the key was present; afterwards the key is absent and every other key's lookup is unchanged; the invariant is kept |
| `Registry.AtMostOnePerKind` | Architecture.cpp:109 | a store satisfying the invariant holds at most one component of each kind |
| `Registry.LookupByKindHasKind` | Architecture.cpp:146 | what is found under the static key of `Type` is of kind `Type` (trivial with one enumerator) |
| `Registry.SecondAddKeepsFirst` | Architecture.cpp:90-92 | after a successful add, adding another component of the same kind fails and the first one stays in place |
| `Registry.SecondDeleteFails` | Architecture.cpp:95-97 | a second consecutive delete of the same key returns false |
| `Registry.Run` | Architecture.cpp:84-101 | every sequence of add, delete and clear calls keeps the store invariant |
| `Registry.AttachReleaseBalance` | Architecture.cpp:84-101 | over any sequence of calls, presence at the start plus successful attaches under a key equals destructions under that key plus presence at the end |
| `Registry.ReleasesNeverOutnumberAttaches` | Architecture.cpp:95-101 | from an empty store, a key's component is destroyed (by a delete that returns true or by a clear) no more often than one was attached under it |
| `Registry.PresentUntilRemoved` | Architecture.cpp:90-101 | a filed component stays under its key through any calls other than a delete of that key or a clear, so later adds never replace it |
| `ComponentStore.Components.constructor` | Architecture.cpp:109 | a new store is empty |
| `ComponentStore.Components.TryAddComponent` | Architecture.cpp:84-93 | returns and does what `Registry.Add` says to the map field, and keeps the invariant |
| `ComponentStore.Components.TryDeleteComponent` | Architecture.cpp:95-97 | returns and does what `Registry.Delete` says to the map field, and keeps the invariant |
| `ComponentStore.Components.RemoveAllComponents` | Architecture.cpp:99-101 | the store is empty afterwards, whatever it held, an already empty store included |
| `ComponentStore.Components.Get` | Architecture.cpp:103-106 | reads only; returns `Registry.Lookup` of the map, which is filed under the requested key when non-null |
| `GameObjects.GameObjectBase.constructor` | Architecture.cpp:131-132 | a new object owns a fresh, empty store |
| `GameObjects.GameObjectBase.TryAddComponent` | Architecture.cpp:114-117 | returns exactly what the store's add returns and has the same effect on it |
| `GameObjects.GameObjectBase.TryGetComponent` | Architecture.cpp:119-121 | reads only; returns the store's lookup |
| `GameObjects.GameObjectBase.TryDeleteComponent` | Architecture.cpp:123-125 | returns exactly what the store's delete returns and has the same effect on it |
| `GameObjects.GameObjectBase.Destroy` | Architecture.cpp:127-129 | the store is empty afterwards, and the object keeps a valid store for later use |
| `GameObjects.PlayerScenario` | Architecture.cpp:139-163 | with assertions enabled: attaching a transform succeeds; the lookup by the static key returns that same component; the first detach returns true and a repeated one false; after `Destroy` the lookup returns null and a new attach succeeds |

## Left out

- The payload of `TransformComponent` (position, rotation, scale) and the
  `Vector3f` and `Quaternion` types: plain floating-point data with no behaviour.
- `Component::GetParent` and `m_parent`: a non-owning back-reference with no logic attached.
- `GameObject`: an empty subclass of `GameObjectBase`, modelled by `GameObjectBase` itself.
- `shared_ptr` and `weak_ptr` reference counting: components are plain object
  references. So `expired()` and `lock()` in `main`, and the point at which a
  removed component is actually freed, are not modelled.
- `std::hash<uint32_t>`: the standard does not fix its value. `StdHash` is the
  identity, as common implementations use. Only `KeyOf`'s stated value depends
  on that choice.
- The debug `assert`s at Architecture.cpp:86 and 115 are not modelled. A release
  build lets a null component reach the store, which returns false; the model
  follows that.
- `GameObjects.PlayerScenario` assumes assertions are enabled. In a release build
  the attach at Architecture.cpp:144 is the argument of `assert` and is compiled
  out. `main` then attaches nothing, the lookup at line 146 returns null and the
  delete at line 154 returns false.
- `Registry.LookupByKindHasKind`: shows only that the component found has kind
  `Type`. The model does not tell a plain `Component` from a
  `TransformComponent<Type>`, so it does not show that the
  `static_pointer_cast` at Architecture.cpp:146 is sound. A plain `Component` of
  kind `Transform` can be attached under the same key.
- `size_t` is unbounded `nat`. The only key the enumeration produces is 10.
- The console output of `main`.
