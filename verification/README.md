# projector: directory-scoped key/value store, modelled in Dafny

`src/projector.rs` keeps a store that maps a directory to its own flat
string → string scope. Every query is answered for the working directory
(`pwd`) by walking its ancestor chain up to the root. A key defined on a nearer
directory wins over the same key on a farther ancestor. `set_value` and
`remove_value` change only the scope of `pwd` itself.

The model is functional:

- `options.dfy` (`Options`): the `Option` type, `Get` (which reads a map entry as an `Option`),
  and a lemma that two maps agreeing through `Get` on every key are equal.
- `paths.dfy` (`Paths`): a path is its list of components, and the root `/` is `[]`.
  `Parent` drops the last component. `Ancestors` is the chain `pwd`, parent, …, root.
  `WalkAncestors` is the `while let Some(p) = curr` loop that builds that chain.
- `projectors.dfy` (`Projectors`): `Data` and `Projector` (the configuration is
  reduced to `pwd`). `FirstDefined` is the reference closest-scope-wins lookup
  along a chain. `MergeRootInward` is the reference root-inward merge. `Resolve`
  and `EffectiveView` apply both to the chain of `pwd`. The methods `GetValue` and
  `GetAllValue` follow the source loops. `SetValue` and `RemoveValue` are pure
  functions from one `Projector` to the next. `FromConfig` builds a `Projector`
  from `pwd`, the state of the backing file and a parser.
- `properties.dfy` (`ProjectorProperties`): lemmas about the model:
  - the merged view agrees with per-key lookup;
  - lookups read only the ancestor chain;
  - the effects of set and remove;
  - the module's three unit tests, replayed on their fixture.

## Model

| member | source | states |
|---|---|---|
| Paths.Parent | src/projector.rs:28 | only the root has no parent; a parent is a proper prefix one component shorter |
| Paths.Ancestors | src/projector.rs:24-29 | the chain is non-empty, starts at `pwd`, each element's parent is the next one, it ends at the root, it has one more element than `pwd` has components, and element `i` is `pwd` with `i` components dropped |
| Paths.AncestorChainUnique | src/projector.rs:24-29 | any sequence with the ancestor-chain properties is exactly `Ancestors(p)`, so the walk has a single possible outcome |
| Paths.WalkAncestors | src/projector.rs:24-29 | the loop terminates, every step moves to a strictly shorter parent, and it collects exactly the ancestor chain of `pwd` |
| Projectors.DefaultData | src/projector.rs:16-20 | the default store holds no scope at all |
| Projectors.FirstDefined | src/projector.rs:44-52 | the result is `None` exactly when no scope on the chain defines the key; otherwise it is the value held by the nearest scope that defines it |
| Projectors.GetValue | src/projector.rs:41-55 | the walk with early `break` returns the closest-scope-wins value, and `None` exactly when no directory on the chain of `pwd` defines the key |
| Projectors.GetAllValue | src/projector.rs:23-39 | the root-inward `extend` loop produces the effective view, and for every key it holds what `get_value` returns from `pwd`, absent keys included |
| Projectors.SetValue | src/projector.rs:57-62 | the `pwd` scope exists afterwards and maps the key to the value; its other keys and all other scopes are unchanged; no other scope is created |
| Projectors.RemoveValue | src/projector.rs:64-70 | the key is gone from the `pwd` scope; no scope is created or deleted, even one left empty; other keys and scopes are unchanged; with no `pwd` scope the store is unchanged |
| Projectors.FromConfig | src/projector.rs:72-91 | a failed metadata query or a file the parser rejects yields the empty store; otherwise the store is what the parser produced |
| Projectors.MergeAgreesWithFirstDefined | src/projector.rs:23-55 | for every chain and key, the root-inward merge holds the key iff the closest-scope-wins lookup finds it, and with the same value |
| ProjectorProperties.EffectiveViewAgreesWithResolve | src/projector.rs:23-55 | `get_all_value` and `get_value` agree key by key from every working directory |
| ProjectorProperties.EffectiveViewKeys | src/projector.rs:31-36 | the merged view's key set is exactly the union of the key sets of the scopes on the ancestor chain of `pwd` |
| ProjectorProperties.FirstDefinedReadsOnlyChain | src/projector.rs:44-52 | two stores that agree on a key in every scope of a chain resolve that key identically along it |
| ProjectorProperties.ResolveIgnoresOffChainScopes | src/projector.rs:23-55 | changing scopes off the ancestor chain of `pwd` changes neither any single lookup nor the merged view |
| ProjectorProperties.SetThenResolve | src/projector.rs:57-62 | after `set_value(k, v)`, `k` resolves to `v` from `pwd`, and the merged view maps `k` to `v`, whatever the ancestors define |
| ProjectorProperties.SetKeepsOtherKeys | src/projector.rs:57-62 | `set_value(k, v)` does not change what any other key resolves to |
| ProjectorProperties.SetIdempotent | src/projector.rs:57-62 | setting the same key to the same value twice gives the same store as setting it once |
| ProjectorProperties.SetOverwrites | src/projector.rs:57-62 | two sets of one key equal the last set alone, and the key resolves to the last value |
| ProjectorProperties.RemoveFallsBackToParent | src/projector.rs:64-70 | after `remove_value(k)`, `k` resolves from `pwd` as it resolves from the parent of `pwd` (to nothing at the root) |
| ProjectorProperties.RemoveKeepsOtherKeys | src/projector.rs:64-70 | `remove_value(k)` does not change what any other key resolves to |
| ProjectorProperties.RemoveIdempotent | src/projector.rs:64-70 | removing a key twice is the same as removing it once |
| ProjectorProperties.SetThenRemoveKeepsEmptyScope | src/projector.rs:57-70 | set then remove on a directory without a scope leaves an empty scope in place, and lookups of the key are as before the set |
| ProjectorProperties.DefaultDataResolvesNothing | src/projector.rs:16-20 | in the default store, no key resolves from any directory and the merged view is empty |
| ProjectorProperties.FixtureGetValue | src/projector.rs:131-138 | in the test fixture, from `/foo/bar`, `foo` resolves to `bar3` and `fem` resolves to `is_great`. |
| ProjectorProperties.FixtureSetValue | src/projector.rs:140-149 | in the test fixture, after setting `foo` to `baz` and `fem` to `is_super_great` on `/foo/bar`, `foo` resolves to `baz` and `fem` to `is_super_great` from there. |
| ProjectorProperties.FixtureRemoveValue | src/projector.rs:151-160 | in the test fixture, after removing `foo` and `fem` on `/foo/bar`, `foo` resolves to `bar2` and `fem` to `is_great` from there. |

Two behaviours of the code worth stating:

- `remove_value` clears the key only from the scope of `pwd`. `get_value` then
  falls back to the nearest ancestor that defines the key
  (`RemoveFallsBackToParent`).
- For a file that exists but cannot be read, `from_config` hands the malformed
  text `{"projector":{}` to the parser (src/projector.rs:75-79). `FromConfig`
  keeps that text.

## Left out

- Filesystem paths are reduced to their lists of components. This leaves out
  relative paths, `..`, prefixes and normalisation.
- The configuration is reduced to `pwd`. The backing-file path and the selected
  operation belong to the command-line layer.
- FromConfig: the filesystem checks, the file read and the JSON deserializer are
  not modelled. The file's state is a parameter and the deserializer is a
  function parameter. For an unreadable file the contract only says the result
  is the empty store or whatever the parser makes of the fallback text.
- Saving the store and serializing it to JSON are not part of this model.
  `src/bin/projector.rs` is command-line glue (argument parsing, printing, `save`)
  and is left out. It also calls `from_config` with two arguments and a `save`
  method, and neither matches `src/projector.rs`.
- `HashMap` iteration order, and results that are references rather than
  values, are not modelled. Results are Dafny values and maps.
