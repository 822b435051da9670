# Lazily filled user pool

A model of the `Pool` and `User` classes of `src/lib/Test.svelte.ts`. A pool
owns a registry mapping integer ids to users and seeds it with user 1 (no
friend) and user 2 (friend 1). A user has a constant id, an optional friend id
and a constant back-reference to its pool. Its `friend` getter returns nothing
when the friend id is absent or 0, the registered user when the id is known,
and otherwise builds a friendless user with that id, registers it in the pool
and returns it: a read with a side effect on a shared table.

- `wrappers.dfy`: module `Wrappers`, the `Option` type used for the optional friend id.
- `friend_read.dfy`: module `FriendRead`, the getter as a function from the
  registry before a read to the returned friend and the registry after it
  (`Resolve`), a sequence of reads (`ResolveAll`), and the properties of both:
  which keys a read may add, that no entry is replaced, idempotence.
- `test.dfy`: module `Test`, the classes. `Pool.users` is a `map<int, User>`
  field the getter reassigns; `User.Friend` is a method that `modifies` the
  pool and is proved against `Resolve`; two client methods check the seeded
  and the lazy scenarios from the contracts alone.

JavaScript truthiness of `friendId` is modelled by `FriendRead.Truthy`: an
absent id and `Some(0)` are falsy, every other integer (negative ones
included) is truthy. `friendId` is a mutable field in the source (it is not
`readonly`), so it is a `var` here; `Friend` is proved to leave it unchanged.

## Model

| member | source | states |
|---|---|---|
| `Test.Pool.constructor` | src/lib/Test.svelte.ts:9-12 | the registry has exactly the keys 1 and 2; entry 1 is a new user with no friend id, entry 2 a distinct new user with friend id 1; every entry is stored under its own id and points back to this pool |
| `Test.User.constructor` | src/lib/Test.svelte.ts:20-23 | the new user keeps the given pool, id and friend id |
| `Test.User.Friend` | src/lib/Test.svelte.ts:25-44 | returns null and leaves the registry alone exactly when the friend id is absent or 0; otherwise its result and the new registry are those of `Resolve` on the old registry; a user it creates is fresh, has the friend id as id, no friend id and this pool; the reader's friend id is unchanged and pool ownership is preserved |
| `FriendRead.Resolve` | src/lib/Test.svelte.ts:25-44 | a friend comes back iff the id is truthy; the keys afterwards are the old keys plus the friend id when truthy and nothing else; no existing entry is removed or replaced; the returned user is the one stored under the id afterwards; a missing id yields the placeholder |
| `FriendRead.ResolveIdempotent` | src/lib/Test.svelte.ts:30-43 | a second read right after the first returns the same user and leaves the registry unchanged, whatever placeholder it could have built |
| `FriendRead.ResolveAll` | src/lib/Test.svelte.ts:25-44 | over any sequence of reads the registry grows by exactly the truthy ids read, keeps every existing entry, and every read returns the user the final registry holds under its id |
| `FriendRead.FirstReadMaterialises` | src/lib/Test.svelte.ts:37-43 | in a sequence of reads, the first read of an id missing from the registry returns the placeholder built for it, and the final registry still holds that placeholder under the id |
| `FriendRead.SameIdSameFriend` | src/lib/Test.svelte.ts:30-43 | two reads of the same friend id in one sequence return the same user, whatever was read in between |
| `FriendRead.ReplayStable` | src/lib/Test.svelte.ts:30-43 | replaying a sequence of reads on the registry it produced returns the same users and changes nothing |
| `Test.ResolveKeepsOwned` | src/lib/Test.svelte.ts:37-40 | a read whose placeholder belongs to the pool and carries the friend id keeps every entry stored under its own id and pointing back to the pool |
| `Test.ResolveAllKeepsOwned` | src/lib/Test.svelte.ts:37-40 | over any sequence of reads whose placeholders belong to the pool and carry their ids, every entry stays stored under its own id and points back to the pool |
| `Test.SeedScenario` | src/lib/Test.svelte.ts:9-12 | in a fresh pool user 2's friend is the seeded user 1 and no id is added |
| `Test.LazyScenario` | src/lib/Test.svelte.ts:37-43 | reading an unregistered friend id 99 returns a new friendless user with id 99, a second read returns the same user, a friend id of 0 returns nothing, and the registry ends with ids 1, 2 and 99 |

## Left out

- The `now` reactive tick (src/lib/Test.svelte.ts:7): it has no logic in this file.
- Svelte reactivity: `SvelteMap` dependency tracking and the `untrack` scope around the insert; the insert is modelled as a plain map update, and whether an untracked write invalidates a derivation is a property of the runtime, which is not part of this model.
- Sharing of one registry between pools: `users` is a public, non-readonly field (src/lib/Test.svelte.ts:5), so outside code could make two pools hold the same `SvelteMap` object; here `users` is a map value owned by one pool, so a write through one pool can never be seen through another.
- Map iteration order: nothing in the code depends on it.
- Memory retention and garbage collection: object lifetime is not expressible here.
- Ids are mathematical integers: JavaScript numbers that are not integers (fractions, `NaN`, which is also falsy) are not modelled.
