# Object pool model

A Dafny model of the generic object pool `Pool[T]` of the `app` package
(`pool.go`). The pool keeps a bounded FIFO free-list of reusable items. How an
item is acquired and how it is released is fixed once, at construction, by
functional options:

- **Next** either blocks until the free-list has an item (`blockOnNext`, the
  default) or, once a factory is set with `WithPoolFactory`, takes the oldest
  free item or calls the factory when the free-list is empty (`makeOnNext`).
- **Recycle** first applies the reset step set by `WithPoolReset`, if any, and
  then either blocks until there is room (`blockOnRecycle`, the default) or,
  after `WithPoolDiscard`, drops the item when the free-list is full
  (`discardOnRecycle`).
- **NewPool** applies the options in order, sets the `configured` latch (so an
  option applied later changes nothing) and, when a factory is set, fills the
  free-list to capacity with factory items.

`pool.dfy` (module `App`) holds the class `Pool` with the fields of the Go
struct and the specification functions on values that its methods are proved
against: `Configure` (the options in order), `NextSpec` and `RecycleSpec` (one
acquire and one release), `Acquires` and `Releases` (runs of them).
`pool_laws.dfy` (module `PoolLaws`) proves the laws that relate several
operations: how the options resolve, FIFO order, the bound on the free-list,
the discard law, the reset law, the construction fill, and the scenarios of
`pool_test.go`.

Modelling choices:

- The free-list channel `free chan T` of capacity `size` is a `seq<T>` field
  with a constant `size`; its head is the oldest item.
- The function-valued fields `next` and `recycle` become the strategy fields
  `next: AcquireMode` and `recycle: ReleaseMode`, set by the same options.
- The factory `func() T` is a generator `nat -> T`: `fn(k)` is the item its
  k-th call yields, and the field `made` counts the calls made so far, so
  factory calls can be counted.
- The reset `func(T)`, which mutates an item through a pointer, is a pure
  transform `T -> T`; the stored item is `reset(v)`.
- A blocking channel operation is modelled by the precondition under which it
  returns without suspending: a non-empty free-list for `blockOnNext`, a
  non-full one for `blockOnRecycle` (`CanNext`, `CanRecycle`).
- `size int` is a `nat`: `make(chan T, size)` panics on a negative size. A size of 0 is accepted, as the code accepts it: the free-list then never holds an item.

## Model

| member | source | states |
|---|---|---|
| `App.Configure` | pool.go:61-70 | the configuration the options reach is well formed: the take-or-generate acquire is chosen exactly when a factory is set |
| `App.Minted` | pool.go:74-76 | `n` factory calls starting at call number `from` yield exactly `n` items, the i-th being the item of call `from + i` |
| `App.PreparedAll` | pool.go:21-26 | each released item enters the free-list as `reset(v)` when a reset is set, as `v` otherwise, in release order |
| `App.Pool.NewPool` | pool.go:61-77 | the options are applied in order, the latch is set, and with a factory the free-list holds exactly the first `size` factory items after exactly `size` calls; without one it is empty; the free-list is within capacity |
| `App.Pool.Apply` | pool.go:67-69 | applying one option changes the configuration as the option says while the latch is open, and changes nothing once it is set |
| `App.Pool.WithPoolFactory` | pool.go:83-91 | while not configured, sets the factory and switches acquire to take-or-generate; once configured, changes nothing |
| `App.Pool.WithPoolReset` | pool.go:95-102 | while not configured, sets the reset step; once configured, changes nothing |
| `App.Pool.WithPoolDiscard` | pool.go:106-113 | while not configured, switches release to drop-if-full; once configured, changes nothing |
| `App.Pool.Make` | pool.go:36 | one factory call yields the item of the current call number and counts one more call |
| `App.Pool.Next` | pool.go:15-17 | dispatches on the acquire strategy; the item and the new free-list and call count are those of one acquire, and the free-list stays within capacity; only the free-list and the call count change |
| `App.Pool.Recycle` | pool.go:21-26 | the item is reset (when a reset is set) before it is stored by the release strategy; the free-list stays within capacity; nothing but the free-list changes |
| `App.Pool.BlockOnNext` | pool.go:28-30 | on a non-empty free-list returns the oldest item and leaves the rest |
| `App.Pool.MakeOnNext` | pool.go:32-39 | never needs a non-empty free-list: returns and removes the head if there is one, otherwise returns a fresh factory item, leaves the free-list unchanged and counts one call |
| `App.Pool.BlockOnRecycle` | pool.go:41-43 | on a non-full free-list appends the item at the back |
| `App.Pool.DiscardOnRecycle` | pool.go:45-50 | appends the item when there is room; on a full free-list leaves it unchanged, the item dropped |
| `PoolLaws.ConfigureStrategies` | pool.go:52-70 | with no options both ends block and there is no reset; each non-default choice is made exactly when some option asks for it |
| `PoolLaws.LastFactoryWins` | pool.go:83-91 | the factory in force is the one of the last factory option |
| `PoolLaws.LastResetWins` | pool.go:95-102 | the reset in force is the one of the last reset option |
| `PoolLaws.DrainInOrder` | pool.go:28-39 | `k` acquires from a free-list of at least `k` items return its first `k` items in FIFO order, leave the rest and call no factory |
| `PoolLaws.DrainThenMint` | pool.go:32-39 | with take-or-generate, acquires past the end of the free-list return all pooled items and then one fresh factory item per further acquire |
| `PoolLaws.ReleasesAppend` | pool.go:41-50 | releases with room append the reset items at the back, in release order |
| `PoolLaws.ReleasesIntoFullDropped` | pool.go:45-50 | releases into a full discarding pool leave the free-list unchanged |
| `PoolLaws.StaysBounded` | pool.go:63 | no run of acquires grows the free-list and no run of releases takes it past its capacity |
| `PoolLaws.FifoRoundTrip` | pool.go:5 | items released with room come back after those already pooled, in release order, each in its reset form |
| `PoolLaws.DiscardLaw` | pool.go:45-50 | releasing into a full discarding pool changes nothing, and the next `size` acquires return exactly the pooled items, never the dropped one unless it was already pooled |
| `PoolLaws.ResetLaw` | pool.go:21-26 | the acquire that reaches a released item returns `reset(v)`, not `v` |
| `PoolLaws.FreshPoolAcquires` | pool.go:71-76 | a pool built with a factory serves its first `size` acquires from the pre-made items without another factory call, and the next acquire calls the factory exactly once more |
| `PoolLaws.BlockingSeeded` | pool.go:58-60 | a blocking pool seeded by `size` releases is full (a further release would block), serves exactly those items to `size` acquires, and is then empty (a further acquire would block) |
| `PoolLaws.FactoryScenario` | pool_test.go:7-20 | a pool of one with a factory hands out its pre-made item and then a freshly made one |
| `PoolLaws.ResetScenario` | pool_test.go:22-38 | a pool of one with a factory and a reset returns the released item in its reset form |
| `PoolLaws.DiscardScenario` | pool_test.go:40-58 | releasing into a full pool of one with discard drops the item; the next two acquires return the pre-made item and then a factory item |
| `PoolLaws.SurplusScenario` | pool.go:32-50 | capacity one, factory and discard: two acquires both succeed (one reused, one made) and releasing both leaves one item |

## Left out

- `context.go` is not part of this model: it handles operating-system signals, goroutines and context cancellation, with no pool logic.
- Real blocking: goroutine suspension, wake-up order between concurrent callers and the hand-off of an unbuffered channel when `size` is 0 are not modelled; a blocking operation is modelled only in the states where it returns without suspending.
- The closures stored in `next` and `recycle` are modelled as the strategy they select, not as function values.
- Pointer aliasing: `reset` mutates an item in place in Go; here it is a pure transform, so a caller holding a reference to a released item does not see it change.
- Item identity: items are values, so the "a checked-out item is not also free" discipline, which concerns references, is not stated.
- Panics raised by a user factory or reset, and the panic of `make` on a negative size (the size is a `nat`), are not modelled.
- `WithPoolFactory(nil)` switches acquire to take-or-generate with no factory, so an acquire on an empty pool panics; here a factory is always a total function, so this case does not arise.
- The factory is a function of its call number rather than an arbitrary closure with hidden state; any deterministic closure is one such function.
