/** A bounded pool of reusable items (package app, pool.go).

    The free-list is a FIFO queue of at most `size` items. How an item is
    acquired (block, or take-or-generate) and how it is released (block, or
    drop-if-full) is decided once, by the options passed to NewPool. A
    blocking operation is modelled by the precondition under which it
    returns without suspending: a non-empty free-list for acquire, a
    non-full one for release.

    The factory is a generator: `fn(k)` is the item its k-th call yields, and
    the pool counts the calls made so far in `made`. */
module App {

  datatype Option<T> = None | Some(value: T)

  /** How Next obtains an item: blockOnNext or makeOnNext. */
  datatype AcquireMode = BlockingAcquire | MakeIfEmpty

  /** How Recycle stores an item: blockOnRecycle or discardOnRecycle. */
  datatype ReleaseMode = BlockingRelease | DiscardIfFull

  /** The functional options accepted by NewPool. */
  datatype PoolOption<!T> =
    | WithFactory(factoryFn: nat -> T)
    | WithReset(resetFn: T -> T)
    | WithDiscard

  /** Everything the options decide. */
  datatype Config<!T> = Config(
    next: AcquireMode,
    recycle: ReleaseMode,
    factory: Option<nat -> T>,
    reset: Option<T -> T>)

  /** The item returned by one acquire, with the free-list and factory-call
      count it leaves behind. */
  datatype Taken<T> = Taken(item: T, free: seq<T>, made: nat)

  /** The items returned by a run of acquires, in order, and the state after. */
  datatype Run<T> = Run(items: seq<T>, free: seq<T>, made: nat)

  /** A pool built without options: both ends block and nothing is reset. */
  function Defaults<T>(): Config<T> {
    Config(BlockingAcquire, BlockingRelease, None, None)
  }

  /** The take-or-generate acquire is chosen exactly when there is a factory. */
  predicate WellFormed<T>(c: Config<T>) {
    c.next == MakeIfEmpty <==> c.factory.Some?
  }

  /** The effect of one option on a configuration that is still open. */
  function ApplyOption<T>(c: Config<T>, opt: PoolOption<T>): Config<T> {
    match opt
    case WithFactory(fn) => c.(factory := Some(fn), next := MakeIfEmpty)
    case WithReset(fn) => c.(reset := Some(fn))
    case WithDiscard => c.(recycle := DiscardIfFull)
  }

  /** The configuration NewPool reaches by applying the options in order. */
  function Configure<T>(options: seq<PoolOption<T>>): (c: Config<T>)
    ensures WellFormed(c)
    decreases |options|
  {
    if options == [] then Defaults()
    else ApplyOption(Configure(options[..|options| - 1]), options[|options| - 1])
  }

  /** The items of `n` factory calls, starting with call number `from`. */
  function Minted<T>(fn: nat -> T, from: nat, n: nat): (r: seq<T>)
    ensures |r| == n
    ensures forall i :: 0 <= i < n ==> r[i] == fn(from + i)
    decreases n
  {
    if n == 0 then [] else Minted(fn, from, n - 1) + [fn(from + n - 1)]
  }

  /** The item as it enters the free-list: reset first when a reset is set. */
  function Prepared<T>(c: Config<T>, v: T): T {
    match c.reset
    case None => v
    case Some(r) => r(v)
  }

  /** The states in which Next returns without suspending. */
  predicate CanNext<T>(c: Config<T>, free: seq<T>) {
    free != [] || c.next == MakeIfEmpty
  }

  /** The states in which Recycle returns without suspending. */
  predicate CanRecycle<T>(c: Config<T>, size: nat, free: seq<T>) {
    |free| < size || c.recycle == DiscardIfFull
  }

  /** One acquire: blockOnNext takes the head; makeOnNext takes the head or,
      on an empty free-list, calls the factory. */
  function NextSpec<T>(c: Config<T>, free: seq<T>, made: nat): Taken<T>
    requires WellFormed(c) && CanNext(c, free)
  {
    match c.next
    case BlockingAcquire => Taken(free[0], free[1..], made)
    case MakeIfEmpty =>
      if free != [] then Taken(free[0], free[1..], made)
      else Taken(c.factory.value(made), free, made + 1)
  }

  /** One release: the prepared item is appended, unless the discarding
      release finds the free-list full. */
  function RecycleSpec<T>(c: Config<T>, size: nat, free: seq<T>, v: T): seq<T>
    requires CanRecycle(c, size, free)
  {
    match c.recycle
    case BlockingRelease => free + [Prepared(c, v)]
    case DiscardIfFull => if |free| < size then free + [Prepared(c, v)] else free
  }

  /** `k` acquires in a row. */
  function Acquires<T>(c: Config<T>, free: seq<T>, made: nat, k: nat): Run<T>
    requires WellFormed(c)
    requires k <= |free| || c.next == MakeIfEmpty
    decreases k
  {
    if k == 0 then Run([], free, made)
    else
      var t := NextSpec(c, free, made);
      var rest := Acquires(c, t.free, t.made, k - 1);
      Run([t.item] + rest.items, rest.free, rest.made)
  }

  /** Releasing the items of `vs` in order. */
  function Releases<T>(c: Config<T>, size: nat, free: seq<T>, vs: seq<T>): seq<T>
    requires |free| + |vs| <= size || c.recycle == DiscardIfFull
    decreases |vs|
  {
    if vs == [] then free
    else Releases(c, size, RecycleSpec(c, size, free, vs[0]), vs[1..])
  }

  /** The items of `vs`, each as it would enter the free-list. */
  function PreparedAll<T>(c: Config<T>, vs: seq<T>): (r: seq<T>)
    ensures |r| == |vs|
    ensures forall i :: 0 <= i < |vs| ==> r[i] == Prepared(c, vs[i])
    decreases |vs|
  {
    if vs == [] then [] else [Prepared(c, vs[0])] + PreparedAll(c, vs[1..])
  }

  /** A pool of reusable items. The fields are those of the Go struct, with
      the function-valued `next` and `recycle` replaced by the strategy they
      point to, and `made` counting the factory's calls. */
  class Pool<T> {
    const size: nat
    var free: seq<T>
    var next: AcquireMode
    var recycle: ReleaseMode
    var factory: Option<nat -> T>
    var reset: Option<T -> T>
    var configured: bool
    var made: nat

    /** The free-list never exceeds its capacity, and the acquire strategy
        agrees with the presence of a factory. */
    ghost predicate Valid()
      reads this
    {
      |free| <= size && WellFormed(Cfg())
    }

    ghost function Cfg(): Config<T>
      reads this
    {
      Config(next, recycle, factory, reset)
    }

    /** NewPool: defaults, then the options in order, then the latch; with a
        factory the free-list is filled to capacity. */
    constructor NewPool(size: nat, options: seq<PoolOption<T>>)
      ensures Valid() && configured
      ensures this.size == size
      ensures Cfg() == Configure(options)
      ensures factory.Some? ==> free == Minted(factory.value, 0, size) && made == size
      ensures factory.None? ==> free == [] && made == 0
    {
      this.size := size;
      free := [];
      next := BlockingAcquire;
      recycle := BlockingRelease;
      factory := None;
      reset := None;
      configured := false;
      made := 0;
      new;
      for i := 0 to |options|
        invariant Valid() && !configured
        invariant Cfg() == Configure(options[..i])
        invariant free == [] && made == 0
      {
        assert options[..i + 1][..i] == options[..i];
        Apply(options[i]);
      }
      assert options[..|options|] == options;
      configured := true;
      if factory.Some? {
        for i := 0 to size
          invariant Valid() && configured
          invariant Cfg() == Configure(options)
          invariant free == Minted(factory.value, 0, i) && made == i
        {
          var v := Make();
          free := free + [v];
        }
      }
    }

    /** opt(pool): dispatches to the body of the option's closure. */
    method Apply(opt: PoolOption<T>)
      requires Valid()
      modifies this`next, this`recycle, this`factory, this`reset
      ensures Valid()
      ensures Cfg() == if configured then old(Cfg()) else ApplyOption(old(Cfg()), opt)
    {
      match opt
      case WithFactory(fn) => WithPoolFactory(fn);
      case WithReset(fn) => WithPoolReset(fn);
      case WithDiscard => WithPoolDiscard();
    }

    /** Sets the factory and switches Next to take-or-generate, unless the
        pool is already configured. */
    method WithPoolFactory(fn: nat -> T)
      modifies this`factory, this`next
      ensures configured ==> factory == old(factory) && next == old(next)
      ensures !configured ==> factory == Some(fn) && next == MakeIfEmpty
    {
      if configured {
        return;
      }
      factory := Some(fn);
      next := MakeIfEmpty;
    }

    /** Sets the reset step, unless the pool is already configured. */
    method WithPoolReset(fn: T -> T)
      modifies this`reset
      ensures configured ==> reset == old(reset)
      ensures !configured ==> reset == Some(fn)
    {
      if configured {
        return;
      }
      reset := Some(fn);
    }

    /** Switches Recycle to drop-if-full, unless the pool is already
        configured. */
    method WithPoolDiscard()
      modifies this`recycle
      ensures configured ==> recycle == old(recycle)
      ensures !configured ==> recycle == DiscardIfFull
    {
      if configured {
        return;
      }
      recycle := DiscardIfFull;
    }

    /** One call of the factory. */
    method Make() returns (v: T)
      requires factory.Some?
      modifies this`made
      ensures v == factory.value(old(made)) && made == old(made) + 1
    {
      v := factory.value(made);
      made := made + 1;
    }

    /** Next: the next free item, by the strategy chosen at construction. */
    method Next() returns (v: T)
      requires Valid() && CanNext(Cfg(), free)
      modifies this`free, this`made
      ensures Valid()
      ensures Taken(v, free, made) == NextSpec(Cfg(), old(free), old(made))
    {
      match next
      case BlockingAcquire => v := BlockOnNext();
      case MakeIfEmpty => v := MakeOnNext();
    }

    /** Recycle: reset the item when a reset is set, then store it by the
        strategy chosen at construction. */
    method Recycle(v: T)
      requires Valid() && CanRecycle(Cfg(), size, free)
      modifies this`free
      ensures Valid()
      ensures free == RecycleSpec(Cfg(), size, old(free), v)
    {
      var w := v;
      if reset.Some? {
        w := reset.value(v);
      }
      match recycle
      case BlockingRelease => BlockOnRecycle(w);
      case DiscardIfFull => DiscardOnRecycle(w);
    }

    /** Receive from the free-list: returns the oldest item. */
    method BlockOnNext() returns (v: T)
      requires free != []
      modifies this`free
      ensures v == old(free[0]) && free == old(free[1..])
    {
      v := free[0];
      free := free[1..];
    }

    /** Take the oldest item if there is one, otherwise call the factory and
        leave the free-list as it is. */
    method MakeOnNext() returns (v: T)
      requires factory.Some?
      modifies this`free, this`made
      ensures old(free) != [] ==> v == old(free[0]) && free == old(free[1..]) && made == old(made)
      ensures old(free) == [] ==> v == factory.value(old(made)) && free == [] && made == old(made) + 1
    {
      if free != [] {
        v := free[0];
        free := free[1..];
      } else {
        v := Make();
      }
    }

    /** Send to the free-list: the item goes to the back. */
    method BlockOnRecycle(v: T)
      requires |free| < size
      modifies this`free
      ensures free == old(free) + [v]
    {
      free := free + [v];
    }

    /** Send if there is room, otherwise drop the item. */
    method DiscardOnRecycle(v: T)
      modifies this`free
      ensures |old(free)| < size ==> free == old(free) + [v]
      ensures |old(free)| >= size ==> free == old(free)
    {
      if |free| < size {
        free := free + [v];
      }
    }
  }
}
