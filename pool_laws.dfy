/** Properties of the pool that relate several operations: how the options
    resolve, the order in which items come back, what a full discarding pool
    keeps, what a reset leaves behind, and the scenarios of pool_test.go. */
module PoolLaws {
  import opened App

  // ---------------------------------------------------------------------
  // Configuration
  // ---------------------------------------------------------------------

  /** Each strategy is switched on exactly when some option asks for it; with
      no options both ends block and there is no reset. */
  lemma {:induction false} ConfigureStrategies<T>(options: seq<PoolOption<T>>)
    ensures Configure(options).next == MakeIfEmpty
        <==> exists i :: 0 <= i < |options| && options[i].WithFactory?
    ensures Configure(options).recycle == DiscardIfFull
        <==> exists i :: 0 <= i < |options| && options[i].WithDiscard?
    ensures Configure(options).reset.Some?
        <==> exists i :: 0 <= i < |options| && options[i].WithReset?
    ensures options == [] ==> Configure(options) == Defaults()
    decreases |options|
  {
    if options != [] {
      var n := |options|;
      var init := options[..n - 1];
      ConfigureStrategies(init);
      assert forall i :: 0 <= i < n - 1 ==> options[i] == init[i];
      if options[n - 1].WithFactory? {
        assert exists i :: 0 <= i < n && options[i].WithFactory?;
      }
      if options[n - 1].WithDiscard? {
        assert exists i :: 0 <= i < n && options[i].WithDiscard?;
      }
      if options[n - 1].WithReset? {
        assert exists i :: 0 <= i < n && options[i].WithReset?;
      }
    }
  }

  /** The factory is the one given by the last WithFactory option. */
  lemma {:induction false} LastFactoryWins<T>(options: seq<PoolOption<T>>, j: nat)
    requires j < |options| && options[j].WithFactory?
    requires forall k :: j < k < |options| ==> !options[k].WithFactory?
    ensures Configure(options).factory == Some(options[j].factoryFn)
    decreases |options|
  {
    var n := |options|;
    var init := options[..n - 1];
    if j < n - 1 {
      assert forall k :: j < k < |init| ==> init[k] == options[k];
      LastFactoryWins(init, j);
    }
  }

  /** The reset step is the one given by the last WithReset option. */
  lemma {:induction false} LastResetWins<T>(options: seq<PoolOption<T>>, j: nat)
    requires j < |options| && options[j].WithReset?
    requires forall k :: j < k < |options| ==> !options[k].WithReset?
    ensures Configure(options).reset == Some(options[j].resetFn)
    decreases |options|
  {
    var n := |options|;
    var init := options[..n - 1];
    if j < n - 1 {
      assert forall k :: j < k < |init| ==> init[k] == options[k];
      LastResetWins(init, j);
    }
  }

  // ---------------------------------------------------------------------
  // Acquire
  // ---------------------------------------------------------------------

  /** Acquires drain the free-list from the front, in FIFO order, and do
      not call the factory while items remain. */
  lemma {:induction false} DrainInOrder<T>(c: Config<T>, free: seq<T>, made: nat, k: nat)
    requires WellFormed(c) && k <= |free|
    ensures Acquires(c, free, made, k) == Run(free[..k], free[k..], made)
    decreases k
  {
    if k > 0 {
      DrainInOrder(c, free[1..], made, k - 1);
      assert free[1..][..k - 1] == free[1..k];
      assert free[1..][k - 1..] == free[k..];
      assert [free[0]] + free[1..k] == free[..k];
    }
  }

  /** With take-or-generate, acquires past the end of the free-list keep
      succeeding: each calls the factory once more. */
  lemma {:induction false} DrainThenMint<T>(c: Config<T>, free: seq<T>, made: nat, k: nat)
    requires WellFormed(c) && c.next == MakeIfEmpty && |free| <= k
    ensures Acquires(c, free, made, k)
         == Run(free + Minted(c.factory.value, made, k - |free|), [], made + k - |free|)
    decreases k
  {
    var fn := c.factory.value;
    if free != [] {
      DrainThenMint(c, free[1..], made, k - 1);
      assert [free[0]] + (free[1..] + Minted(fn, made, k - |free|)) == free + Minted(fn, made, k - |free|);
    } else if k > 0 {
      DrainThenMint(c, [], made + 1, k - 1);
      assert [fn(made)] + Minted(fn, made + 1, k - 1) == Minted(fn, made, k);
    }
  }

  // ---------------------------------------------------------------------
  // Release
  // ---------------------------------------------------------------------

  /** While there is room, releases append at the back, each item reset. */
  lemma {:induction false} ReleasesAppend<T>(c: Config<T>, size: nat, free: seq<T>, vs: seq<T>)
    requires |free| + |vs| <= size
    ensures Releases(c, size, free, vs) == free + PreparedAll(c, vs)
    decreases |vs|
  {
    if vs != [] {
      ReleasesAppend(c, size, free + [Prepared(c, vs[0])], vs[1..]);
      assert free + [Prepared(c, vs[0])] + PreparedAll(c, vs[1..]) == free + PreparedAll(c, vs);
    }
  }

  /** Releases into a full discarding pool change nothing: every item is
      dropped. */
  lemma {:induction false} ReleasesIntoFullDropped<T>(c: Config<T>, size: nat, free: seq<T>, vs: seq<T>)
    requires c.recycle == DiscardIfFull && |free| >= size
    ensures Releases(c, size, free, vs) == free
    decreases |vs|
  {
    if vs != [] {
      ReleasesIntoFullDropped(c, size, free, vs[1..]);
    }
  }

  // ---------------------------------------------------------------------
  // The bound on the free-list
  // ---------------------------------------------------------------------

  /** No run of acquires or releases takes the free-list past its capacity. */
  lemma {:induction false} StaysBounded<T>(c: Config<T>, size: nat, free: seq<T>, made: nat, k: nat, vs: seq<T>)
    requires WellFormed(c) && |free| <= size
    requires k <= |free| || c.next == MakeIfEmpty
    requires |free| + |vs| <= size || c.recycle == DiscardIfFull
    ensures |Acquires(c, free, made, k).free| <= |free|
    ensures |Releases(c, size, free, vs)| <= size
    decreases k + |vs|
  {
    if k > 0 {
      var t := NextSpec(c, free, made);
      StaysBounded(c, size, t.free, t.made, k - 1, []);
    }
    if vs != [] {
      StaysBounded(c, size, RecycleSpec(c, size, free, vs[0]), made, 0, vs[1..]);
    }
  }

  // ---------------------------------------------------------------------
  // Laws combining release and acquire
  // ---------------------------------------------------------------------

  /** Items released while there is room come back in the order they were
      released, after the items already pooled, each in its reset form. */
  lemma FifoRoundTrip<T>(c: Config<T>, size: nat, free: seq<T>, made: nat, vs: seq<T>)
    requires WellFormed(c) && |free| + |vs| <= size
    ensures Releases(c, size, free, vs) == free + PreparedAll(c, vs)
    ensures Acquires(c, Releases(c, size, free, vs), made, |free| + |vs|)
         == Run(free + PreparedAll(c, vs), [], made)
  {
    ReleasesAppend(c, size, free, vs);
    var full := free + PreparedAll(c, vs);
    DrainInOrder(c, full, made, |full|);
    assert full[..|full|] == full;
  }

  /** Releasing into a full discarding pool loses the item: the next `size`
      acquires return exactly the items already pooled, in order. */
  lemma DiscardLaw<T>(c: Config<T>, size: nat, free: seq<T>, made: nat, x: T)
    requires WellFormed(c) && c.recycle == DiscardIfFull && |free| == size
    ensures RecycleSpec(c, size, free, x) == free
    ensures Acquires(c, RecycleSpec(c, size, free, x), made, size).items == free
    ensures Prepared(c, x) !in free ==> Prepared(c, x) !in Acquires(c, RecycleSpec(c, size, free, x), made, size).items
  {
    DrainInOrder(c, free, made, size);
    assert free[..size] == free;
  }

  /** A released item is reset before it is stored: the acquire that reaches
      it returns the reset value, not the value that was released. */
  lemma ResetLaw<T>(c: Config<T>, size: nat, free: seq<T>, made: nat, v: T)
    requires WellFormed(c) && |free| < size
    ensures Acquires(c, RecycleSpec(c, size, free, v), made, |free| + 1).items
         == free + [Prepared(c, v)]
    ensures c.reset.Some? ==>
      Acquires(c, RecycleSpec(c, size, free, v), made, |free| + 1).items[|free|] == c.reset.value(v)
  {
    var after := free + [Prepared(c, v)];
    assert RecycleSpec(c, size, free, v) == after;
    DrainInOrder(c, after, made, |after|);
    assert after[..|after|] == after;
  }

  /** A pool built with a factory holds the first `size` factory items; the
      first `size` acquires return them without another factory call, and
      the next acquire calls the factory exactly once more. */
  lemma FreshPoolAcquires<T>(options: seq<PoolOption<T>>, size: nat)
    requires Configure(options).factory.Some?
    ensures var c := Configure(options);
      var fn := c.factory.value;
      Acquires(c, Minted(fn, 0, size), size, size) == Run(Minted(fn, 0, size), [], size)
      && Acquires(c, Minted(fn, 0, size), size, size + 1) == Run(Minted(fn, 0, size + 1), [], size + 1)
  {
    var c := Configure(options);
    var fn := c.factory.value;
    DrainInOrder(c, Minted(fn, 0, size), size, size);
    assert Minted(fn, 0, size)[..size] == Minted(fn, 0, size);
    DrainThenMint(c, Minted(fn, 0, size), size, size + 1);
    assert Minted(fn, 0, size) + Minted(fn, size, 1) == Minted(fn, 0, size + 1);
  }

  /** A blocking pool seeded by `size` releases: exactly `size` acquires
      succeed and return the seeded items; the pool is then empty and one
      more acquire would block, as a further release would have before. */
  lemma BlockingSeeded<T>(c: Config<T>, size: nat, made: nat, vs: seq<T>)
    requires WellFormed(c) && c.next == BlockingAcquire && c.recycle == BlockingRelease
    requires |vs| == size
    ensures Releases(c, size, [], vs) == PreparedAll(c, vs)
    ensures !CanRecycle(c, size, Releases(c, size, [], vs))
    ensures Acquires(c, Releases(c, size, [], vs), made, size) == Run(PreparedAll(c, vs), [], made)
    ensures !CanNext(c, Acquires(c, Releases(c, size, [], vs), made, size).free)
  {
    FifoRoundTrip(c, size, [], made, vs);
    assert [] + PreparedAll(c, vs) == PreparedAll(c, vs);
    assert Releases(c, size, [], vs) == PreparedAll(c, vs);
  }

  // ---------------------------------------------------------------------
  // The scenarios of pool_test.go and of the surplus behaviour
  // ---------------------------------------------------------------------

  /** TestWithPoolFactory: a pool of one with a factory hands out its item,
      then a freshly made one. */
  lemma FactoryScenario<T>(fn: nat -> T)
    ensures var c := Configure([WithFactory(fn)]);
      c.next == MakeIfEmpty && c.factory == Some(fn)
      && Acquires(c, Minted(fn, 0, 1), 1, 2) == Run([fn(0), fn(1)], [], 2)
  {
  }

  /** TestWithPoolReset: a pool of one with a factory and reset `r`; the item
      taken, released and taken again comes back as `r(x)`. */
  lemma ResetScenario<T>(fn: nat -> T, r: T -> T, x: T)
    ensures var c := Configure([WithFactory(fn), WithReset(r)]);
      && NextSpec(c, Minted(fn, 0, 1), 1) == Taken(fn(0), [], 1)
      && RecycleSpec(c, 1, [], x) == [r(x)]
      && NextSpec(c, [r(x)], 1) == Taken(r(x), [], 1)
  {
  }

  /** TestWithPoolDiscard: a full pool of one with a factory and the
      discarding release drops the released item `x`; the next two acquires
      return the pooled item and then a factory item. */
  lemma DiscardScenario<T>(fn: nat -> T, x: T)
    ensures var c := Configure([WithFactory(fn), WithDiscard]);
      && c.next == MakeIfEmpty && c.reset.None?
      && RecycleSpec(c, 1, Minted(fn, 0, 1), x) == [fn(0)]
      && Acquires(c, [fn(0)], 1, 2) == Run([fn(0), fn(1)], [], 2)
  {
    var opts := [WithFactory(fn), WithDiscard];
    assert opts[..1] == [WithFactory(fn)];
    assert opts[..1][..0] == [];
    assert Configure(opts[..1]) == Config(MakeIfEmpty, BlockingRelease, Some(fn), None);
    assert Configure(opts) == Config(MakeIfEmpty, DiscardIfFull, Some(fn), None);
    assert Minted(fn, 0, 1) == [fn(0)];
  }

  /** Capacity one, a factory and the discarding release: two acquires both
      succeed, one reused and one made; releasing both leaves one item. */
  lemma SurplusScenario<T>(fn: nat -> T)
    ensures var c := Configure([WithFactory(fn), WithDiscard]);
      && c.next == MakeIfEmpty && c.reset.None?
      && Acquires(c, Minted(fn, 0, 1), 1, 2) == Run([fn(0), fn(1)], [], 2)
      && Releases(c, 1, [], [fn(0), fn(1)]) == [fn(0)]
  {
    var opts := [WithFactory(fn), WithDiscard];
    assert opts[..1] == [WithFactory(fn)];
    assert opts[..1][..0] == [];
    assert Configure(opts[..1]) == Config(MakeIfEmpty, BlockingRelease, Some(fn), None);
    assert Configure(opts) == Config(MakeIfEmpty, DiscardIfFull, Some(fn), None);
    var c := Configure(opts);
    assert Minted(fn, 0, 1) == [fn(0)];
    assert [fn(0), fn(1)][1..] == [fn(1)];
    assert RecycleSpec(c, 1, [], fn(0)) == [fn(0)];
    assert Releases(c, 1, [], [fn(0), fn(1)]) == Releases(c, 1, [fn(0)], [fn(1)]);
    ReleasesIntoFullDropped(c, 1, [fn(0)], [fn(1)]);
  }
}
