/** The slot pool as a value: the floats of every store, the slot counter,
    the released slots, and what acquiring, releasing and growing do to
    them.  The pool class is proved to follow these functions step for
    step; the lemmas here state what the pool promises its users. */
module SlotPool {
  import opened ChannelStore
  import opened PoolSpec

  /** The floats of each store in key order, each store's kind, the number
      of slots, the next slot never handed out, and the released slots,
      most recent last. */
  datatype Slots = Slots(data: seq<seq<real>>, kinds: seq<Kind>, size: nat, head: nat, freed: seq<nat>)

  /** Every store holds `size` slots of its kind's width. */
  ghost predicate Shaped(m: Slots)
  {
    |m.data| == |m.kinds| && forall k :: 0 <= k < |m.data| ==> |m.data[k]| == m.size * Width(m.kinds[k])
  }

  lemma SlotInside(m: Slots, i: nat)
    requires Shaped(m) && i < m.size
    ensures forall k :: 0 <= k < |m.data| ==> (i + 1) * Width(m.kinds[k]) <= |m.data[k]|
  {
    forall k | 0 <= k < |m.data|
      ensures (i + 1) * Width(m.kinds[k]) <= |m.data[k]|
    {
      MulMonotone(i + 1, m.size, Width(m.kinds[k]));
    }
  }

  /** The floats of slot `i` in store `k`. */
  ghost function At(m: Slots, k: nat, i: nat): (v: seq<real>)
    requires Shaped(m) && k < |m.data| && i < m.size
    ensures |v| == Width(m.kinds[k])
  {
    SlotInside(m, i);
    Slot(m.data[k], Width(m.kinds[k]), i)
  }

  /** Slot `i` reads zero in every store. */
  ghost predicate ZeroSlot(m: Slots, i: nat)
    requires Shaped(m) && i < m.size
  {
    forall k :: 0 <= k < |m.data| ==> At(m, k, i) == Zeros(Width(m.kinds[k]))
  }

  /** The slots handed out and not released. */
  ghost function Live(m: Slots): set<nat>
  {
    set i | 0 <= i < m.head && i !in m.freed
  }

  /** The pool's invariant: released slots are distinct issued slots that
      read zero, and no float at or past the counter has been written. */
  ghost predicate Wf(m: Slots)
  {
    Shaped(m) && m.head <= m.size &&
    (forall j :: 0 <= j < |m.freed| ==> m.freed[j] < m.head) &&
    (forall j, j' :: 0 <= j < j' < |m.freed| ==> m.freed[j] != m.freed[j']) &&
    (forall j :: 0 <= j < |m.freed| ==> ZeroSlot(m, m.freed[j])) &&
    (forall k :: 0 <= k < |m.data| ==> ZeroFrom(m.data[k], m.head * Width(m.kinds[k])))
  }

  /** A new pool of `size` zero-filled slots per store. */
  ghost function Empty(kinds: seq<Kind>, size: nat): (m: Slots)
    ensures Wf(m) && Live(m) == {}
  {
    Slots(seq(|kinds|, k requires 0 <= k < |kinds| => Zeros(size * Width(kinds[k]))), kinds, size, 0, [])
  }

  /** `make_object(i)`: every store hands out a view of slot `i`, and a
      matrix view sets its slot to the identity. */
  ghost function Make(m: Slots, i: nat): (r: Slots)
    requires Shaped(m) && i < m.size
    ensures Shaped(r) && r.kinds == m.kinds && r.size == m.size && r.head == m.head && r.freed == m.freed
  {
    SlotInside(m, i);
    m.(data := seq(|m.data|, k requires 0 <= k < |m.data| => Made(m.data[k], m.kinds[k], i)))
  }

  /** `relenquish` of the object at slot `i`: zero is written through each
      of its views and the object goes on the recycle list. */
  ghost function Release(m: Slots, i: nat): (r: Slots)
    requires Shaped(m) && i < m.size
    ensures Shaped(r) && r.kinds == m.kinds && r.size == m.size && r.head == m.head
  {
    SlotInside(m, i);
    m.(data := seq(|m.data|, k requires 0 <= k < |m.data| => Cleared(m.data[k], Width(m.kinds[k]), i)),
       freed := m.freed + [i])
  }

  lemma GrowInside(m: Slots, n: nat)
    requires Shaped(m) && m.size <= n
    ensures forall k :: 0 <= k < |m.data| ==> |m.data[k]| <= n * Width(m.kinds[k])
  {
    forall k | 0 <= k < |m.data|
      ensures |m.data[k]| <= n * Width(m.kinds[k])
    {
      MulMonotone(m.size, n, Width(m.kinds[k]));
    }
  }

  /** `expand(n)`: new stores of `n` slots whose prefixes are the old
      floats. */
  ghost function Expand(m: Slots, n: nat): (r: Slots)
    requires Shaped(m) && m.size <= n
    ensures Shaped(r) && r.kinds == m.kinds && r.size == n && r.head == m.head && r.freed == m.freed
  {
    GrowInside(m, n);
    m.(data := seq(|m.data|, k requires 0 <= k < |m.data| => Grown(m.data[k], n * Width(m.kinds[k]))),
       size := n)
  }

  /** The size a full pool grows to: double, and one slot for an empty
      pool, so that growing always makes room. */
  function Doubled(n: nat): (r: nat)
    ensures n < r && (1 <= n ==> r == 2 * n)
  {
    if n == 0 then 1 else 2 * n
  }

  /** `expand(size * 2)` as written, on a pool of size zero: the pool is
      full, and doubling gives back the same full pool, so `acquire` would
      recurse on it without end. */
  lemma ZeroSizeDoublesToItself(m: Slots)
    requires Wf(m) && m.size == 0 && m.freed == []
    ensures m.head == m.size && Expand(m, 2 * m.size) == m
  {
    var e := Expand(m, 2 * m.size);
    forall k | 0 <= k < |m.data|
      ensures e.data[k] == m.data[k]
    {
      assert |m.data[k]| == 0 * Width(m.kinds[k]) == 0;
    }
  }

  /** Making slot `head` keeps the invariant once the counter moves past it;
      the new slot reads its kind's initial contents in every store and
      every other slot keeps its floats. */
  lemma MakeWf(m: Slots)
    requires Wf(m) && m.head < m.size
    ensures Wf(Make(m, m.head).(head := m.head + 1))
  {
    MakeSpec(m);
  }

  lemma MakeSpec(m: Slots)
    requires Wf(m) && m.head < m.size
    ensures Wf(Make(m, m.head).(head := m.head + 1))
    ensures forall k :: 0 <= k < |m.data| ==> At(Make(m, m.head), k, m.head) == InitialContents(m.kinds[k])
    ensures forall k, i: nat :: 0 <= k < |m.data| && i < m.size && i != m.head ==> At(Make(m, m.head), k, i) == At(m, k, i)
  {
    var r := Make(m, m.head);
    var r' := r.(head := m.head + 1);
    SlotInside(m, m.head);
    forall k | 0 <= k < |m.data|
      ensures At(r, k, m.head) == InitialContents(m.kinds[k])
      ensures forall i: nat :: i < m.size && i != m.head ==> At(r, k, i) == At(m, k, i)
      ensures ZeroFrom(r.data[k], (m.head + 1) * Width(m.kinds[k]))
    {
      MadeSlot(m.data[k], m.kinds[k], m.head);
      forall i: nat | i < m.size && i != m.head
        ensures At(r, k, i) == At(m, k, i)
      {
        SlotInside(m, i);
      }
    }
    forall j | 0 <= j < |m.freed|
      ensures ZeroSlot(r', m.freed[j])
    {
      assert ZeroSlot(m, m.freed[j]);
    }
  }

  lemma ReleaseWf(m: Slots, i: nat)
    requires Wf(m) && i in Live(m)
    ensures Wf(Release(m, i))
  {
    ReleaseSpec(m, i);
  }

  /** Releasing a live slot keeps the invariant; the slot reads zero in
      every store, every other slot keeps its floats, and the slot is no
      longer live. */
  lemma ReleaseSpec(m: Slots, i: nat)
    requires Wf(m) && i in Live(m)
    ensures Wf(Release(m, i))
    ensures ZeroSlot(Release(m, i), i)
    ensures forall k, i': nat :: 0 <= k < |m.data| && i' < m.size && i' != i ==> At(Release(m, i), k, i') == At(m, k, i')
    ensures Live(Release(m, i)) == Live(m) - {i}
  {
    var r := Release(m, i);
    SlotInside(m, i);
    forall k | 0 <= k < |m.data|
      ensures At(r, k, i) == Zeros(Width(m.kinds[k]))
      ensures forall i': nat :: i' < m.size && i' != i ==> At(r, k, i') == At(m, k, i')
      ensures ZeroFrom(r.data[k], m.head * Width(m.kinds[k]))
    {
      MulMonotone(i + 1, m.head, Width(m.kinds[k]));
      ClearedSlot(m.data[k], Width(m.kinds[k]), i, m.head * Width(m.kinds[k]));
      forall i': nat | i' < m.size && i' != i
        ensures At(r, k, i') == At(m, k, i')
      {
        SlotInside(m, i');
      }
    }
    forall j | 0 <= j < |r.freed|
      ensures ZeroSlot(r, r.freed[j])
    {
      if j < |m.freed| {
        assert ZeroSlot(m, m.freed[j]);
      }
    }
  }

  lemma ExpandWf(m: Slots, n: nat)
    requires Wf(m) && m.size <= n
    ensures Wf(Expand(m, n))
  {
    ExpandSpec(m, n);
  }

  /** Growing keeps the invariant and the live slots; each store keeps its
      old floats as a prefix, every old slot reads as before, and the new
      floats are zero. */
  lemma ExpandSpec(m: Slots, n: nat)
    requires Wf(m) && m.size <= n
    ensures Wf(Expand(m, n)) && Live(Expand(m, n)) == Live(m)
    ensures forall k :: 0 <= k < |m.data| ==>
      Expand(m, n).data[k][..|m.data[k]|] == m.data[k] && ZeroFrom(Expand(m, n).data[k], |m.data[k]|)
    ensures forall k, i: nat :: 0 <= k < |m.data| && i < m.size ==> At(Expand(m, n), k, i) == At(m, k, i)
  {
    var r := Expand(m, n);
    GrowInside(m, n);
    forall k | 0 <= k < |m.data|
      ensures r.data[k][..|m.data[k]|] == m.data[k] && ZeroFrom(r.data[k], |m.data[k]|)
      ensures forall i: nat :: i < m.size ==> At(r, k, i) == At(m, k, i)
      ensures ZeroFrom(r.data[k], m.head * Width(m.kinds[k]))
    {
      var w := Width(m.kinds[k]);
      GrownSlot(m.data[k], n * w, w, m.head * w);
      forall i: nat | i < m.size
        ensures At(r, k, i) == At(m, k, i)
      {
        SlotInside(m, i);
      }
    }
    forall j | 0 <= j < |m.freed|
      ensures ZeroSlot(r, m.freed[j])
    {
      assert ZeroSlot(m, m.freed[j]);
    }
  }

  /** A write through the view of store `k` of the object at slot `i` (a
      view's setter): that slot's window in store `k` takes `values`. */
  ghost function Write(m: Slots, k: nat, i: nat, values: seq<real>): (r: Slots)
    requires Shaped(m) && k < |m.data| && i < m.size && |values| == Width(m.kinds[k])
    ensures Shaped(r) && r.kinds == m.kinds && r.size == m.size && r.head == m.head && r.freed == m.freed
  {
    SlotInside(m, i);
    var w := Width(m.kinds[k]);
    m.(data := m.data[k := Overwrite(m.data[k], Range(i * w, (i + 1) * w), values)])
  }

  lemma WriteWf(m: Slots, k: nat, i: nat, values: seq<real>)
    requires Wf(m) && k < |m.data| && i in Live(m) && |values| == Width(m.kinds[k])
    ensures Wf(Write(m, k, i, values))
  {
    WriteSpec(m, k, i, values);
  }

  /** Writing through a live object's view keeps the invariant and the live
      slots; the slot reads the written values in that store, and every
      other slot of every store keeps its floats. */
  lemma WriteSpec(m: Slots, k: nat, i: nat, values: seq<real>)
    requires Wf(m) && k < |m.data| && i in Live(m) && |values| == Width(m.kinds[k])
    ensures Wf(Write(m, k, i, values)) && Live(Write(m, k, i, values)) == Live(m)
    ensures At(Write(m, k, i, values), k, i) == values
    ensures forall k', i': nat :: 0 <= k' < |m.data| && i' < m.size && (k' != k || i' != i) ==>
      At(Write(m, k, i, values), k', i') == At(m, k', i')
  {
    var r := Write(m, k, i, values);
    WriteSlots(m, k, i, values);
    forall j | 0 <= j < |m.freed|
      ensures ZeroSlot(r, m.freed[j])
    {
      assert ZeroSlot(m, m.freed[j]);
    }
    var w := Width(m.kinds[k]);
    MulMonotone(i + 1, m.head, w);
    OverwriteKeepsZeroFrom(m.data[k], w, i, values, m.head * w);
  }

  lemma WriteSlots(m: Slots, k: nat, i: nat, values: seq<real>)
    requires Shaped(m) && k < |m.data| && i < m.size && |values| == Width(m.kinds[k])
    ensures At(Write(m, k, i, values), k, i) == values
    ensures forall k', i': nat :: 0 <= k' < |m.data| && i' < m.size && (k' != k || i' != i) ==>
      At(Write(m, k, i, values), k', i') == At(m, k', i')
  {
    var r := Write(m, k, i, values);
    var w := Width(m.kinds[k]);
    SlotInside(m, i);
    OverwriteOwnSlot(m.data[k], w, i, values);
    forall k', i': nat | 0 <= k' < |m.data| && i' < m.size && (k' != k || i' != i)
      ensures At(r, k', i') == At(m, k', i')
    {
      SlotInside(m, i');
      if k' == k {
        OverwriteOtherSlot(m.data[k], w, i, i', values);
      }
    }
  }

  /** `acquire`: the most recently released slot if there is one, else the
      next new slot, else the same after doubling the pool.  Returns the
      new pool and the slot handed out. */
  ghost function Acquire(m: Slots): (r: (Slots, nat))
    requires Wf(m)
    ensures Wf(r.0) && r.0.kinds == m.kinds && m.head <= r.0.head && m.size <= r.0.size && r.1 < r.0.head
    ensures m.freed == [] && m.head < m.size ==> r == (MakeNext(m), m.head)
    decreases if m.freed != [] then 0 else if m.head < m.size then 1 else 2
  {
    if m.freed != [] then
      (m.(freed := m.freed[..|m.freed| - 1]), m.freed[|m.freed| - 1])
    else if m.head < m.size then
      (MakeNext(m), m.head)
    else
      ExpandWf(m, Doubled(m.size));
      Acquire(Expand(m, Doubled(m.size)))
  }

  /** The pool after making the slot at the counter and moving past it. */
  ghost function MakeNext(m: Slots): (r: Slots)
    requires Wf(m) && m.head < m.size
    ensures Wf(r) && r.kinds == m.kinds && r.size == m.size && r.head == m.head + 1
  {
    MakeWf(m);
    Make(m, m.head).(head := m.head + 1)
  }

  /** With nothing released and room at the counter, `acquire` makes the
      slot at the counter. */
  lemma AcquireMakes(m: Slots)
    requires Wf(m) && m.freed == [] && m.head < m.size
    ensures Acquire(m) == (Make(m, m.head).(head := m.head + 1), m.head)
  {
    assert MakeNext(m) == Make(m, m.head).(head := m.head + 1);
  }

  /** With nothing released and the pool full, `acquire` doubles the
      pool and acquires from the doubled one. */
  lemma AcquireExpands(m: Slots)
    requires Wf(m) && m.freed == [] && m.head == m.size
    ensures Wf(Expand(m, Doubled(m.size)))
    ensures Acquire(m) == Acquire(Expand(m, Doubled(m.size)))
  {
    ExpandWf(m, Doubled(m.size));
  }

  /** With a released slot on the list, `acquire` pops it: the slot comes
      back reading zero and nothing else changes. */
  lemma AcquireRecycled(m: Slots)
    requires Wf(m) && m.freed != []
    ensures Acquire(m) == (m.(freed := m.freed[..|m.freed| - 1]), m.freed[|m.freed| - 1])
    ensures ZeroSlot(m, Acquire(m).1)
  {
    assert ZeroSlot(m, m.freed[|m.freed| - 1]);
  }

  /** With nothing released, `acquire` hands out the slot at the counter,
      doubling the pool first when it is full: the slot holds its kind's
      initial contents and every other slot below the counter keeps its
      floats. */
  lemma AcquireNew(m: Slots)
    requires Wf(m) && m.freed == []
    ensures Acquire(m).1 == m.head && Acquire(m).0.head == m.head + 1 && Acquire(m).0.freed == []
    ensures Acquire(m).0.size == if m.head < m.size then m.size else Doubled(m.size)
    ensures forall k :: 0 <= k < |m.data| ==> At(Acquire(m).0, k, m.head) == InitialContents(m.kinds[k])
    ensures forall k, i: nat :: 0 <= k < |m.data| && i < m.head ==> At(Acquire(m).0, k, i) == At(m, k, i)
  {
    if m.head < m.size {
      MakeSpec(m);
    } else {
      var e := Expand(m, Doubled(m.size));
      ExpandSpec(m, Doubled(m.size));
      MakeSpec(e);
    }
  }

  /** Popping the most recent released slot makes it, and only it, live
      again. */
  lemma PopLive(m: Slots)
    requires Wf(m) && m.freed != []
    ensures m.freed[|m.freed| - 1] !in Live(m)
    ensures Live(m.(freed := m.freed[..|m.freed| - 1])) == Live(m) + {m.freed[|m.freed| - 1]}
  {
    var f := m.freed;
    var last := f[|f| - 1];
    assert f == f[..|f| - 1] + [last];
    forall j | 0 <= j < |f| - 1
      ensures f[j] != last
    {
    }
    assert last !in f[..|f| - 1];
  }

  /** What `acquire` promises about liveness: the counter never goes back,
      the slot handed out was released or never used, and it is the one
      slot that becomes live, so no live slot is handed out twice; every
      slot that was live keeps its floats. */
  lemma AcquireSpec(m: Slots)
    requires Wf(m)
    ensures Acquire(m).0.head >= m.head && Acquire(m).0.size >= m.size
    ensures Acquire(m).1 in m.freed || Acquire(m).1 == m.head
    ensures Acquire(m).1 !in Live(m) && Live(Acquire(m).0) == Live(m) + {Acquire(m).1}
    ensures forall k, i: nat :: 0 <= k < |m.data| && i in Live(m) ==> At(Acquire(m).0, k, i) == At(m, k, i)
  {
    if m.freed != [] {
      AcquirePopsLive(m);
    } else {
      AcquireNewLive(m);
    }
  }

  /** `AcquireSpec` when a released slot is popped. */
  lemma AcquirePopsLive(m: Slots)
    requires Wf(m) && m.freed != []
    ensures Acquire(m).1 in m.freed
    ensures Acquire(m).1 !in Live(m) && Live(Acquire(m).0) == Live(m) + {Acquire(m).1}
    ensures Acquire(m).0.data == m.data && Acquire(m).0.size == m.size && Acquire(m).0.head == m.head
  {
    AcquireRecycled(m);
    PopLive(m);
  }

  /** `AcquireSpec` when the slot at the counter is handed out. */
  lemma AcquireNewLive(m: Slots)
    requires Wf(m) && m.freed == []
    ensures Acquire(m).1 == m.head && Acquire(m).1 !in Live(m)
    ensures Live(Acquire(m).0) == Live(m) + {m.head}
    ensures forall k, i: nat :: 0 <= k < |m.data| && i < m.head ==> At(Acquire(m).0, k, i) == At(m, k, i)
  {
    AcquireNew(m);
    assert Live(Acquire(m).0) == Live(m) + {m.head};
  }

  /** Releasing a live slot and acquiring again hands the same slot back,
      zeroed, with the recycle list as it was. */
  lemma ReleaseThenAcquire(m: Slots, i: nat)
    requires Wf(m) && i in Live(m)
    ensures Wf(Release(m, i))
    ensures Acquire(Release(m, i)).1 == i && Acquire(Release(m, i)).0.freed == m.freed
    ensures ZeroSlot(Acquire(Release(m, i)).0, i)
  {
    ReleaseSpec(m, i);
    var r := Release(m, i);
    assert r.freed[..|r.freed| - 1] == m.freed;
  }
}
