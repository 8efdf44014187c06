/** The instanced-sprite slot pool (the source's `DynamicVAO`): one store
    per resolved channel, a shared slot counter `head`, a LIFO list of
    released handles, growth by doubling with every issued handle rebased,
    and the prepare/draw protocol against the device. */
module Pool {
  import opened Gl
  import opened ChannelStore
  import opened Binding
  import opened PoolSpec
  import opened SlotPool

  /** `at` gives each store its position, so no two positions share a
      store. */
  ghost predicate Placed(ds: seq<DVBO>, at: map<DVBO, nat>)
  {
    forall k :: 0 <= k < |ds| ==> ds[k] in at && at[ds[k]] == k
  }

  /** `bufAt` gives each store's buffer its position, so no two positions
      share a buffer. */
  ghost predicate BuffersPlaced(ds: seq<DVBO>, bufAt: map<array<real>, nat>)
  {
    forall k :: 0 <= k < |ds| ==> ds[k].a in bufAt && bufAt[ds[k].a] == k
  }

  /** The stores `ds` stand for the resolved channels `rs`, one each and in
      order: `size` slots of the channel's kind and dynamism, no two
      sharing a store object or a buffer. */
  ghost predicate Built(ds: seq<DVBO>, rs: seq<Channel>, size: nat,
                        at: map<DVBO, nat>, bufAt: map<array<real>, nat>)
  {
    |ds| == |rs| && Placed(ds, at) && BuffersPlaced(ds, bufAt) &&
    forall k :: 0 <= k < |ds| ==>
      ds[k].Valid() && ds[k].nElements == size &&
      rs[k].ctype == Typed(ds[k].kind) && ds[k].dynamic == EffectiveDynamic(rs[k])
  }

  /** A new store: zero-filled, not yet on the device, needing an update
      exactly when it is dynamic. */
  ghost predicate NewStore(d: DVBO)
    reads d, d.a
  {
    d.a[..] == Zeros(d.a.Length) && !d.created && d.mustUpdate == d.dynamic
  }

  /** The floats of each store, in order. */
  ghost function Contents(ds: seq<DVBO>): (d: seq<seq<real>>)
    reads set k | 0 <= k < |ds| :: ds[k].a
    ensures |d| == |ds| && forall k :: 0 <= k < |ds| ==> d[k] == ds[k].a[..]
  {
    seq(|ds|, k requires 0 <= k < |ds| reads if 0 <= k < |ds| then {ds[k].a} else {} => ds[k].a[..])
  }

  /** The upload state of each store, in order. */
  ghost function States(ds: seq<DVBO>): (ss: seq<StoreState>)
    reads set k | 0 <= k < |ds| :: ds[k]
    reads set k | 0 <= k < |ds| :: ds[k].a
    ensures |ss| == |ds| && forall k :: 0 <= k < |ds| ==> ss[k] == ds[k].State()
  {
    seq(|ds|, k requires 0 <= k < |ds| reads if 0 <= k < |ds| then {ds[k], ds[k].a} else {} => ds[k].State())
  }

  /** The arrays of `ds` hold `data`, store by store. */
  ghost predicate Holding(ds: seq<DVBO>, data: seq<seq<real>>)
    reads set k | 0 <= k < |ds| :: ds[k].a
  {
    |ds| == |data| && forall k :: 0 <= k < |ds| ==> ds[k].a[..] == data[k]
  }

  /** The stores `ds` are new, zero-filled and named in order from `first`. */
  ghost predicate NamedFrom(ds: seq<DVBO>, first: nat)
    reads set k | 0 <= k < |ds| :: ds[k]
    reads set k | 0 <= k < |ds| :: ds[k].a
  {
    forall k :: 0 <= k < |ds| ==> NewStore(ds[k]) && ds[k].vbo == first + k
  }

  /** The stores `ds` are not yet on the device, each needs an update
      exactly when it is dynamic, and they are named in order from `first`. */
  ghost predicate Unsynced(ds: seq<DVBO>, first: nat)
    reads set k | 0 <= k < |ds| :: ds[k]
  {
    forall k :: 0 <= k < |ds| ==> !ds[k].created && ds[k].mustUpdate == ds[k].dynamic && ds[k].vbo == first + k
  }

  /** One pass of the store-building loop: channel `c` gets a new store
      exactly when it has a location and a store type. */
  method BuildStep(gl: Device, c: Channel, located: bool, newSize: nat, ds: seq<DVBO>, ghost rs: seq<Channel>,
                   ghost at: map<DVBO, nat>, ghost bufAt: map<array<real>, nat>, ghost first: nat, ghost log0: seq<Event>)
    returns (ds': seq<DVBO>, ghost at': map<DVBO, nat>, ghost bufAt': map<array<real>, nat>)
    requires Built(ds, rs, newSize, at, bufAt) && NamedFrom(ds, first)
    requires gl.nextBuffer == first + |ds| && gl.log == log0 + BufferCreations(first, |ds|)
    modifies gl
    ensures Built(ds', rs + if located && c.ctype.Typed? then [c] else [], newSize, at', bufAt') && NamedFrom(ds', first)
    ensures |ds| <= |ds'| && ds'[..|ds|] == ds
    ensures forall k :: |ds| <= k < |ds'| ==> fresh(ds'[k]) && fresh(ds'[k].a)
    ensures forall b :: b in bufAt' ==> b in bufAt || fresh(b)
    ensures forall d :: d in at' ==> d in at || fresh(d)
    ensures gl.nextVertexArray == old(gl.nextVertexArray)
    ensures gl.nextBuffer == first + |ds'| && gl.log == log0 + BufferCreations(first, |ds'|)
  {
    ds', at', bufAt' := ds, at, bufAt;
    if located && c.ctype.Typed? {
      var d := new DVBO(gl, c.ctype.kind, newSize, EffectiveDynamic(c));
      BufferCreationsStep(first, |ds|);
      ds', at', bufAt' := ds + [d], at[d := |ds|], bufAt[d.a := |ds|];
    }
  }

  /** The store-building loop of `construct`: channels without a location
      are skipped, every other one gets a new store of its kind, and the
      stores take consecutive buffer names. */
  method BuildStores(gl: Device, channels: seq<Channel>, locations: map<string, Location>, newSize: nat)
    returns (ds: seq<DVBO>, ghost at: map<DVBO, nat>, ghost bufAt: map<array<real>, nat>)
    modifies gl
    ensures Built(ds, Resolved(channels, locations), newSize, at, bufAt) && fresh(bufAt.Keys) && fresh(at.Keys)
    ensures forall k :: 0 <= k < |ds| ==> fresh(ds[k]) && fresh(ds[k].a)
    ensures NamedFrom(ds, old(gl.nextBuffer))
    ensures gl.nextVertexArray == old(gl.nextVertexArray) && gl.nextBuffer == old(gl.nextBuffer) + |ds|
    ensures gl.log == old(gl.log) + BufferCreations(old(gl.nextBuffer), |ds|)
  {
    ghost var first := gl.nextBuffer;
    ghost var log0 := gl.log;
    ds, at, bufAt := [], map[], map[];
    var i := 0;
    while i < |channels|
      invariant 0 <= i <= |channels|
      invariant Built(ds, Resolved(channels[..i], locations), newSize, at, bufAt) && fresh(bufAt.Keys) && fresh(at.Keys)
      invariant forall k :: 0 <= k < |ds| ==> fresh(ds[k]) && fresh(ds[k].a)
      invariant NamedFrom(ds, first)
      invariant gl.nextVertexArray == old(gl.nextVertexArray)
      invariant gl.nextBuffer == first + |ds| && gl.log == log0 + BufferCreations(first, |ds|)
    {
      ResolvedStep(channels, i, locations);
      ds, at, bufAt := BuildStep(gl, channels[i], channels[i].name in locations, newSize, ds,
                                 Resolved(channels[..i], locations), at, bufAt, first, log0);
      i := i + 1;
    }
    assert channels[..i] == channels;
  }

  /** The buffer deletions of `delete`, store by store. */
  method DeleteBuffers(gl: Device, ds: seq<DVBO>)
    modifies gl`log
    ensures gl.log == old(gl.log) + seq(|ds|, k requires 0 <= k < |ds| => BufferDeleted(ds[k].vbo))
  {
    ghost var log0 := gl.log;
    var i := 0;
    while i < |ds|
      invariant 0 <= i <= |ds|
      invariant gl.log == log0 + seq(i, k requires 0 <= k < i => BufferDeleted(ds[k].vbo))
    {
      ds[i].Delete(gl);
      i := i + 1;
    }
  }

  /** One pass of the pool's `prepare` loop: the store is flagged if a
      refresh is pending, then synced. */
  method RefreshAndPrepare(gl: Device, d: DVBO, refresh: bool, ghost s: StoreState, ghost t: StoreState, ghost e: seq<Event>)
    requires d.State() == s && (t, e) == Prepared(Refreshed(s, refresh))
    modifies d`created, d`mustUpdate, gl`log
    ensures d.State() == t
    ensures gl.log == old(gl.log) + e
  {
    if refresh {
      d.mustUpdate := true;
    }
    d.Prepare(gl);
  }

  method PrepareStep(gl: Device, ds: seq<DVBO>, i: nat, refresh: bool, ghost ss0: seq<StoreState>,
                     ghost after: seq<StoreState>, ghost ev: seq<seq<Event>>, ghost at: map<DVBO, nat>, ghost log0: seq<Event>)
    requires Placed(ds, at)
    requires i < |ss0| == |ds| == |after| == |ev|
    requires forall k :: 0 <= k < |ds| ==> (after[k], ev[k]) == Prepared(Refreshed(ss0[k], refresh))
    requires forall k :: 0 <= k < |ds| ==> ds[k].State() == if k < i then after[k] else ss0[k]
    requires gl.log == log0 + Concat(ev[..i])
    modifies gl`log, at.Keys
    ensures forall k :: 0 <= k < |ds| ==> ds[k].State() == if k < i + 1 then after[k] else ss0[k]
    ensures gl.log == log0 + Concat(ev[..i + 1])
  {
    RefreshAndPrepare(gl, ds[i], refresh, ss0[i], after[i], ev[i]);
    ConcatStep(ev, i, log0);
  }

  /** The loop of the pool's `prepare` over the stores, in key order. */
  method PrepareEach(gl: Device, ds: seq<DVBO>, refresh: bool, ghost ss0: seq<StoreState>,
                     ghost after: seq<StoreState>, ghost ev: seq<seq<Event>>, ghost at: map<DVBO, nat>)
    requires Placed(ds, at)
    requires |ss0| == |ds| == |after| == |ev|
    requires forall k :: 0 <= k < |ds| ==> (after[k], ev[k]) == Prepared(Refreshed(ss0[k], refresh))
    requires forall k :: 0 <= k < |ds| ==> ds[k].State() == ss0[k]
    modifies gl`log, at.Keys
    ensures forall k :: 0 <= k < |ds| ==> ds[k].State() == after[k]
    ensures gl.log == old(gl.log) + Concat(ev)
  {
    ghost var log0 := gl.log;
    var i := 0;
    while i < |ds|
      invariant 0 <= i <= |ds|
      invariant forall k :: 0 <= k < |ds| ==> ds[k].State() == if k < i then after[k] else ss0[k]
      invariant gl.log == log0 + Concat(ev[..i])
    {
      PrepareStep(gl, ds, i, refresh, ss0, after, ev, at, log0);
      i := i + 1;
    }
    assert ev[..i] == ev;
  }

  /** The pool's `prepare` over the stores `ds`, in key order. */
  method PrepareStores(gl: Device, ds: seq<DVBO>, refresh: bool, ghost at: map<DVBO, nat>)
    requires Placed(ds, at)
    modifies gl`log, at.Keys
    ensures States(ds) == PreparedStates(old(States(ds)), refresh)
    ensures gl.log == old(gl.log) + PrepareLog(old(States(ds)), refresh)
  {
    ghost var ss0 := States(ds);
    PrepareEach(gl, ds, refresh, ss0, PreparedStates(ss0, refresh), PrepareCalls(ss0, refresh), at);
  }

  /** Every store is valid and slot `index` lies inside its buffer. */
  ghost predicate SlotFits(ds: seq<DVBO>, index: nat)
  {
    forall k :: 0 <= k < |ds| ==> ds[k].Valid() && (index + 1) * ds[k].elementSize <= ds[k].a.Length
  }

  method AcquireStep(ds: seq<DVBO>, k: nat, index: nat, ghost bufAt: map<array<real>, nat>, ghost d0: seq<seq<real>>)
    returns (v: View)
    requires BuffersPlaced(ds, bufAt) && SlotFits(ds, index) && k < |ds| == |d0|
    requires forall j :: 0 <= j < |ds| ==> |d0[j]| == ds[j].a.Length
    requires forall j :: 0 <= j < |ds| ==> ds[j].a[..] == if j < k then Made(d0[j], ds[j].kind, index) else d0[j]
    modifies bufAt.Keys
    ensures v == View(ds[k], index)
    ensures forall j :: 0 <= j < |ds| ==> ds[j].a[..] == if j < k + 1 then Made(d0[j], ds[j].kind, index) else d0[j]
  {
    assert ds[k].Subarray(index) == Range(index * Width(ds[k].kind), (index + 1) * Width(ds[k].kind));
    v := ds[k].Acquire(index);
  }

  /** The loop of `make_object`: each store hands out a view of slot
      `index`, in key order. */
  method AcquireViews(ds: seq<DVBO>, index: nat, ghost bufAt: map<array<real>, nat>) returns (views: seq<View>)
    requires BuffersPlaced(ds, bufAt) && SlotFits(ds, index)
    modifies bufAt.Keys
    ensures |views| == |ds| && forall k :: 0 <= k < |ds| ==> views[k] == View(ds[k], index)
    ensures forall k :: 0 <= k < |ds| ==> ds[k].a[..] == Made(old(ds[k].a[..]), ds[k].kind, index)
  {
    ghost var d0 := Contents(ds);
    views := [];
    var k := 0;
    while k < |ds|
      invariant k <= |ds| && |views| == k
      invariant forall j :: 0 <= j < |ds| ==> |d0[j]| == ds[j].a.Length
      invariant forall j :: 0 <= j < k ==> views[j] == View(ds[j], index)
      invariant forall j :: 0 <= j < |ds| ==> ds[j].a[..] == if j < k then Made(d0[j], ds[j].kind, index) else d0[j]
    {
      var v := AcquireStep(ds, k, index, bufAt, d0);
      views := views + [v];
      k := k + 1;
    }
  }

  method ClearStep(views: seq<View>, ds: seq<DVBO>, k: nat, ghost index: nat, ghost bufAt: map<array<real>, nat>, ghost d0: seq<seq<real>>)
    requires BuffersPlaced(ds, bufAt) && SlotFits(ds, index) && k < |ds| == |d0| == |views|
    requires forall j :: 0 <= j < |ds| ==> |d0[j]| == ds[j].a.Length
    requires forall j :: 0 <= j < |ds| ==> views[j] == View(ds[j], index)
    requires forall j :: 0 <= j < |ds| ==>
      ds[j].a[..] == if j < k then Cleared(d0[j], ds[j].elementSize, index) else d0[j]
    modifies bufAt.Keys
    ensures forall j :: 0 <= j < |ds| ==>
      ds[j].a[..] == if j < k + 1 then Cleared(d0[j], ds[j].elementSize, index) else d0[j]
  {
    var v := views[k];
    v.store.WriteWindow(v.index, Zeros(v.store.elementSize));
  }

  /** The loop of `relenquish`: zero is written through every view of a
      handle whose views window into slot `index` of `ds`. */
  method ClearViews(views: seq<View>, ds: seq<DVBO>, ghost index: nat, ghost bufAt: map<array<real>, nat>)
    requires BuffersPlaced(ds, bufAt) && SlotFits(ds, index) && |views| == |ds|
    requires forall j :: 0 <= j < |ds| ==> views[j] == View(ds[j], index)
    modifies bufAt.Keys
    ensures forall k :: 0 <= k < |ds| ==> ds[k].a[..] == Cleared(old(ds[k].a[..]), ds[k].elementSize, index)
  {
    ghost var d0 := Contents(ds);
    var k := 0;
    while k < |views|
      invariant k <= |views|
      invariant forall j :: 0 <= j < |ds| ==> |d0[j]| == ds[j].a.Length
      invariant forall j :: 0 <= j < |ds| ==>
        ds[j].a[..] == if j < k then Cleared(d0[j], ds[j].elementSize, index) else d0[j]
    {
      ClearStep(views, ds, k, index, bufAt, d0);
      k := k + 1;
    }
  }

  /** A write through view `k` of a handle whose views window into slot
      `index` of `ds`: only that window of store `k` changes. */
  method WriteView(views: seq<View>, ds: seq<DVBO>, k: nat, ghost index: nat, ghost bufAt: map<array<real>, nat>, values: seq<real>)
    requires BuffersPlaced(ds, bufAt) && SlotFits(ds, index) && k < |ds| == |views|
    requires forall j :: 0 <= j < |ds| ==> views[j] == View(ds[j], index)
    requires |values| == ds[k].elementSize
    modifies bufAt.Keys
    ensures forall j :: 0 <= j < |ds| ==>
      ds[j].a[..] == if j == k then Overwrite(old(ds[j].a[..]), Range(index * ds[j].elementSize, (index + 1) * ds[j].elementSize), values)
                     else old(ds[j].a[..])
  {
    var v := views[k];
    v.store.WriteWindow(v.index, values);
  }

  /** The inner loop of `expand`'s rebasing: every view of `h` is
      re-pointed at slot `index` of the store of its key. */
  method RebaseHandle(h: Handle, ds: seq<DVBO>, index: nat)
    requires |h.views| == |ds|
    modifies h
    ensures |h.views| == |ds| && forall k :: 0 <= k < |ds| ==> h.views[k] == View(ds[k], index)
  {
    var k := 0;
    while k < |ds|
      invariant k <= |ds| == |h.views|
      invariant forall j :: 0 <= j < k ==> h.views[j] == View(ds[j], index)
    {
      ds[k].Rebase(index, h, k);
      k := k + 1;
    }
  }

  /** The outer loop of `expand`'s rebasing: handle `hs[i]` is rebased to
      slot `i` of the stores `ds`. */
  method RebaseAll(hs: seq<Handle>, ds: seq<DVBO>, ghost indexOf: map<Handle, nat>)
    requires forall i :: 0 <= i < |hs| ==> hs[i] in indexOf && indexOf[hs[i]] == i && |hs[i].views| == |ds|
    modifies indexOf.Keys
    ensures forall i :: 0 <= i < |hs| ==>
      |hs[i].views| == |ds| && forall k :: 0 <= k < |ds| ==> hs[i].views[k] == View(ds[k], i)
  {
    var i := 0;
    while i < |hs|
      invariant i <= |hs|
      invariant forall j :: 0 <= j < |hs| ==> |hs[j].views| == |ds|
      invariant forall j :: 0 <= j < i ==> forall k :: 0 <= k < |ds| ==> hs[j].views[k] == View(ds[k], j)
    {
      RebaseHandle(hs[i], ds, i);
      i := i + 1;
    }
  }

  method CopyStep(ds: seq<DVBO>, olds: seq<DVBO>, k: nat, ghost d0: seq<seq<real>>,
                  ghost bufAt: map<array<real>, nat>, ghost oldBufs: set<array<real>>)
    requires BuffersPlaced(ds, bufAt) && k < |ds| == |olds| == |d0|
    requires forall j :: 0 <= j < |olds| ==> olds[j].a in oldBufs && ds[j].a !in oldBufs
    requires forall j :: 0 <= j < |ds| ==> olds[j].a[..] == d0[j] && |d0[j]| <= ds[j].a.Length
    requires forall j :: 0 <= j < |ds| ==>
      ds[j].a[..] == if j < k then Grown(d0[j], ds[j].a.Length) else Zeros(ds[j].a.Length)
    modifies bufAt.Keys
    ensures forall j :: 0 <= j < |ds| ==> olds[j].a[..] == d0[j]
    ensures forall j :: 0 <= j < |ds| ==>
      ds[j].a[..] == if j < k + 1 then Grown(d0[j], ds[j].a.Length) else Zeros(ds[j].a.Length)
  {
    ds[k].CopyFrom(olds[k]);
    Split(ds[k].a[..], d0[k], Zeros(ds[k].a.Length - |d0[k]|));
  }

  /** The copy loop of `expand`: each new store takes the old store of the
      same key as the prefix of its zero-filled buffer. */
  method CopyAll(ds: seq<DVBO>, olds: seq<DVBO>, ghost d0: seq<seq<real>>,
                 ghost bufAt: map<array<real>, nat>, ghost oldBufs: set<array<real>>)
    requires BuffersPlaced(ds, bufAt) && |ds| == |olds| == |d0|
    requires forall j :: 0 <= j < |olds| ==> olds[j].a in oldBufs && ds[j].a !in oldBufs
    requires forall j :: 0 <= j < |ds| ==> olds[j].a[..] == d0[j] && |d0[j]| <= ds[j].a.Length
    requires forall j :: 0 <= j < |ds| ==> ds[j].a[..] == Zeros(ds[j].a.Length)
    modifies bufAt.Keys
    ensures forall j :: 0 <= j < |ds| ==> ds[j].a[..] == Grown(d0[j], ds[j].a.Length)
  {
    var k := 0;
    while k < |olds|
      invariant k <= |olds|
      invariant forall j :: 0 <= j < |ds| ==> olds[j].a[..] == d0[j]
      invariant forall j :: 0 <= j < |ds| ==>
        ds[j].a[..] == if j < k then Grown(d0[j], ds[j].a.Length) else Zeros(ds[j].a.Length)
    {
      CopyStep(ds, olds, k, d0, bufAt, oldBufs);
      k := k + 1;
    }
  }

  /** The kind of each store, in order. */
  ghost function KindsOf(ds: seq<DVBO>): (ks: seq<Kind>)
    ensures |ks| == |ds| && forall k :: 0 <= k < |ds| ==> ks[k] == ds[k].kind
  {
    seq(|ds|, k requires 0 <= k < |ds| => ds[k].kind)
  }

  class DynamicVAO {
    const channels: seq<Channel>
    const locations: map<string, Location>
    const malformedNames: set<string>
    /** The channels that have a store, in the store map's key order. */
    const resolved: seq<Channel> := Resolved(channels, locations)
    /** The store map in key order: `stores[k]` is the store of `resolved[k]`. */
    var stores: seq<DVBO>
    var vao: nat
    var size: nat
    var head: nat
    /** The released objects, most recent last. */
    var recycled: seq<Handle>
    /** The object-to-index map in insertion order: its `i`-th entry maps
        `issued[i]` to slot `i`. */
    var issued: seq<Handle>
    var refreshRequested: bool
    /** The position of each current store and of each current buffer. */
    ghost var StoreAt: map<DVBO, nat>
    ghost var BufferAt: map<array<real>, nat>
    /** The slot of each issued object. */
    ghost var IndexOf: map<Handle, nat>
    /** The pool as a value: the floats, the counter and the released slots. */
    ghost var Model: Slots

    /** Every channel has a store, so `make_object` finds one for each of
        them. */
    ghost predicate AllResolved()
    {
      resolved == channels
    }

    ghost predicate StoresValid()
      reads this`stores, this`size, this`StoreAt, this`BufferAt
    {
      Built(stores, resolved, size, StoreAt, BufferAt)
    }

    /** The stores hold exactly the floats of the model, store by store. */
    ghost predicate Holds()
      reads this`stores, this`size, this`StoreAt, this`BufferAt, this`Model, BufferAt.Keys
      requires StoresValid()
    {
      Model.size == size && |Model.data| == |stores| && Model.kinds == KindsOf(stores) &&
      forall k :: 0 <= k < |stores| ==> stores[k].a[..] == Model.data[k]
    }

    /** The views of `h` window into the current stores at slot `i`. */
    ghost predicate Rebased(h: Handle, i: nat)
      reads this`stores, h
    {
      |h.views| == |stores| && forall k :: 0 <= k < |stores| ==> h.views[k] == View(stores[k], i)
    }

    /** Issued object `i` holds slot `i` and is rebased, so exactly the
        slots below `head` are issued, each to one object; the recycle list
        holds the objects of the model's released slots. */
    ghost predicate HandlesValid()
      reads this`stores, this`head, this`issued, this`recycled, this`IndexOf, this`Model, IndexOf.Keys
    {
      Model.head == head && |issued| == head &&
      (forall i :: 0 <= i < |issued| ==> issued[i] in IndexOf && IndexOf[issued[i]] == i && Rebased(issued[i], i)) &&
      |recycled| == |Model.freed| &&
      (forall j :: 0 <= j < |recycled| ==> Model.freed[j] < |issued| && recycled[j] == issued[Model.freed[j]])
    }

    /** The object bookkeeping alone: issued object `i` is registered at
        index `i` with `n` views, and the recycle list holds the objects of
        the model's released slots. */
    ghost predicate Registered(n: nat)
      reads this`head, this`issued, this`recycled, this`IndexOf, this`Model, IndexOf.Keys
    {
      Model.head == head && |issued| == head &&
      (forall i :: 0 <= i < |issued| ==> issued[i] in IndexOf && IndexOf[issued[i]] == i && |issued[i].views| == n) &&
      |recycled| == |Model.freed| &&
      (forall j :: 0 <= j < |recycled| ==> Model.freed[j] < |issued| && recycled[j] == issued[Model.freed[j]])
    }

    ghost predicate Valid()
      reads this`stores, this`size, this`StoreAt, this`BufferAt, this`head, this`issued, this`recycled
      reads this`IndexOf, this`Model, BufferAt.Keys, IndexOf.Keys
    {
      StoresValid() && Holds() && HandlesValid() && Wf(Model)
    }

    /** The device buffer names of the stores, in key order. */
    function Vbos(): (v: seq<nat>)
      reads this`stores
      ensures |v| == |stores| && forall k :: 0 <= k < |stores| ==> v[k] == stores[k].vbo
    {
      var ds := stores;
      seq(|ds|, k requires 0 <= k < |ds| => ds[k].vbo)
    }

    /** A new pool: channels bound, one zero-filled store per resolved
        channel, no slot handed out, nothing pending. */
    constructor (gl: Device, channels: seq<Channel>, attribLocation: string -> int, size: nat := 1)
      requires DistinctNames(channels)
      modifies gl
      ensures Valid() && Model == Empty(Model.kinds, size)
      ensures this.channels == channels && this.size == size
      ensures forall c :: c in channels ==> BoundAs(c, attribLocation, locations, malformedNames)
      ensures locations.Keys + malformedNames == (set c | c in channels :: c.name)
      ensures head == 0 && recycled == [] && issued == [] && IndexOf == map[] && !refreshRequested
      ensures fresh(BufferAt.Keys) && fresh(StoreAt.Keys)
      ensures NamedFrom(stores, old(gl.nextBuffer)) && Unsynced(stores, old(gl.nextBuffer))
      ensures vao == old(gl.nextVertexArray) && gl.nextVertexArray == vao + 1
      ensures gl.nextBuffer == old(gl.nextBuffer) + |resolved|
      ensures gl.log == old(gl.log) + [VertexArrayCreated(vao)] + BufferCreations(old(gl.nextBuffer), |resolved|)
    {
      this.channels := channels;
      var locs, bad := BindChannels(channels, attribLocation);
      locations := locs;
      malformedNames := bad;
      recycled := [];
      issued := [];
      this.size := size;
      head := 0;
      refreshRequested := false;
      stores := [];
      vao := 0;
      StoreAt, BufferAt, IndexOf := map[], map[], map[];
      new;
      Fill(gl);
    }

    /** The stores of a pool that has issued nothing, and its model. */
    method Fill(gl: Device)
      requires head == 0 && issued == [] && recycled == []
      modifies this`stores, this`vao, this`size, this`StoreAt, this`BufferAt, this`Model, gl
      ensures Valid() && size == old(size) && Model == Empty(KindsOf(stores), size)
      ensures fresh(BufferAt.Keys) && fresh(StoreAt.Keys)
      ensures NamedFrom(stores, old(gl.nextBuffer)) && Unsynced(stores, old(gl.nextBuffer))
      ensures vao == old(gl.nextVertexArray) && gl.nextVertexArray == vao + 1
      ensures gl.nextBuffer == old(gl.nextBuffer) + |resolved|
      ensures gl.log == old(gl.log) + [VertexArrayCreated(vao)] + BufferCreations(old(gl.nextBuffer), |resolved|)
    {
      Construct(gl, size);
      Model := Empty(KindsOf(stores), size);
    }

    /** `construct`: a new vertex array and one new store of `newSize`
        zero-filled slots per resolved channel, in channel order, under
        consecutive buffer names. */
    method Construct(gl: Device, newSize: nat)
      modifies this`stores, this`vao, this`size, this`StoreAt, this`BufferAt, gl
      ensures StoresValid() && size == newSize && fresh(BufferAt.Keys) && fresh(StoreAt.Keys)
      ensures forall k :: 0 <= k < |stores| ==> fresh(stores[k]) && fresh(stores[k].a)
      ensures NamedFrom(stores, old(gl.nextBuffer)) && Unsynced(stores, old(gl.nextBuffer))
      ensures vao == old(gl.nextVertexArray) && gl.nextVertexArray == vao + 1
      ensures gl.nextBuffer == old(gl.nextBuffer) + |resolved|
      ensures gl.log == old(gl.log) + [VertexArrayCreated(vao)] + BufferCreations(old(gl.nextBuffer), |resolved|)
    {
      vao := gl.CreateVertexArray();
      var ds, at, bufAt := BuildStores(gl, channels, locations, newSize);
      stores, StoreAt, BufferAt := ds, at, bufAt;
      size := newSize;
    }

    /** Slot `index` lies inside every store. */
    lemma SlotFitsAt(index: nat)
      requires StoresValid() && index < size
      ensures SlotFits(stores, index)
    {
      forall k | 0 <= k < |stores|
        ensures (index + 1) * stores[k].elementSize <= stores[k].a.Length
      {
        MulMonotone(index + 1, size, stores[k].elementSize);
      }
    }

    /** The store half of `make_object`: each store initialises slot
        `index` and hands out its view, and the views make a new object. */
    method NewObject(index: nat) returns (h: Handle)
      requires StoresValid() && Holds() && HandlesValid() && index < size
      modifies BufferAt.Keys
      ensures fresh(h) && Rebased(h, index) && h !in IndexOf
      ensures StoresValid() && HandlesValid() && StoresKept()
      ensures forall k :: 0 <= k < |stores| ==> stores[k].a[..] == Made(Model.data[k], stores[k].kind, index)
    {
      SlotFitsAt(index);
      var views := AcquireViews(stores, index, BufferAt);
      h := new Handle(views);
    }

    /** The bookkeeping of `make_object`: the new object is recorded
        against slot `index` and the model takes the made slot. */
    method Register(h: Handle, index: nat)
      requires StoresValid() && HandlesValid() && Wf(Model) && index == head < size
      requires Model.size == size && Model.head == index && |Model.data| == |stores| && Model.kinds == KindsOf(stores)
      requires forall k :: 0 <= k < |stores| ==> stores[k].a[..] == Made(Model.data[k], stores[k].kind, index)
      requires Rebased(h, index) && h !in IndexOf
      modifies this`issued, this`IndexOf, this`head, this`Model
      ensures Valid() && head == index + 1 && issued == old(issued) + [h] && IndexOf == old(IndexOf)[h := index]
      ensures Model == Make(old(Model), index).(head := index + 1) && StoresKept()
    {
      MakeWf(Model);
      issued := issued + [h];
      IndexOf := IndexOf[h := index];
      head := head + 1;
      Model := Make(Model, index).(head := index + 1);
    }

    /** `make_object`: a new object with one view of slot `index` per store,
        recorded as the next entry of the object-to-index map. */
    method MakeObject(index: nat) returns (h: Handle)
      requires Valid() && AllResolved() && recycled == [] && index == head < size
      modifies this`head, this`issued, this`IndexOf, this`Model, BufferAt.Keys
      ensures Valid() && fresh(h) && Rebased(h, index)
      ensures head == index + 1 && issued == old(issued) + [h] && IndexOf == old(IndexOf)[h := index]
      ensures Model == Make(old(Model), index).(head := index + 1) && StoresKept()
    {
      h := NewObject(index);
      Register(h, index);
    }

    /** The vertex array, the stores and their buffers are as they were in
        the old state. */
    twostate predicate StoresKept()
      reads this, stores
    {
      vao == old(vao) && stores == old(stores) && size == old(size) &&
      BufferAt == old(BufferAt) && StoreAt == old(StoreAt) &&
      forall k :: 0 <= k < |stores| ==> unchanged(stores[k])
    }

    /** The branch of `acquire` that pops the most recently released
        object. */
    method AcquireRecycled() returns (h: Handle)
      requires Valid() && recycled != []
      modifies this`recycled, this`Model, this`refreshRequested
      ensures Valid() && refreshRequested
      ensures Model == SlotPool.Acquire(old(Model)).0
      ensures SlotPool.Acquire(old(Model)).1 < |issued| && h == issued[SlotPool.Acquire(old(Model)).1]
      ensures h == old(recycled)[|old(recycled)| - 1] && recycled == old(recycled)[..|old(recycled)| - 1]
      ensures issued == old(issued) && IndexOf == old(IndexOf) && StoresKept()
    {
      SlotPool.AcquireRecycled(Model);
      RequestRefresh();
      h := recycled[|recycled| - 1];
      recycled := recycled[..|recycled| - 1];
      Model := Model.(freed := Model.freed[..|Model.freed| - 1]);
    }

    /** The branch of `acquire` that makes the object of the next new slot. */
    method AcquireNew() returns (h: Handle)
      requires Valid() && AllResolved() && recycled == [] && head < size
      modifies this`head, this`issued, this`IndexOf, this`Model, this`refreshRequested, BufferAt.Keys
      ensures Valid() && refreshRequested
      ensures Model == SlotPool.Acquire(old(Model)).0
      ensures SlotPool.Acquire(old(Model)).1 < |issued| && h == issued[SlotPool.Acquire(old(Model)).1]
      ensures fresh(h) && recycled == [] && issued == old(issued) + [h] && IndexOf == old(IndexOf)[h := old(head)]
      ensures StoresKept()
    {
      var index := head;
      SlotPool.AcquireMakes(Model);
      RequestRefresh();
      h := MakeObject(index);
    }

    /** `acquire`: pops the most recently released object if there is one,
        else makes the object of the next new slot, doubling the pool first
        when it is full; a refresh is requested either way.  The pool moves
        as the model's `Acquire` says, and the object returned is the one
        issued for the model's slot. */
    method Acquire(gl: Device) returns (h: Handle)
      requires Valid() && AllResolved()
      modifies this`stores, this`vao, this`size, this`StoreAt, this`BufferAt, this`Model, this`head
      modifies this`recycled, this`issued, this`IndexOf, this`refreshRequested, gl, BufferAt.Keys, IndexOf.Keys
      decreases if recycled != [] then 0 else if head < size then 1 else 2, 1
      ensures Valid() && refreshRequested
      ensures Model == SlotPool.Acquire(old(Model)).0
      ensures SlotPool.Acquire(old(Model)).1 < |issued| && h == issued[SlotPool.Acquire(old(Model)).1]
      ensures fresh(BufferAt.Keys - old(BufferAt.Keys)) && fresh(StoreAt.Keys - old(StoreAt.Keys))
      ensures old(recycled) != [] ==> h == old(recycled)[|old(recycled)| - 1] && recycled == old(recycled)[..|old(recycled)| - 1]
      ensures old(recycled) == [] ==> fresh(h) && recycled == [] && issued == old(issued) + [h] && IndexOf == old(IndexOf)[h := old(head)]
      ensures old(recycled) != [] ==> issued == old(issued) && IndexOf == old(IndexOf)
      ensures old(recycled) != [] || old(head) < old(size) ==>
        StoresKept() && gl.log == old(gl.log) &&
        gl.nextBuffer == old(gl.nextBuffer) && gl.nextVertexArray == old(gl.nextVertexArray)
      ensures old(recycled) == [] && old(head) == old(size) ==>
        fresh(BufferAt.Keys) && fresh(StoreAt.Keys) &&
        gl.nextBuffer == old(gl.nextBuffer) + |resolved| && gl.nextVertexArray == old(gl.nextVertexArray) + 1 &&
        size == Doubled(old(size)) && Unsynced(stores, old(gl.nextBuffer)) &&
        gl.log == old(gl.log) + DeleteEvents(old(Vbos()), old(vao)) + [VertexArrayCreated(vao)] +
                  BufferCreations(old(gl.nextBuffer), |resolved|)
    {
      if |recycled| > 0 {
        h := AcquireRecycled();
      } else if head < size {
        h := AcquireNew();
      } else {
        h := AcquireFull(gl);
      }
    }

    /** The branch of `acquire` for a full pool: it doubles the pool and
        acquires again, which now makes the object of the next new slot. */
    method AcquireFull(gl: Device) returns (h: Handle)
      requires Valid() && AllResolved() && recycled == [] && head == size
      modifies this`stores, this`vao, this`size, this`StoreAt, this`BufferAt, this`Model, this`head
      modifies this`recycled, this`issued, this`IndexOf, this`refreshRequested, gl, BufferAt.Keys, IndexOf.Keys
      decreases 2, 0
      ensures Valid() && refreshRequested
      ensures Model == SlotPool.Acquire(old(Model)).0
      ensures SlotPool.Acquire(old(Model)).1 < |issued| && h == issued[SlotPool.Acquire(old(Model)).1]
      ensures fresh(h) && recycled == [] && issued == old(issued) + [h] && IndexOf == old(IndexOf)[h := old(head)]
      ensures fresh(BufferAt.Keys) && fresh(StoreAt.Keys)
      ensures gl.nextBuffer == old(gl.nextBuffer) + |resolved| && gl.nextVertexArray == old(gl.nextVertexArray) + 1
      ensures size == Doubled(old(size)) && Unsynced(stores, old(gl.nextBuffer))
      ensures gl.log == old(gl.log) + DeleteEvents(old(Vbos()), old(vao)) + [VertexArrayCreated(vao)] +
                        BufferCreations(old(gl.nextBuffer), |resolved|)
    {
      SlotPool.AcquireExpands(Model);
      Expand(gl, Doubled(size));
      h := Acquire(gl);
    }

    /** The array writes of `relenquish`: zero through each view of the
        object at slot `i`. */
    method ClearSlot(h: Handle, ghost i: nat)
      requires StoresValid() && HandlesValid() && i < |issued| && issued[i] == h && i < size
      modifies BufferAt.Keys
      ensures StoresValid() && HandlesValid()
      ensures forall k :: 0 <= k < |stores| ==> stores[k].a[..] == Cleared(old(stores[k].a[..]), stores[k].elementSize, i)
    {
      SlotFitsAt(i);
      ClearViews(h.views, stores, i, BufferAt);
    }

    /** The bookkeeping of `relenquish`: the object goes on the recycle
        list and the model releases its slot. */
    method Recycle(h: Handle, ghost i: nat)
      requires StoresValid() && HandlesValid() && Wf(Model) && i < |issued| && issued[i] == h
      requires Model.size == size && |Model.data| == |stores| && Model.kinds == KindsOf(stores)
      requires Wf(Release(Model, i))
      requires forall k :: 0 <= k < |stores| ==> stores[k].a[..] == Cleared(Model.data[k], stores[k].elementSize, i)
      modifies this`recycled, this`Model
      ensures Valid() && recycled == old(recycled) + [h] && Model == Release(old(Model), i)
    {
      recycled := recycled + [h];
      Model := Release(Model, i);
    }

    /** `relenquish`: zero is written through every view of the object,
        which goes on the recycle list, and a refresh is requested. */
    method Relenquish(h: Handle, ghost i: nat)
      requires Valid() && i < |issued| && issued[i] == h && h !in recycled
      modifies this`recycled, this`refreshRequested, this`Model, BufferAt.Keys
      ensures Valid() && refreshRequested
      ensures recycled == old(recycled) + [h]
      ensures Model == Release(old(Model), i)
    {
      ReleaseWf(Model, i);
      ClearSlot(h, i);
      Recycle(h, i);
      RequestRefresh();
    }

    /** A write through view `k` of the object at live slot `i` (a view's
        setter): that slot's window in store `k` takes `values`, every
        other float stays, and the pool moves as the model's `Write` says. */
    method Write(h: Handle, ghost i: nat, k: nat, values: seq<real>)
      requires Valid() && i < |issued| && issued[i] == h && i in Live(Model)
      requires k < |h.views| && |values| == h.views[k].store.elementSize
      modifies this`Model, BufferAt.Keys
      ensures Valid() && Model == SlotPool.Write(old(Model), k, i, values)
    {
      WriteWf(Model, k, i, values);
      WriteSlot(h, i, k, values);
      Model := SlotPool.Write(Model, k, i, values);
    }

    /** The array write of `Write`: only store `k`'s window of slot `i`. */
    method WriteSlot(h: Handle, ghost i: nat, k: nat, values: seq<real>)
      requires StoresValid() && HandlesValid() && i < |issued| && issued[i] == h && i < size
      requires k < |stores| && |values| == stores[k].elementSize
      modifies BufferAt.Keys
      ensures StoresValid() && HandlesValid()
      ensures forall j :: 0 <= j < |stores| ==>
        stores[j].a[..] == if j == k then Overwrite(old(stores[j].a[..]), Range(i * stores[j].elementSize, (i + 1) * stores[j].elementSize), values)
                           else old(stores[j].a[..])
    {
      SlotFitsAt(i);
      WriteView(h.views, stores, k, i, BufferAt, values);
    }

    /** The moves of `expand` once the new stores are built: every issued
        object is rebased onto them and each takes its old store's floats
        as a prefix. */
    method Adopt(olds: seq<DVBO>, ghost oldBufs: set<array<real>>)
      requires StoresValid() && Wf(Model) && Model.size <= size
      requires |stores| == |olds| && Model.kinds == KindsOf(stores)
      requires Wf(SlotPool.Expand(Model, size))
      requires forall j :: 0 <= j < |olds| ==> olds[j].a in oldBufs && stores[j].a !in oldBufs
      requires Holding(olds, Model.data) && forall j :: 0 <= j < |olds| ==> |Model.data[j]| <= stores[j].a.Length
      requires forall j :: 0 <= j < |stores| ==> stores[j].a[..] == Zeros(stores[j].a.Length)
      requires Registered(|olds|)
      modifies this`Model, IndexOf.Keys, BufferAt.Keys
      ensures Valid() && Model == SlotPool.Expand(old(Model), size)
      ensures forall k :: 0 <= k < |stores| ==> unchanged(stores[k])
    {
      RebaseAll(issued, stores, IndexOf);
      CopyAll(stores, olds, Model.data, BufferAt, oldBufs);
      Model := SlotPool.Expand(Model, size);
    }

    /** `expand`: the old buffers and vertex array are deleted, new stores
        of `newSize` slots are built, every issued object is rebased onto
        them, and each new store takes its old store's floats as a prefix. */
    method Expand(gl: Device, newSize: nat)
      requires Valid() && size <= newSize
      modifies this`stores, this`vao, this`size, this`StoreAt, this`BufferAt, this`Model, gl, IndexOf.Keys
      ensures Valid() && Model == SlotPool.Expand(old(Model), newSize) && fresh(BufferAt.Keys) && fresh(StoreAt.Keys)
      ensures Unsynced(stores, old(gl.nextBuffer))
      ensures gl.nextVertexArray == old(gl.nextVertexArray) + 1 && gl.nextBuffer == old(gl.nextBuffer) + |resolved|
      ensures gl.log == old(gl.log) + DeleteEvents(old(Vbos()), old(vao)) + [VertexArrayCreated(vao)] +
                        BufferCreations(old(gl.nextBuffer), |resolved|)
    {
      Delete(gl);
      ExpandWf(Model, newSize);
      var olds, oldBufs := Replace(gl, newSize);
      Adopt(olds, oldBufs);
    }

    /** The store half of `expand`: new stores of `newSize` slots replace
        the old ones, which are handed back with their buffers; the objects
        and the model are left for `Adopt`. */
    method Replace(gl: Device, newSize: nat) returns (olds: seq<DVBO>, ghost oldBufs: set<array<real>>)
      requires Valid() && size <= newSize
      modifies this`stores, this`vao, this`size, this`StoreAt, this`BufferAt, gl
      ensures StoresValid() && Wf(Model) && Model.size <= size == newSize && fresh(BufferAt.Keys)
      ensures |stores| == |olds| && Model.kinds == KindsOf(stores)
      ensures forall j :: 0 <= j < |olds| ==> olds[j].a in oldBufs && stores[j].a !in oldBufs
      ensures Holding(olds, Model.data) && forall j :: 0 <= j < |olds| ==> |Model.data[j]| <= stores[j].a.Length
      ensures forall j :: 0 <= j < |stores| ==> stores[j].a[..] == Zeros(stores[j].a.Length)
      ensures Registered(|olds|) && Unsynced(stores, old(gl.nextBuffer)) && fresh(StoreAt.Keys)
      ensures gl.nextVertexArray == old(gl.nextVertexArray) + 1 && gl.nextBuffer == old(gl.nextBuffer) + |resolved|
      ensures gl.log == old(gl.log) + [VertexArrayCreated(vao)] + BufferCreations(old(gl.nextBuffer), |resolved|)
    {
      olds := stores;
      oldBufs := BufferAt.Keys;
      Construct(gl, newSize);
      forall j | 0 <= j < |olds|
        ensures |Model.data[j]| <= stores[j].a.Length
      {
        MulMonotone(Model.size, newSize, stores[j].elementSize);
      }
    }

    /** Flags every store for a full re-upload at the next prepare. */
    method RequestRefresh()
      modifies this`refreshRequested
      ensures refreshRequested
    {
      refreshRequested := true;
    }

    /** One instanced draw of the quad, one instance per slot below `head`,
        released or not. */
    method Draw(gl: Device)
      modifies gl`log
      ensures gl.log == old(gl.log) + [InstancesDrawn(vao, 0, QuadVertexCount, head)]
    {
      gl.DrawArraysInstanced(vao, 0, QuadVertexCount, head);
    }

    /** `delete`: every store's buffer in key order, then the vertex array. */
    method Delete(gl: Device)
      modifies gl`log
      ensures gl.log == old(gl.log) + DeleteEvents(Vbos(), vao)
    {
      DeleteBuffers(gl, stores);
      gl.DeleteVertexArray(vao);
    }

    /** The pool invariant depends only on the bookkeeping fields, the
        buffers and the objects' views. */
    twostate lemma ValidKept()
      requires old(Valid())
      requires unchanged(this`stores, this`size, this`StoreAt, this`BufferAt, this`head)
      requires unchanged(this`issued, this`recycled, this`IndexOf, this`Model)
      requires unchanged(BufferAt.Keys) && unchanged(IndexOf.Keys)
      ensures Valid()
    {
    }

    /** `prepare`: a pending refresh flags every store, then each store runs
        its upload state machine, in key order; the request is cleared. */
    method Prepare(gl: Device)
      requires Valid()
      modifies this`refreshRequested, gl`log, StoreAt.Keys
      ensures Valid() && !refreshRequested
      ensures States(stores) == PreparedStates(old(States(stores)), old(refreshRequested))
      ensures gl.log == old(gl.log) + PrepareLog(old(States(stores)), old(refreshRequested))
    {
      PrepareStores(gl, stores, refreshRequested, StoreAt);
      refreshRequested := false;
      ValidKept();
    }
  }

  /** A new one-slot pool over channels whose attributes are all found:
      every channel has a store. */
  method NewResolved(gl: Device, channels: seq<Channel>, attribLocation: string -> int) returns (p: DynamicVAO)
    requires DistinctNames(channels)
    requires forall k :: 0 <= k < |channels| ==> Resolve(channels[k], attribLocation).Some?
    modifies gl
    ensures fresh(p) && p.Valid() && p.AllResolved() && p.size == 1
    ensures p.head == 0 && p.issued == [] && p.recycled == [] && p.IndexOf == map[]
    ensures fresh(p.BufferAt.Keys) && fresh(p.StoreAt.Keys)
  {
    p := new DynamicVAO(gl, channels, attribLocation);
    forall k | 0 <= k < |channels|
      ensures channels[k].name in p.locations && channels[k].ctype.Typed?
    {
      assert p.channels[k] in p.channels;
    }
    ResolvedAll(channels, p.locations);
  }

  /** An acquire on a pool with nothing released hands out a new object,
      the pool growing if need be; only new buffers and new objects join
      the pool's footprint. */
  method AcquireFresh(p: DynamicVAO, gl: Device) returns (h: Handle)
    requires p.Valid() && p.AllResolved() && p.recycled == []
    modifies p, gl, p.BufferAt.Keys, p.IndexOf.Keys
    ensures p.Valid() && fresh(h) && p.issued == old(p.issued) + [h] && p.recycled == []
    ensures p.size == if old(p.head) < old(p.size) then old(p.size) else Doubled(old(p.size))
    ensures fresh(p.BufferAt.Keys - old(p.BufferAt.Keys))
    ensures forall x :: x in p.IndexOf ==> x in old(p.IndexOf) || fresh(x)
  {
    h := p.Acquire(gl);
  }

  /** Releasing an issued object and acquiring again hands back that same
      object and leaves the recycle list as it was. */
  method ReleaseReacquire(p: DynamicVAO, gl: Device, h: Handle, ghost i: nat) returns (h': Handle)
    requires p.Valid() && p.AllResolved() && i < |p.issued| && p.issued[i] == h && h !in p.recycled
    modifies p, gl, p.BufferAt.Keys, p.IndexOf.Keys
    ensures p.Valid() && h' == h && p.issued == old(p.issued) && p.recycled == old(p.recycled)
    ensures p.size == old(p.size)
  {
    p.Relenquish(h, i);
    h' := p.Acquire(gl);
  }

  /** A client of the pool: a new one-slot pool hands out two different
      objects (growing to two slots for the second), takes the second
      back, and hands that same object out again. */
  method AcquireReleaseAcquire(gl: Device, channels: seq<Channel>, attribLocation: string -> int)
    returns (p: DynamicVAO, h1: Handle, h2: Handle, h3: Handle)
    requires DistinctNames(channels)
    requires forall k :: 0 <= k < |channels| ==> Resolve(channels[k], attribLocation).Some?
    modifies gl
    ensures fresh(p) && p.Valid() && p.size == 2
    ensures h1 != h2 && h3 == h2 && p.issued == [h1, h2] && p.recycled == []
  {
    p := NewResolved(gl, channels, attribLocation);
    h1 := AcquireFresh(p, gl);
    h2 := AcquireFresh(p, gl);
    h3 := ReleaseReacquire(p, gl, h2, 1);
  }
}
