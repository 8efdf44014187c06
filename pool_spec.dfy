/** Value-level definitions behind the slot pool: what a fresh slot holds,
    the slots of a flat float buffer, the device calls of the pool's
    `construct`, `delete` and `prepare`, and their properties. */
module PoolSpec {
  import opened Gl
  import opened ChannelStore
  import opened Binding

  /** What a freshly made slot holds: matrix views are set to the identity,
      scalar and vector slots keep the zeros they were born with. */
  function InitialContents(kind: Kind): (v: seq<real>)
    ensures |v| == Width(kind)
    ensures kind != Mat ==> v == Zeros(Width(kind))
  {
    if kind == Mat then Identity else Zeros(Width(kind))
  }

  /** Every float from position `lo` on is zero. */
  ghost predicate ZeroFrom(s: seq<real>, lo: nat)
  {
    forall j :: lo <= j < |s| ==> s[j] == 0.0
  }

  /** Overwriting slot `i` leaves every other slot as it was. */
  lemma OverwriteOtherSlot(s: seq<real>, w: nat, i: nat, j: nat, values: seq<real>)
    requires (i + 1) * w <= |s| && (j + 1) * w <= |s| && i != j && |values| == w
    ensures Slot(Overwrite(s, Range(i * w, (i + 1) * w), values), w, j) == Slot(s, w, j)
  {
    NextSlot(i, w);
    NextSlot(j, w);
    if i < j {
      MulMonotone(i + 1, j, w);
    } else {
      MulMonotone(j + 1, i, w);
    }
    var t := Overwrite(s, Range(i * w, (i + 1) * w), values);
    assert forall k :: 0 <= k < w ==> Slot(t, w, j)[k] == t[j * w + k];
  }

  /** Overwriting slot `i` makes it read the written values. */
  lemma OverwriteOwnSlot(s: seq<real>, w: nat, i: nat, values: seq<real>)
    requires (i + 1) * w <= |s| && |values| == w
    ensures Slot(Overwrite(s, Range(i * w, (i + 1) * w), values), w, i) == values
  {
    NextSlot(i, w);
    var t := Overwrite(s, Range(i * w, (i + 1) * w), values);
    assert forall k :: 0 <= k < w ==> Slot(t, w, i)[k] == t[i * w + k];
  }

  /** Writing a slot below `lo` keeps the floats from `lo` on. */
  lemma OverwriteKeepsZeroFrom(s: seq<real>, w: nat, i: nat, values: seq<real>, lo: nat)
    requires (i + 1) * w <= |s| && |values| == w && (i + 1) * w <= lo
    requires ZeroFrom(s, lo)
    ensures ZeroFrom(Overwrite(s, Range(i * w, (i + 1) * w), values), lo)
  {
  }

  /** A slot at or past `lo` of a buffer that is zero from `lo` on reads zero. */
  lemma ZeroFromSlot(s: seq<real>, w: nat, i: nat, lo: nat)
    requires (i + 1) * w <= |s| && lo <= i * w && ZeroFrom(s, lo)
    ensures Slot(s, w, i) == Zeros(w)
  {
  }

  /** Growing a buffer by appending zeros keeps each old slot's floats. */
  lemma GrowKeepsSlot(p: seq<real>, n: nat, w: nat, i: nat)
    requires (i + 1) * w <= |p|
    ensures Slot(p + Zeros(n), w, i) == Slot(p, w, i)
  {
    NextSlot(i, w);
    assert forall k :: 0 <= k < w ==> Slot(p + Zeros(n), w, i)[k] == (p + Zeros(n))[i * w + k];
  }

  /** A buffer is its prefix followed by its suffix. */
  lemma Split(s: seq<real>, p: seq<real>, z: seq<real>)
    requires |p| <= |s| && s[..|p|] == p && s[|p|..] == z
    ensures s == p + z
  {
    assert s == s[..|p|] + s[|p|..];
  }

  /** The buffer creations of a `construct` whose first buffer is `first`. */
  function BufferCreations(first: nat, count: nat): seq<Event>
  {
    seq(count, k requires 0 <= k < count => BufferCreated(first + k))
  }

  lemma BufferCreationsStep(first: nat, n: nat)
    ensures BufferCreations(first, n + 1) == BufferCreations(first, n) + [BufferCreated(first + n)]
  {
  }

  /** The calls of `delete`: every store's buffer in map order, then the
      vertex array. */
  function DeleteEvents(vbos: seq<nat>, vao: nat): seq<Event>
  {
    seq(|vbos|, k requires 0 <= k < |vbos| => BufferDeleted(vbos[k])) + [VertexArrayDeleted(vao)]
  }

  /** One channel's buffer after `make_object` acquired slot `i` in it: a
      matrix view sets its slot to the identity, other views write nothing. */
  function Made(d: seq<real>, kind: Kind, i: nat): (t: seq<real>)
    requires (i + 1) * Width(kind) <= |d|
    ensures |t| == |d|
    ensures forall k :: 0 <= k < |d| ==>
      t[k] == if kind == Mat && i * 9 <= k < i * 9 + 9 then Identity[k - i * 9] else d[k]
  {
    if kind == Mat then Overwrite(d, Range(i * Width(kind), (i + 1) * Width(kind)), Identity) else d
  }

  /** A slot made from an untouched (zero) part of the buffer reads its
      kind's initial contents; every other slot, and the zero tail past the
      new slot, are as they were. */
  lemma MadeSlot(d: seq<real>, kind: Kind, i: nat)
    requires (i + 1) * Width(kind) <= |d| && ZeroFrom(d, i * Width(kind))
    ensures Slot(Made(d, kind, i), Width(kind), i) == InitialContents(kind)
    ensures forall j: nat :: j != i && (j + 1) * Width(kind) <= |d| ==>
      Slot(Made(d, kind, i), Width(kind), j) == Slot(d, Width(kind), j)
    ensures ZeroFrom(Made(d, kind, i), (i + 1) * Width(kind))
  {
    var w := Width(kind);
    if kind == Mat {
      OverwriteOwnSlot(d, w, i, Identity);
      forall j: nat | j != i && (j + 1) * w <= |d|
        ensures Slot(Made(d, kind, i), w, j) == Slot(d, w, j)
      {
        OverwriteOtherSlot(d, w, i, j, Identity);
      }
    } else {
      ZeroFromSlot(d, w, i, i * w);
    }
  }

  /** One channel's buffer after `relenquish` zeroed slot `i` through its
      view. */
  function Cleared(d: seq<real>, w: nat, i: nat): (t: seq<real>)
    requires (i + 1) * w <= |d|
    ensures |t| == |d|
    ensures forall k :: 0 <= k < |d| ==> t[k] == if i * w <= k < (i + 1) * w then 0.0 else d[k]
  {
    Overwrite(d, Range(i * w, (i + 1) * w), Zeros(w))
  }

  /** A cleared slot reads zero; every other slot, and a zero tail past
      it, are as they were. */
  lemma ClearedSlot(d: seq<real>, w: nat, i: nat, lo: nat)
    requires (i + 1) * w <= |d|
    ensures Slot(Cleared(d, w, i), w, i) == Zeros(w)
    ensures forall j: nat :: j != i && (j + 1) * w <= |d| ==> Slot(Cleared(d, w, i), w, j) == Slot(d, w, j)
    ensures ZeroFrom(d, lo) && (i + 1) * w <= lo ==> ZeroFrom(Cleared(d, w, i), lo)
  {
    OverwriteOwnSlot(d, w, i, Zeros(w));
    forall j: nat | j != i && (j + 1) * w <= |d|
      ensures Slot(Cleared(d, w, i), w, j) == Slot(d, w, j)
    {
      OverwriteOtherSlot(d, w, i, j, Zeros(w));
    }
  }

  /** One channel's buffer after `expand` to `len` floats: the old floats,
      then the new buffer's zeros. */
  function Grown(d: seq<real>, len: nat): (t: seq<real>)
    requires |d| <= len
    ensures |t| == len
    ensures forall k :: 0 <= k < len ==> t[k] == if k < |d| then d[k] else 0.0
  {
    d + Zeros(len - |d|)
  }

  /** Growth keeps the old buffer as a prefix, so every old slot reads as
      before, and keeps a zero tail zero. */
  lemma GrownSlot(d: seq<real>, len: nat, w: nat, lo: nat)
    requires |d| <= len
    ensures Grown(d, len)[..|d|] == d
    ensures forall i: nat :: (i + 1) * w <= |d| ==> Slot(Grown(d, len), w, i) == Slot(d, w, i)
    ensures ZeroFrom(d, lo) ==> ZeroFrom(Grown(d, len), lo)
  {
    forall i: nat | (i + 1) * w <= |d|
      ensures Slot(Grown(d, len), w, i) == Slot(d, w, i)
    {
      GrowKeepsSlot(d, len - |d|, w, i);
    }
  }

  /** A store as the pool's prepare hands it on: flagged for update when a
      refresh was requested. */
  function Refreshed(s: StoreState, refresh: bool): (r: StoreState)
    ensures r.dynamic == s.dynamic && r.vbo == s.vbo && r.data == s.data && r.flags.created == s.flags.created
    ensures r.flags.mustUpdate == (refresh || s.flags.mustUpdate)
  {
    if refresh then s.(flags := s.flags.(mustUpdate := true)) else s
  }

  /** The calls of a list of steps, one after another. */
  function Concat(ev: seq<seq<Event>>): seq<Event>
  {
    if ev == [] then [] else Concat(ev[..|ev| - 1]) + ev[|ev| - 1]
  }

  lemma ConcatStep(ev: seq<seq<Event>>, i: nat, log0: seq<Event>)
    requires i < |ev|
    ensures log0 + Concat(ev[..i + 1]) == log0 + Concat(ev[..i]) + ev[i]
  {
    assert ev[..i + 1][..i] == ev[..i];
  }

  /** Steps that call nothing call nothing; steps of at most one call each
      make at most that many; steps of exactly one call make those calls, in
      order. */
  lemma {:induction false} ConcatOfSingletons(ev: seq<seq<Event>>)
    ensures (forall k :: 0 <= k < |ev| ==> ev[k] == []) ==> Concat(ev) == []
    ensures (forall k :: 0 <= k < |ev| ==> |ev[k]| <= 1) ==> |Concat(ev)| <= |ev|
    ensures (forall k :: 0 <= k < |ev| ==> |ev[k]| == 1) ==>
      |Concat(ev)| == |ev| && forall k :: 0 <= k < |ev| ==> Concat(ev)[k] == ev[k][0]
  {
    if ev != [] {
      ConcatOfSingletons(ev[..|ev| - 1]);
    }
  }

  /** The pool's prepare, store by store in map order: the new states ... */
  function PreparedStates(ss: seq<StoreState>, refresh: bool): (r: seq<StoreState>)
    ensures |r| == |ss|
    ensures forall k :: 0 <= k < |ss| ==>
      r[k].flags.created && r[k].data == ss[k].data && r[k].vbo == ss[k].vbo && r[k].dynamic == ss[k].dynamic
  {
    seq(|ss|, k requires 0 <= k < |ss| => Prepared(Refreshed(ss[k], refresh)).0)
  }

  /** ... the calls of each store ... */
  function PrepareCalls(ss: seq<StoreState>, refresh: bool): (r: seq<seq<Event>>)
    ensures |r| == |ss| && forall k :: 0 <= k < |ss| ==> |r[k]| <= 1
    ensures !refresh ==> forall k :: 0 <= k < |ss| ==> ss[k].flags == Flags(true, false) ==> r[k] == []
    ensures refresh ==> forall k :: 0 <= k < |ss| ==>
      r[k] == [if ss[k].flags.created then SubDataUploaded(ss[k].vbo, ss[k].data)
               else DataUploaded(ss[k].vbo, ss[k].data, UsageOf(ss[k].dynamic))]
  {
    seq(|ss|, k requires 0 <= k < |ss| => Prepared(Refreshed(ss[k], refresh)).1)
  }

  /** ... and all of them in order. */
  function PrepareLog(ss: seq<StoreState>, refresh: bool): (r: seq<Event>)
    ensures |r| <= |ss|
    ensures refresh ==> |r| == |ss|
  {
    ConcatOfSingletons(PrepareCalls(ss, refresh));
    Concat(PrepareCalls(ss, refresh))
  }

  /** After the pool's prepare every store is created and keeps its data.
      Without a refresh each store makes at most one call; with a refresh
      pending, every store uploads its current contents exactly once, in
      map order, by a full upload exactly when it was not yet created, and
      stays flagged afterwards exactly when it is dynamic or had only just
      been created. */
  lemma PrepareUploads(ss: seq<StoreState>, refresh: bool)
    ensures forall k :: 0 <= k < |ss| ==>
      var s := PreparedStates(ss, refresh)[k];
      s.flags.created && s.data == ss[k].data && s.vbo == ss[k].vbo && s.dynamic == ss[k].dynamic
    ensures !refresh ==> |PrepareLog(ss, refresh)| <= |ss|
    ensures refresh ==> |PrepareLog(ss, refresh)| == |ss|
    ensures refresh ==> forall k :: 0 <= k < |ss| ==>
      var e := PrepareLog(ss, refresh)[k];
      (e.DataUploaded? || e.SubDataUploaded?) && e.buf == ss[k].vbo && e.data == ss[k].data &&
      (e.DataUploaded? <==> !ss[k].flags.created)
    ensures refresh ==> forall k :: 0 <= k < |ss| ==>
      PreparedStates(ss, refresh)[k].flags.mustUpdate == (ss[k].dynamic || !ss[k].flags.created)
  {
    ConcatOfSingletons(PrepareCalls(ss, refresh));
  }

  /** A prepare with nothing pending and every store created and up to
      date changes nothing and calls nothing. */
  lemma PrepareQuiet(ss: seq<StoreState>)
    requires forall k :: 0 <= k < |ss| ==> ss[k].flags == Flags(true, false)
    ensures PreparedStates(ss, false) == ss
    ensures PrepareLog(ss, false) == []
  {
    ConcatOfSingletons(PrepareCalls(ss, false));
  }
}
