/** One channel's host-side float buffer (the source's `DVBO` and its
    scalar, vector and matrix subclasses), the handle and view values that
    window into it, and the upload state machine that decides when the
    buffer is sent to the device. */
module ChannelStore {
  import opened Gl

  /** The subclass of a store, which fixes its element width. */
  datatype Kind = Scalar | Vec | Mat

  function Width(kind: Kind): nat
  {
    match kind
    case Scalar => 1
    case Vec => 2
    case Mat => 9
  }

  /** What a matrix view's `set()` with no arguments writes: the identity
      affine transform, column by column. */
  const Identity: seq<real> := [1.0, 0.0, 0.0, 0.0, 1.0, 0.0, 0.0, 0.0, 1.0]

  function Zeros(n: nat): (z: seq<real>)
    ensures |z| == n && forall i :: 0 <= i < n ==> z[i] == 0.0
  {
    seq(n, _ => 0.0)
  }

  function Min(x: nat, y: nat): nat
  {
    if x <= y then x else y
  }

  /** A half-open window [lo, hi) of a buffer. */
  datatype Range = Range(lo: nat, hi: nat)

  /** `s` with the window `r` overwritten by the leading floats of
      `values`; a typed-array view writes only inside its window. */
  function Overwrite(s: seq<real>, r: Range, values: seq<real>): (t: seq<real>)
    requires r.lo <= r.hi <= |s| && r.hi - r.lo <= |values|
    ensures |t| == |s|
    ensures forall k :: 0 <= k < |s| ==> t[k] == if r.lo <= k < r.hi then values[k - r.lo] else s[k]
  {
    s[..r.lo] + values[..r.hi - r.lo] + s[r.hi..]
  }

  /** The floats of slot `i` in a buffer of `w`-wide elements. */
  function Slot(s: seq<real>, w: nat, i: nat): (v: seq<real>)
    requires (i + 1) * w <= |s|
    ensures |v| == w
  {
    s[i * w..(i + 1) * w]
  }

  lemma MulMonotone(x: nat, y: nat, w: nat)
    ensures x <= y ==> x * w <= y * w
  {
  }

  /** Slot `i + 1` starts where slot `i` ends. */
  lemma NextSlot(i: nat, w: nat)
    ensures (i + 1) * w == i * w + w
  {
  }

  /** A per-channel view of one slot: the store whose current buffer it
      windows into, and the slot index.  Rebasing replaces the store. */
  datatype View = View(store: DVBO, index: nat)

  /** An acquired object: one view per channel, in the order of its keys
      (the channel names, in channel order). */
  class Handle {
    var views: seq<View>

    constructor (views: seq<View>)
      ensures this.views == views
    {
      this.views := views;
    }
  }

  /** The upload flags of a store. */
  datatype Flags = Flags(created: bool, mustUpdate: bool)

  /** What one `prepare` of a store sends to the device. */
  datatype Upload = NoUpload | FullUpload | SubUpload

  /** The per-store upload state machine: the first prepare creates the
      device buffer; later ones upload only while `mustUpdate` is set, and a
      static store clears the flag once it has uploaded. */
  function SyncStep(f: Flags, dynamic: bool): (r: (Flags, Upload))
    ensures r.0.created
    ensures (r.1 == FullUpload) == !f.created
    ensures (r.1 == SubUpload) == (f.created && f.mustUpdate)
    ensures r.0.mustUpdate ==> f.mustUpdate
    ensures dynamic || !f.created ==> r.0.mustUpdate == f.mustUpdate
    ensures !dynamic && r.1 == SubUpload ==> !r.0.mustUpdate
    ensures r.1 == NoUpload ==> r.0 == f
  {
    if !f.created then (Flags(true, f.mustUpdate), FullUpload)
    else if f.mustUpdate then (Flags(true, dynamic), SubUpload)
    else (f, NoUpload)
  }

  function UsageOf(dynamic: bool): Usage
  {
    if dynamic then StreamDraw else StaticDraw
  }

  /** Everything about a store that `prepare` reads or changes, as a value. */
  datatype StoreState = StoreState(flags: Flags, dynamic: bool, vbo: nat, data: seq<real>)

  /** The device calls one upload decision makes. */
  function UploadEvents(u: Upload, s: StoreState): (e: seq<Event>)
    ensures u == NoUpload <==> e == []
    ensures u != NoUpload ==> |e| == 1 && (e[0].DataUploaded? || e[0].SubDataUploaded?)
    ensures u != NoUpload ==> e[0].buf == s.vbo && e[0].data == s.data
    ensures u == FullUpload ==> e[0].DataUploaded? && e[0].usage == UsageOf(s.dynamic)
    ensures u == SubUpload ==> e == [SubDataUploaded(s.vbo, s.data)]
  {
    match u
    case NoUpload => []
    case FullUpload => [DataUploaded(s.vbo, s.data, UsageOf(s.dynamic))]
    case SubUpload => [SubDataUploaded(s.vbo, s.data)]
  }

  /** One `prepare` of a store: its new state and the calls it makes.
      Afterwards the store is created and keeps its data, buffer and
      dynamism; the calls are a full upload exactly when it was not created,
      a sub-upload of the whole buffer exactly when it was created and
      flagged, and nothing otherwise; it stays flagged exactly when it was
      flagged and is dynamic or had not been created. */
  function Prepared(s: StoreState): (r: (StoreState, seq<Event>))
    ensures r.0.dynamic == s.dynamic && r.0.vbo == s.vbo && r.0.data == s.data
    ensures r.0.flags.created
    ensures r.0.flags.mustUpdate == (s.flags.mustUpdate && (s.dynamic || !s.flags.created))
    ensures !s.flags.created ==> r.1 == [DataUploaded(s.vbo, s.data, UsageOf(s.dynamic))]
    ensures s.flags.created && s.flags.mustUpdate ==> r.1 == [SubDataUploaded(s.vbo, s.data)]
    ensures s.flags.created && !s.flags.mustUpdate ==> r.1 == []
  {
    var (f, u) := SyncStep(s.flags, s.dynamic);
    (s.(flags := f), UploadEvents(u, s))
  }

  /** `n` consecutive prepares with nothing else happening in between. */
  function PrepareTimes(s: StoreState, n: nat): (r: (StoreState, seq<Event>))
    decreases n
  {
    if n == 0 then (s, [])
    else
      var (s1, e1) := Prepared(s);
      var (s2, e2) := PrepareTimes(s1, n - 1);
      (s2, e1 + e2)
  }

  /** A created store with nothing to update stays silent. */
  lemma {:induction false} QuiescentStaysQuiet(s: StoreState, n: nat)
    requires s.flags == Flags(true, false)
    ensures PrepareTimes(s, n) == (s, [])
    decreases n
  {
    if n > 0 {
      assert Prepared(s) == (s, []);
      QuiescentStaysQuiet(s, n - 1);
      var e: seq<Event> := [];
      assert PrepareTimes(s, n) == (s, e + e);
      assert e + e == e;
    }
  }

  /** A new static store (`mustUpdate` starts equal to `dynamic`, so false)
      is uploaded exactly once, by its creating prepare, however many
      frames follow without a refresh. */
  lemma {:induction false} StaticStoreUploadsOnce(s: StoreState, n: nat)
    requires s.flags == Flags(false, false) && !s.dynamic && n >= 1
    ensures PrepareTimes(s, n).1 == [DataUploaded(s.vbo, s.data, StaticDraw)]
    ensures PrepareTimes(s, n).0.flags == Flags(true, false)
  {
    var s1 := Prepared(s).0;
    assert s1 == s.(flags := Flags(true, false));
    QuiescentStaysQuiet(s1, n - 1);
  }

  /** The sub-uploads a created dynamic store issues over `n` frames. */
  function SubUploads(s: StoreState, n: nat): seq<Event>
  {
    seq(n, _ => SubDataUploaded(s.vbo, s.data))
  }

  /** A new dynamic store is created by its first prepare and re-uploaded
      by every later one: dynamic stores never clear `mustUpdate`. */
  lemma {:induction false} DynamicStoreUploadsEveryFrame(s: StoreState, n: nat)
    requires s.flags == Flags(false, true) && s.dynamic && n >= 1
    ensures PrepareTimes(s, n).1 == [DataUploaded(s.vbo, s.data, StreamDraw)] + SubUploads(s, n - 1)
  {
    var s1 := s.(flags := Flags(true, true));
    assert Prepared(s) == (s1, [DataUploaded(s.vbo, s.data, StreamDraw)]);
    CreatedDynamicUploads(s1, n - 1);
    assert SubUploads(s1, n - 1) == SubUploads(s, n - 1);
  }

  lemma {:induction false} CreatedDynamicUploads(s: StoreState, n: nat)
    requires s.flags == Flags(true, true) && s.dynamic
    ensures PrepareTimes(s, n) == (s, SubUploads(s, n))
    decreases n
  {
    if n > 0 {
      assert Prepared(s) == (s, [SubDataUploaded(s.vbo, s.data)]);
      CreatedDynamicUploads(s, n - 1);
      var e := [SubDataUploaded(s.vbo, s.data)] + SubUploads(s, n - 1);
      assert PrepareTimes(s, n) == (s, e);
      assert e == SubUploads(s, n);
    } else {
      assert SubUploads(s, n) == [];
    }
  }

  /** A channel store: `nElements` slots of `elementSize` floats each, the
      device buffer name `vbo`, and the upload flags. */
  class DVBO {
    const elementSize: nat
    const nElements: nat
    const kind: Kind
    const dynamic: bool
    const vbo: nat
    const a: array<real>
    var created: bool
    var mustUpdate: bool

    ghost predicate Valid()
    {
      elementSize == Width(kind) && a.Length == nElements * elementSize
    }

    /** A new store is zero-filled, not yet created on the device, and
        needs an update exactly when it is dynamic. */
    constructor (gl: Device, kind: Kind, nElements: nat, dynamic: bool)
      modifies gl
      ensures Valid() && this.kind == kind && this.nElements == nElements && this.dynamic == dynamic
      ensures fresh(a) && a[..] == Zeros(nElements * Width(kind))
      ensures !created && mustUpdate == dynamic
      ensures vbo == old(gl.nextBuffer) && gl.nextBuffer == vbo + 1
      ensures gl.nextVertexArray == old(gl.nextVertexArray)
      ensures gl.log == old(gl.log) + [BufferCreated(vbo)]
    {
      elementSize := Width(kind);
      this.kind := kind;
      this.nElements := nElements;
      a := new real[nElements * Width(kind)](_ => 0.0);
      created := false;
      mustUpdate := dynamic;
      this.dynamic := dynamic;
      var buf := gl.CreateBuffer();
      vbo := buf;
    }

    /** The window of slot `index`, clamped to the buffer as a typed-array
        `subarray` clamps it; in range it is exactly one element wide. */
    function Subarray(index: nat): (r: Range)
      ensures r.lo <= r.hi <= a.Length && r.hi - r.lo <= elementSize
      ensures Valid() && index < nElements ==> r == Range(index * elementSize, (index + 1) * elementSize)
      ensures (index + 1) * elementSize <= a.Length ==> r == Range(index * elementSize, (index + 1) * elementSize)
    {
      NextSlot(index, elementSize);
      MulMonotone(index + 1, nElements, elementSize);
      var lo := index * elementSize;
      Range(Min(lo, a.Length), Min(lo + elementSize, a.Length))
    }

    /** The windows of two different slots of a valid store never overlap. */
    lemma SubarraysDisjoint(i: nat, j: nat)
      requires Valid() && i < nElements && j < nElements && i != j
      ensures Subarray(i).hi <= Subarray(j).lo || Subarray(j).hi <= Subarray(i).lo
    {
      if i < j {
        MulMonotone(i + 1, j, elementSize);
      } else {
        MulMonotone(j + 1, i, elementSize);
      }
    }

    /** `copy_from`: the old store's floats become the prefix of this
        store's buffer; the rest of the buffer is left as it was. */
    method CopyFrom(source: DVBO)
      requires source.a.Length <= a.Length
      modifies a
      ensures a[..source.a.Length] == old(source.a[..])
      ensures a[source.a.Length..] == old(a[source.a.Length..])
    {
      forall i | 0 <= i < source.a.Length {
        a[i] := source.a[i];
      }
    }

    /** Re-points view `key` of `h` at slot `index` of this store. */
    method Rebase(index: nat, h: Handle, key: nat)
      requires key < |h.views|
      modifies h
      ensures h.views == old(h.views)[key := View(this, index)]
    {
      h.views := h.views[key := View(this, index)];
    }

    /** Writes `values` through the view of slot `index` (a view's setter,
        or its `zeroeq` with all-zero values). */
    method WriteWindow(index: nat, values: seq<real>)
      requires |values| == elementSize
      modifies a
      ensures a[..] == Overwrite(old(a[..]), Subarray(index), values)
    {
      var r := Subarray(index);
      forall k | r.lo <= k < r.hi {
        a[k] := values[k - r.lo];
      }
    }

    /** A view of slot `index`; a matrix store first sets the slot to the
        identity transform, scalar and vector stores leave it as it is. */
    method Acquire(index: nat) returns (v: View)
      requires Valid()
      modifies a
      ensures v == View(this, index)
      ensures kind == Mat ==> a[..] == Overwrite(old(a[..]), Subarray(index), Identity)
      ensures kind != Mat ==> a[..] == old(a[..])
    {
      v := View(this, index);
      if kind == Mat {
        WriteWindow(index, Identity);
      }
    }

    function DrawMode(): (u: Usage)
      ensures u == StreamDraw <==> dynamic
    {
      UsageOf(dynamic)
    }

    function State(): (s: StoreState)
      reads this, a
      ensures s.data == a[..] && s.vbo == vbo && s.dynamic == dynamic
      ensures s.flags == Flags(created, mustUpdate)
    {
      StoreState(Flags(created, mustUpdate), dynamic, vbo, a[..])
    }

    /** First upload of the whole buffer into the device buffer. */
    method Create(gl: Device)
      modifies gl`log
      ensures gl.log == old(gl.log) + [DataUploaded(vbo, a[..], DrawMode())]
    {
      gl.BufferData(vbo, a[..], DrawMode());
    }

    /** Re-upload of the whole buffer as a sub-range update. */
    method Update(gl: Device)
      modifies gl`log
      ensures gl.log == old(gl.log) + [SubDataUploaded(vbo, a[..])]
    {
      gl.BufferSubData(vbo, a[..]);
    }

    method Delete(gl: Device)
      modifies gl`log
      ensures gl.log == old(gl.log) + [BufferDeleted(vbo)]
    {
      gl.DeleteBuffer(vbo);
    }

    /** Brings the device buffer up to date as the state machine says. */
    method Prepare(gl: Device)
      modifies this`created, this`mustUpdate, gl`log
      ensures State() == Prepared(old(State())).0
      ensures gl.log == old(gl.log) + Prepared(old(State())).1
    {
      if !created {
        Create(gl);
        created := true;
      } else {
        if mustUpdate {
          Update(gl);
          if !dynamic {
            mustUpdate := false;
          }
        }
      }
    }
  }
}
