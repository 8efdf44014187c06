# Instanced-sprite slot pool and render-pass order

This project models the core of a small WebGL sprite engine and proves what it promises.

**The slot pool (`DynamicVAO`).** The pool owns one float buffer (a `DVBO`) per resolved channel: a configured channel that has an attribute location and a store type, which is a scalar, a 2-vector or a 3x3 affine matrix. The other channels get no buffer. Each buffer has `size` slots, and every acquired object holds one view per channel into a common slot index.

- A slot counter `head` hands out fresh slots.
- Released objects go on a LIFO recycle list and are handed back first.
- When the pool is full, it doubles: new buffers are built, every issued object is rebased onto them, and each new buffer takes the old floats as its prefix.
- A per-buffer state machine decides what each `prepare` uploads to the device.
- `draw` issues one instanced draw over `head` instances.

**The scene.** A scene keeps its render passes sorted deepest first, with a stable sort. Its `update`, `prepare` and `draw` visit the passes in that order.

**How the model is built.**

- Modules: `Gl` (the device as an event log), `ChannelStore` (the buffer class, handles, views and the upload state machine), `Binding` (the constructor's channel binding), `PoolSpec` and `SlotPool` (the pool as a value and its laws), `Pool` (the pool class) and `SceneOrder` (the scene).
- The two classes keep their source form: fields updated in place, `modifies` frames, loops with invariants. The methods that change slots are tied to a ghost value, `Model: Slots`: each ensures that the new model is a function of the old one (`Make`, `Release`, `Expand`, `Acquire`, `Write`), and the lemmas in `SlotPool` prove what those functions promise. The upload and draw methods (`Prepare`, `RequestRefresh`, `Draw`, `Delete`) leave the model as it is and are tied instead to the pending-refresh flag, the stores' upload states (`States`, `PreparedStates`) and the device log.
- Floats are `real`: zero is `0.0`, and the matrix identity is the nine floats a matrix view's `set()` writes.

## Model

| member | source | states |
|---|---|---|
| ChannelStore.SyncStep | dynamicvao.js:42-54 | The first prepare always creates the buffer, with a full upload. A later prepare uploads a sub-range exactly when `must_update` is set. A static store clears the flag after uploading; a dynamic store keeps it. Nothing else changes when nothing is uploaded. |
| ChannelStore.UploadEvents | dynamicvao.js:28-37 | No upload makes no call, and an upload makes exactly one call with the store's buffer name and its whole buffer. A full upload is a `bufferData` with STREAM_DRAW exactly when the store is dynamic. A sub-upload is exactly one `bufferSubData` of the whole buffer. |
| ChannelStore.Prepared | dynamicvao.js:42-54 | After one prepare the store is created and keeps its data, buffer name and dynamism. It stays flagged exactly when it was flagged and is dynamic or had not been created. The calls are one full upload of the buffer when it was not created, one sub-upload of the whole buffer when it was created and flagged, and none otherwise. |
| ChannelStore.QuiescentStaysQuiet | dynamicvao.js:42-54 | A created store with nothing to update makes no call and keeps its state over any number of prepares. |
| ChannelStore.StaticStoreUploadsOnce | dynamicvao.js:3-11 | A new static store (`must_update` starts false) is uploaded exactly once, with STATIC_DRAW, over any number of prepares without a refresh. |
| ChannelStore.DynamicStoreUploadsEveryFrame | dynamicvao.js:42-54 | A new dynamic store is created by its first prepare and re-uploaded in full by every later prepare. |
| ChannelStore.CreatedDynamicUploads | dynamicvao.js:47-52 | A created dynamic store stays flagged and sub-uploads on every prepare. |
| ChannelStore.DVBO.constructor | dynamicvao.js:3-11 | A new store is valid and zero-filled, with `nElements * width` floats. It is not created, and `mustUpdate` equals `dynamic`. It takes the next buffer name and logs one buffer creation. |
| ChannelStore.DVBO.Subarray | dynamicvao.js:15-17 | For a slot inside the buffer, the window is exactly `[index*w, (index+1)*w)`. Otherwise it is clamped to the buffer and at most one element wide. |
| ChannelStore.DVBO.SubarraysDisjoint | dynamicvao.js:15-17 | The windows of two different in-range slots never overlap. |
| ChannelStore.DVBO.CopyFrom | dynamicvao.js:12-14 | The old buffer becomes this buffer's prefix. The rest is unchanged. |
| ChannelStore.DVBO.Rebase | dynamicvao.js:18-20 | Only the rebased view of the handle changes: it now windows slot `index` of this store. |
| ChannelStore.DVBO.WriteWindow | dynamicvao.js:15-17 | Writing through a view overwrites exactly that slot's window. |
| ChannelStore.DVBO.Acquire | dynamicvao.js:21-82 | The view is of slot `index`. A matrix store sets the slot to the identity; scalar and vector stores leave the buffer unchanged. |
| ChannelStore.DVBO.DrawMode | dynamicvao.js:24-26 | The usage is STREAM_DRAW exactly when the store is dynamic. |
| ChannelStore.DVBO.Create | dynamicvao.js:28-31 | Logs one full upload of the current buffer with the store's draw mode. |
| ChannelStore.DVBO.Update | dynamicvao.js:33-37 | Logs one sub-upload of the whole current buffer. |
| ChannelStore.DVBO.Delete | dynamicvao.js:39-41 | Logs the deletion of the store's buffer. |
| ChannelStore.DVBO.Prepare | dynamicvao.js:42-54 | The store's new flags and the calls made are exactly those of `Prepared` on its old state. |
| Binding.EffectiveDynamic | dynamicvao.js:3-9 | An undefined `dynamic` makes the store dynamic (the default parameter). A given value is kept. |
| Binding.TypeOf | dynamicvao.js:130-150 | A `type` string denotes a store kind exactly when it is `"scalar"`, `"vec"` or `"mat"`; any other string is an untyped tag that never names a store kind. |
| Binding.Resolve | dynamicvao.js:130-150 | An untyped channel never binds. A scalar or vector channel binds exactly when its own location is found, to that location. A matrix channel binds exactly when its `_x` and `_y` columns are found, to all three columns. |
| Binding.BindChannels | dynamicvao.js:126-151 | Every channel name ends up in exactly one of `locations` and `malformed_names`. A scalar or vector channel binds exactly when its own location is found, and at that location. A matrix channel binds exactly when `_x` and `_y` are found, at the triple of its three columns. Any other type is malformed. |
| Binding.MatIgnoresZColumn | dynamicvao.js:139-146 | Whether a matrix channel binds does not depend on its `_z` column. |
| Binding.Resolved | dynamicvao.js:163-195 | The channels given a store are channels of the configuration, each with a location and a store type, and there are no more of them than channels. |
| Binding.ResolvedSound | dynamicvao.js:163-195 | Every channel with a location and a store type gets a store, and store names stay distinct. |
| Binding.ResolvedAll | dynamicvao.js:163-195 | When every channel has a location, every channel gets a store, so `make_object` finds a store for each. |
| PoolSpec.OverwriteOtherSlot | dynamicvao.js:15-17 | Writing one slot leaves every other slot's floats unchanged. |
| PoolSpec.OverwriteOwnSlot | dynamicvao.js:15-17 | Writing one slot makes it read the written values. |
| PoolSpec.Made | dynamicvao.js:219-225 | After `make_object`, a matrix store's slot holds the identity; every other float, and every float of a scalar or vector store, is unchanged. |
| PoolSpec.MadeSlot | dynamicvao.js:219-225 | A slot made from the untouched part of a buffer reads its kind's initial contents. Every other slot and the zero tail past it are unchanged. |
| PoolSpec.Cleared | dynamicvao.js:246-249 | After `relenquish`, the released slot's floats are zero and every other float is unchanged. |
| PoolSpec.ClearedSlot | dynamicvao.js:246-249 | A zeroed slot reads zero. Every other slot and a zero tail past it are unchanged. |
| PoolSpec.Grown | dynamicvao.js:198-212 | After `expand`, a store holds its old floats followed by zeros up to the new length. |
| PoolSpec.GrownSlot | dynamicvao.js:198-212 | After growth the old buffer is the prefix, every old slot reads as before, and a zero tail stays zero. |
| PoolSpec.ConcatOfSingletons | dynamicvao.js:257-263 | Store steps that make one call each give exactly those calls, in order. Steps with no call give none. |
| PoolSpec.Refreshed | dynamicvao.js:259-261 | A pending refresh sets the store's `must_update`; nothing else about the store changes, and without a refresh nothing changes. |
| PoolSpec.PrepareCalls | dynamicvao.js:257-263 | One list of calls per store, of at most one call. Without a refresh, a created and up-to-date store calls nothing. With a refresh, each store uploads its whole buffer: a sub-upload when created, otherwise a full upload with its draw mode. |
| PoolSpec.PrepareLog | dynamicvao.js:257-263 | The pool's prepare makes at most one call per store, and exactly one per store when a refresh is pending. |
| PoolSpec.PreparedStates | dynamicvao.js:257-263 | The pool's prepare gives one new state per store, each created and keeping its data, buffer name and dynamism. |
| PoolSpec.PrepareUploads | dynamicvao.js:257-265 | After the pool's prepare every store is created and keeps its data. Without a refresh, each store makes at most one call. With a refresh pending, every store uploads its current contents exactly once, in store order, with a full upload exactly when it was not yet created. It stays flagged afterwards exactly when it is dynamic or had only just been created. |
| PoolSpec.PrepareQuiet | dynamicvao.js:257-265 | A prepare with no refresh pending, when every store is created and up to date, changes nothing and calls nothing. |
| SlotPool.Make | dynamicvao.js:219-226 | Making slot `i` keeps the shape, the kinds, the size, the counter and the recycle list; `MakeSpec` states what the slot then holds. |
| SlotPool.Release | dynamicvao.js:246-252 | Releasing slot `i` keeps the shape, the kinds, the size and the counter; `ReleaseSpec` states the zeroed slot and the recycle list. |
| SlotPool.Expand | dynamicvao.js:198-212 | Growing to `n` slots keeps the shape, the kinds, the counter and the recycle list, and the size becomes `n`; `ExpandSpec` states the floats. |
| SlotPool.Doubled | dynamicvao.js:242 | The size a full pool grows to is always larger than the old size, and is exactly double for a pool of at least one slot. |
| SlotPool.ZeroSizeDoublesToItself | dynamicvao.js:240-243 | A pool of size zero with nothing released is full, and `expand(size * 2)` gives back the same full pool. |
| SlotPool.Acquire | dynamicvao.js:227-245 | Acquiring keeps the invariant and the kinds, never lowers the counter or the size, and hands out a slot below the new counter. With nothing released and room at the counter it makes the slot at the counter. |
| SlotPool.Write | dynamicvao.js:15-17 | Writing one slot of one store keeps the shape, the kinds, the size, the counter and the recycle list. |
| SlotPool.WriteSpec | dynamicvao.js:15-17 | Writing a live slot keeps the invariant and the live slots. The written slot reads the values, and every other slot of every store keeps its floats. |
| SlotPool.Empty | dynamicvao.js:117-121 | A new pool satisfies the pool invariant and has no live slot. |
| SlotPool.MakeSpec | dynamicvao.js:233-238 | Making the slot at the counter keeps the invariant once the counter moves past it. The new slot reads its kind's initial contents in every store, and every other slot keeps its floats. |
| SlotPool.ReleaseSpec | dynamicvao.js:246-252 | Releasing a live slot keeps the invariant. The slot reads zero, every other slot keeps its floats, and the slot is no longer live. |
| SlotPool.ExpandSpec | dynamicvao.js:198-212 | Growth keeps the invariant and the live slots. Each store keeps its old floats as a prefix with zeros after it, and every old slot reads as before. |
| SlotPool.AcquireRecycled | dynamicvao.js:228-231 | With a released slot on the list, acquire pops the most recent one. It reads zero, and nothing else changes. |
| SlotPool.AcquireNew | dynamicvao.js:232-243 | With nothing released, acquire hands out the slot at the counter and advances the counter by one. When the pool is full it first grows it to `Doubled(size)`. The new slot holds its kind's initial contents, and every slot below the counter keeps its floats. |
| SlotPool.AcquireSpec | dynamicvao.js:227-245 | The counter and the size never decrease. The slot handed out was either released or at the counter, and was not live. It becomes the one new live slot, so no live slot is handed out twice. Every live slot keeps its floats. |
| SlotPool.ReleaseThenAcquire | dynamicvao.js:228-252 | Releasing a live object and then acquiring returns the same slot, reading zero, with the recycle list as it was before. |
| SlotPool.PopLive | dynamicvao.js:228-231 | Popping the most recent released slot makes it, and only it, live again. |
| Pool.BuildStores | dynamicvao.js:162-195 | Only channels with a location and a store type get a store, in channel order. Each store is new and zero-filled, has `size` slots of its kind and the channel's effective dynamism, and the buffer names are consecutive. |
| Pool.DeleteBuffers | dynamicvao.js:213-216 | Logs one buffer deletion per store, in store order. |
| Pool.PrepareStores | dynamicvao.js:257-263 | Every store moves as `Prepared` of its state, flagged first if a refresh is pending, and the calls are logged in store order. |
| Pool.AcquireViews | dynamicvao.js:220-223 | One view of slot `index` per store, in key order. Each buffer changes as its kind's `acquire` says. |
| Pool.ClearViews | dynamicvao.js:247-249 | Zero is written through every view of the object, and nothing else in the buffers changes. |
| Pool.RebaseAll | dynamicvao.js:203-207 | Every issued object's views window into its own slot of the new stores. |
| Pool.CopyAll | dynamicvao.js:209-211 | Each new store holds its old store's floats followed by zeros. |
| Pool.DynamicVAO.constructor | dynamicvao.js:113-155 | Every channel is bound as `BindChannels` says. The pool is valid and empty: no slot handed out, nothing recycled, an empty object-to-index map, nothing pending. It holds one new store per resolved channel, each new with a new buffer, named consecutively from the device's next buffer name and not yet on the device. The device counters advance by one vertex array and one buffer per store, and the log shows a vertex-array creation followed by the buffer creations. |
| Pool.DynamicVAO.Construct | dynamicvao.js:156-197 | A new vertex array, then one new zero-filled store of `newSize` slots per resolved channel with consecutive buffer names. The size becomes `newSize`. |
| Pool.DynamicVAO.MakeObject | dynamicvao.js:219-226 | A new object windowing slot `index` in every store is recorded as the next entry of the object-to-index map. The pool moves as `Make` says and stays valid, and the vertex array, the stores and their buffer maps are as they were. |
| Pool.DynamicVAO.Acquire | dynamicvao.js:227-245 | The pool moves as the model's `Acquire` says and stays valid, and a refresh is requested. The object returned is the one issued for the model's slot. With a recycled object, it is the last one, popped, and the object-to-index map is unchanged. Otherwise it is a new object, appended to the map at the old counter, and the recycle list stays empty. Only new buffers and stores join the pool. With a recycled object or room at the counter, the device log and counters, the vertex array, the stores and their buffer maps are unchanged. A full pool grows first: the log gains the deletes and creations of `Expand`, the size becomes `Doubled(size)`, every buffer and store is new, and the new stores are not yet on the device. |
| Pool.DynamicVAO.AcquireFull | dynamicvao.js:240-243 | A full pool is grown to `Doubled(size)` and acquired from again. The new object is appended to the map at the old counter, the model moves as `Acquire` says, every buffer and store is new, the device counters advance by one vertex array and one buffer per store, and the log shows the deletes and then the creations. |
| Pool.DynamicVAO.AcquireRecycled | dynamicvao.js:228-231 | Pops the most recently released object, requests a refresh, and follows the model. The object-to-index map, the vertex array and the stores are unchanged. |
| Pool.DynamicVAO.AcquireNew | dynamicvao.js:233-238 | Makes the object of the next new slot, appends it to the map at the counter, requests a refresh, and follows the model. The vertex array and the stores are unchanged. |
| Pool.DynamicVAO.Relenquish | dynamicvao.js:246-252 | Every view of the object is zeroed and the object is pushed on the recycle list. The pool moves as `Release` says and stays valid, and a refresh is requested. |
| Pool.DynamicVAO.Expand | dynamicvao.js:198-212 | The old buffers and vertex array are deleted and new ones created, in that order in the log. The pool moves as the model's `Expand` says and stays valid, so every issued object is rebased and keeps its floats. The new stores are not yet created on the device, each needs an update exactly when it is dynamic, and their buffer names are consecutive from the device's next name. |
| Pool.DynamicVAO.Replace | dynamicvao.js:200-201 | The new stores replace the old ones, which are handed back with their floats intact; the new stores are zero-filled, unsynced, large enough for every old store, and the log gains the creations. |
| Pool.DynamicVAO.Adopt | dynamicvao.js:202-211 | Every issued object is rebased and every old store's floats are copied in, so the pool is valid and moves as the model's `Expand` says; no store object changes. |
| Pool.DynamicVAO.Write | dynamicvao.js:15-17 | Writing through a view of a live object keeps the pool valid and moves it as the model's `Write` says. |
| Pool.WriteView | dynamicvao.js:15-17 | Writing through one view overwrites exactly that slot's window of its store, and every other store is unchanged. |
| Pool.NewResolved | dynamicvao.js:113-155 | A new one-slot pool over channels that all bind (scalar, vector or matrix, as `Resolve` decides) gives every channel a store, and starts empty with new buffers and stores. |
| Pool.AcquireFresh | dynamicvao.js:227-245 | With nothing released, an acquire hands out a new object, appended to the map; the size stays when there was room and becomes `Doubled(size)` when the pool was full; only new buffers and new objects join the pool's footprint. |
| Pool.ReleaseReacquire | dynamicvao.js:227-252 | Releasing an issued object and acquiring again hands back the same object, with the map, the recycle list and the size as they were. |
| Pool.AcquireReleaseAcquire | dynamicvao.js:113-252 | A new one-slot pool over channels that all bind hands out two different objects, growing to two slots for the second, takes the second back, and hands that same object out again; the pool stays valid with two slots. |
| Pool.DynamicVAO.Delete | dynamicvao.js:213-218 | Logs every store's buffer deletion, in key order, then the vertex array's. |
| Pool.DynamicVAO.RequestRefresh | dynamicvao.js:254-256 | A refresh is pending. |
| Pool.DynamicVAO.Prepare | dynamicvao.js:257-265 | The stores and the log move as `PreparedStates` and `PrepareLog` say for the pending refresh. The pool stays valid and the request is cleared. |
| Pool.DynamicVAO.Draw | dynamicvao.js:266-269 | Logs one instanced draw of the 4-vertex quad with `head` instances. |
| SceneOrder.Insert | scene.js:20-21 | Inserting adds exactly one entry; `InsertSorted`, `InsertPerm` and `InsertAtDepth` state where it goes. |
| SceneOrder.SortByDepth | scene.js:21 | The sort keeps the length; `SortByDepthSorted` and `SortByDepthStable` state that it is a stable, deepest-first permutation. |
| SceneOrder.InsertSorted | scene.js:20-21 | Inserting into a deepest-first list keeps it deepest first. |
| SceneOrder.InsertPerm | scene.js:20-21 | Inserting adds exactly the new entry and keeps every other entry. |
| SceneOrder.InsertAtDepth | scene.js:20-21 | Insertion is stable: at the new entry's depth it comes after the entries already there, and other depths keep their order. |
| SceneOrder.SortByDepthSorted | scene.js:21 | The sort orders the list deepest first and is a permutation of it. |
| SceneOrder.SortByDepthStable | scene.js:21 | The sort is stable: at every depth, entries keep their list order. |
| SceneOrder.SortedUnchanged | scene.js:21 | Sorting a list that is already deepest first changes nothing. |
| SceneOrder.SortAfterPush | scene.js:20-21 | Pushing onto the sorted list and sorting gives the same result as sorting the whole history of additions. Both equal inserting the new entry. |
| SceneOrder.PassOrder | scene.js:19-26 | The pass list of a valid scene holds every pass ever added, as often as it was added. The passes run deepest first, and equal depths run in the order they were added. |
| SceneOrder.PassList | scene.js:22-25 | The pass list has one pass per depth entry, in the same order. |
| SceneOrder.Scene.constructor | scene.js:4-8 | A new scene has no passes. |
| SceneOrder.Scene.AddPass | scene.js:19-26 | The history grows by `(pass, depth)`. The depth list is the stable deepest-first sort of all additions, which equals inserting the new entry into the old list. The pass list mirrors it. |
| SceneOrder.Scene.AddPassAtDefault | scene.js:19 | A pass added without a depth gets depth 0.5. |
| SceneOrder.Scene.Visit | scene.js:29-41 | Each pass is called once, in pass-list order. |
| SceneOrder.Scene.Update | scene.js:27-32 | Every pass's `update` is called with `dt`, in pass order. |
| SceneOrder.Scene.Prepare | scene.js:33-37 | Every pass's `prepare` is called, in pass order. |
| SceneOrder.Scene.Draw | scene.js:38-42 | Every pass's `draw` is called, in pass order. |

## Left out

- **The WebGL context** is replaced by `Gl.Device`, which logs buffer and vertex-array creation and deletion, data uploads and draws. The bind, attribute-pointer, enable and divisor calls of `construct` and `draw` are not logged: they carry no state that the model reads back.
- **The view classes** (scalar, vector and matrix views) live outside the core. A view is modelled as a (store, slot) pair. Writing through it is `Pool.DynamicVAO.Write`, which requires a live object; its `zeroeq` writes zeros, and a matrix view's `set()` writes the identity. Writing through the view of a released object is caller misuse and is not modelled.
- **Pool.DynamicVAO.AcquireNew** moves the counter after making the object rather than before. `make_object` does not read the counter, so the order cannot be observed.
- **Pool.DynamicVAO.MakeObject** requires every channel to have a store (`AllResolved`). For a channel without a location, the source's `make_object` fails at run time.
- **Pool.DynamicVAO.Relenquish** requires an issued object that is not already on the recycle list. Releasing an object twice, or releasing a foreign object, is caller misuse that the source does not check.
- **The object-to-index `Map`** is modelled as the sequence `issued`, in insertion order, with the slot as the position. This holds because objects are never removed from the map and each new object gets the next slot.
- **Pool.DynamicVAO.Acquire**: a recycled matrix slot comes back zeroed, as `relenquish` left it, not reset to the identity. This is what the source does, and `SlotPool.ReleaseThenAcquire` states it.
- **Binding.BindChannels**: missing shader attributes are reported with `console.error` in the source. The missing `vertex` attribute check is console output only and is not modelled.
- **Binding.TypeOf**: a channel's `type` is a JavaScript string. The model takes it as a `ChannelType`, built by `Binding.TypeOf`. A hand-built `Untyped("scalar")` (or `"vec"`, `"mat"`) is not `WellTagged` and stands for no configuration.
- **SlotPool.Acquire** and **Pool.DynamicVAO.AcquireFull** grow a full pool to `Doubled(size)` slots, so a pool of size zero grows to one slot. The source doubles to zero again and recurses without end; see "## Findings".
- **The matrix `_z` column** is stored as found, even when it is negative. The model keeps that behaviour, and `Binding.MatIgnoresZColumn` states it.
- **`SimpleVAO`** is not part of this model.
- **Float32 precision** is not modelled: floats are `real`, so rounding on store is not captured.
- **Scene's own GL buffer** (the square vertices) and its `view` are not part of this model, and neither is `time += dt`, which is floating point.
- **Scene pass callbacks**: a pass's `update`, `prepare` and `draw` are foreign calls, recorded in `PassCalls.log`. The model assumes they do not add passes to the scene while it iterates.
- **SceneOrder.SortByDepth** models the comparator `b[1]-a[1]` as a real-number comparison. NaN depths, for which JavaScript's comparator is inconsistent, are not modelled.
- **The math, sound, shader, image, canvas and engine files** are not part of this model.

## Findings

| source | as written | input that shows it | evidently intended | confidence | as-written member | corrected member |
|---|---|---|---|---|---|---|
| dynamicvao.js:240-243 | A full pool grows with `expand(gl, this.size * 2)` and acquires again. | A pool built with `size = 0`: it is full, doubling gives size 0 again, and `acquire` recurses without end. | Growing makes room: an empty pool grows to one slot, a non-empty one doubles. | not executed | SlotPool.ZeroSizeDoublesToItself | SlotPool.Doubled |
