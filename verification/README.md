# SceneFramebuffer, modelled in Dafny

`SceneFramebuffer` is the off-screen render target a Cesium scene draws into.
It owns four optional renderer resources: a colour texture, a depth-stencil
texture, a depth-stencil renderbuffer, and a framebuffer that aggregates the
other three. `update(context, hdr)` destroys and reallocates all of them when
the drawing buffer's size changes or the precision flag differs from
`_useHDR`. It picks exactly one depth-stencil strategy from
`context.depthTexture`. `clear` redirects the caller's `passState.framebuffer`
to the object's framebuffer while a reused clear command runs, then puts it
back. `destroy` tears everything down.

The model is a functional state machine:

- `Renderer` (renderer.dfy) holds the collaborators as abstract handles. A
  `Texture` or `Renderbuffer` is an id plus its size and format; a
  `Framebuffer` is an id plus its attachments and its `destroyAttachments`
  flag.
  The graphics device is a value `Gpu(nextId, log)`. It hands out fresh ids and
  records every allocation, destruction and executed clear in an event log.
  `Live`, `Ever`, `Count` and `ValidLog` read that log. `LogAccounting` proves
  that in a valid log each allocated handle is either live or destroyed
  exactly once. Destroying a framebuffer created with `destroyAttachments`
  true also destroys its attachments (`ReleaseFramebuffer`), so a later
  destruction of one of them would be a double free.
- `Scene` (scene_framebuffer.dfy) holds the object, its operations and the
  object invariant `Valid`. `Valid` says the live handles are exactly the
  owned ones, under distinct ids. It also says that either all four fields
  are undefined, or the object is `Ready`: one colour texture, exactly one
  depth-stencil attachment of the same size, and a framebuffer over exactly
  those attachments with `destroyAttachments = false`. Finally, the clear
  command's depth is 1.0 and its stencil is unset.
- `HdrCache` (hdr_cache.dfy) holds the finding about `_useHDR` below.
- `Lifecycle` (lifecycle.dfy) covers every call sequence from a new object.

Modelling choices:

- `hdr` is an `Option<bool>` because the JavaScript argument may be
  `undefined`. `_useHDR` is an `Option<bool>` that starts as `None` and that
  `Update` never writes, exactly as in the code. The colour encoding is
  half-float only for `Some(true)`, since `undefined` is falsy.
- After `destroy`, `destroyObject` (in debug builds) makes every method
  except `isDestroyed` throw. Here those operations return
  `Failure(ObjectDestroyed)`, and `IsDestroyed` returns the `destroyed` flag
  that `Destroy` sets.
- Restoring `passState.framebuffer` after a throw from the clear command is
  not modelled, because the code has no `try`/`finally`: restoration is
  proved for a clear that returns.
- Repeated updates with the same context and flag are not idempotent in the
  code (see Findings).

## Model

| member | source | states |
|---|---|---|
| Scene.New | Source/Scene/SceneFramebuffer.js:38-51 | A new object owns nothing, has `useHDR` undefined and a clear command to transparent black at depth 1.0. It satisfies the invariant on an idle device. |
| Scene.Update | Source/Scene/SceneFramebuffer.js:65-119 | It throws only on a destroyed object. Afterwards the colour texture and framebuffer exist and the colour texture matches the drawing-buffer size. On a rebuild the object is Ready, the encoding is HALF_FLOAT iff `hdr` is true, and the depth texture exists iff `context.depthTexture` (otherwise the renderbuffer does). With no change and an existing framebuffer, the object and device are untouched. `useHDR` is never written. |
| Scene.UpdatePreservesValid | Source/Scene/SceneFramebuffer.js:65-119 | From a valid object, update yields a valid, Ready object: no leak, no aliasing, exactly one depth-stencil attachment of the colour texture's size. |
| Scene.UpdateRebuildsIffChanged | Source/Scene/SceneFramebuffer.js:66-71 | The colour texture is replaced iff the texture is missing, the width or height differs, or `hdr !== useHDR`. The framebuffer is replaced under the same condition. Replacements are fresh handles. |
| Scene.RebuildAttachments | Source/Scene/SceneFramebuffer.js:76-105 | The new colour texture has the drawing-buffer size, the next fresh id and HALF_FLOAT encoding iff `hdr` is true. There is a depth-stencil texture iff `context.depthTexture`, and exactly one depth-stencil attachment of the same size. Two ids are used, and nothing but the three attachment fields changes. |
| Scene.ReleaseAttachmentsLog | Source/Scene/SceneFramebuffer.js:72-74 | Releasing the attachments logs the colour texture's, depth-stencil texture's and renderbuffer's destructions, in that order, each only if defined. It allocates nothing. |
| Scene.ReleaseAttachmentsFacts | Source/Scene/SceneFramebuffer.js:72-74 | Destroying whichever attachments are defined leaves only the framebuffer live and allocates nothing. |
| Scene.RebuildAttachmentsShape | Source/Scene/SceneFramebuffer.js:76-105 | The new colour texture is RGBA with clamp-to-edge, nearest sampling. There is exactly one DEPTH_STENCIL attachment of the same size, under the next two fresh ids, after the old attachments' destructions. The framebuffer is left alone. |
| Scene.RebuildAttachmentsLive | Source/Scene/SceneFramebuffer.js:72-105 | After the old attachments are destroyed and the two new ones are created, the live handles are the old framebuffer plus the two fresh ids. |
| Scene.RebuildAttachmentsAccounted | Source/Scene/SceneFramebuffer.js:72-105 | Rebuilding the attachments keeps "live = owned, under distinct ids". |
| Scene.RebuildFramebuffer | Source/Scene/SceneFramebuffer.js:108-118 | The new framebuffer takes the next fresh id. It references `[colorTexture]` and the object's depth-stencil texture and renderbuffer, and has `destroyAttachments` false. Nothing else in the object changes, and one id is used. |
| Scene.RebuildFramebufferFacts | Source/Scene/SceneFramebuffer.js:108-118 | The old framebuffer is destroyed first. The new one is fresh, references `[colorTexture]` and whichever depth-stencil attachment exists, and does not destroy its attachments. |
| Scene.UpdateLogOnRebuild | Source/Scene/SceneFramebuffer.js:71-118 | A rebuild appends: destructions of the old attachments, two allocations, the old framebuffer's destruction, one allocation. |
| Scene.UpdateRebuildIds | Source/Scene/SceneFramebuffer.js:76-118 | A rebuild uses three fresh ids: the colour texture takes the first and the framebuffer the third. |
| Scene.UpdateRebuildLog | Source/Scene/SceneFramebuffer.js:71-118 | A rebuild appends exactly the rebuild's events to the log and keeps its prefix. |
| Scene.RebuildLog | Source/Scene/SceneFramebuffer.js:72-118 | The attachment rebuild followed by the framebuffer rebuild appends the old attachments' destructions, two allocations, the old framebuffer's release and one allocation. |
| Scene.RebuildFramebufferLog | Source/Scene/SceneFramebuffer.js:108-118 | Rebuilding the framebuffer appends the old framebuffer's release, then one allocation under the next fresh id. |
| Scene.UpdateDestroysOldOnce | Source/Scene/SceneFramebuffer.js:72-109 | On a rebuild, each previously owned handle is destroyed exactly once. No handle owned afterwards is destroyed. |
| Scene.RebuildEventsReleaseAttachmentsFirst | Source/Scene/SceneFramebuffer.js:72-88 | In the events of a rebuild, every old attachment's destruction comes before the new colour texture's allocation. |
| Scene.RebuildEventsReleaseFramebufferFirst | Source/Scene/SceneFramebuffer.js:109-111 | In the events of a rebuild, the old framebuffer's destruction comes before the new framebuffer's allocation. |
| Scene.UpdateDestroysBeforeReplacing | Source/Scene/SceneFramebuffer.js:72-111 | On a rebuild, each old attachment is destroyed before the new colour texture is allocated. The old framebuffer is destroyed before the new one is allocated. |
| Scene.Clear | Source/Scene/SceneFramebuffer.js:121-129 | The clear runs against the object's framebuffer, with the caller's colour and the command's depth and stencil. Afterwards the caller's pass state equals its value before the call, `undefined` included. Only the command's colour changes, and nothing is allocated or destroyed. |
| Scene.ClearPreservesValid | Source/Scene/SceneFramebuffer.js:46-50 | After a clear the command holds the caller's colour, depth 1.0 and no stencil. The invariant holds, and on a Ready object the clear targets a live framebuffer. |
| Scene.GetFramebuffer | Source/Scene/SceneFramebuffer.js:131-133 | It throws only on a destroyed object, and otherwise returns the object's own framebuffer. On a consistent object that is defined iff the colour texture is, and it references exactly the current attachments. |
| Scene.GetFramebufferIsClearTarget | Source/Scene/SceneFramebuffer.js:121-133 | On a valid object, a returned framebuffer is live on the device and does not destroy its attachments. It is exactly the target the next `clear` runs against. |
| Scene.IsDestroyed | Source/Scene/SceneFramebuffer.js:135-137 | It is true exactly when the object's calls throw, that is after `destroy`, and false on a live object. |
| Scene.DestroyResources | Source/Scene/SceneFramebuffer.js:53-63 | All four fields become undefined, and nothing else in the object changes. Only destructions are logged, and nothing is allocated. When the framebuffer does not own its attachments (always, by line 116), every destroyed id is an owned handle and the framebuffer's destruction comes first. |
| Scene.DestroyEventsFacts | Source/Scene/SceneFramebuffer.js:53-63 | The events of a teardown are all destructions. When the framebuffer does not own its attachments, each names an owned handle, the framebuffer's first. |
| Scene.Destroy | Source/Scene/SceneFramebuffer.js:139-142 | All four fields become undefined and the object is marked destroyed. Only destructions are logged, and nothing is allocated. When the framebuffer does not own its attachments (always, by line 116), every destroyed id is an owned handle and the framebuffer's destruction comes first. |
| Scene.DestroyPreservesValid | Source/Scene/SceneFramebuffer.js:53-63 | After destroy the invariant holds with all four fields undefined, and no handle is live on the device. |
| Scene.DestroyReleasesAll | Source/Scene/SceneFramebuffer.js:53-63 | After destroy nothing is live, and each handle owned before is destroyed exactly once. |
| Renderer.LogAccounting | Source/Scene/SceneFramebuffer.js:54-57 | In every valid device log, an allocated handle is either live or destroyed exactly once, and a never-allocated handle is never destroyed. |
| Renderer.ReleaseFramebuffer | Source/Scene/SceneFramebuffer.js:54-55 | `framebuffer.destroy()` on a defined framebuffer logs its own destruction last and allocates nothing. With `destroyAttachments` false, or no framebuffer, it is the plain release of the framebuffer's handle. |
| Renderer.ReleaseFramebufferLog | Source/Scene/SceneFramebuffer.js:109 | Releasing a framebuffer appends, in order, its attachments' destructions (only if it owns them) and its own destruction. |
| Renderer.OwningFramebufferDoubleFree | Source/Scene/SceneFramebuffer.js:54-57 | If the framebuffer were created with `destroyAttachments` true, destroying it and then its colour texture, as `destroyResources` does, would give an invalid log. This is why line 116 passes false. |
| HdrCache.UpdateTwiceRebuildsTwice | Source/Scene/SceneFramebuffer.js:44-70 | As written, with `useHDR` undefined, a second update with the same context and boolean flag still replaces the colour texture and framebuffer. |
| HdrCache.NewObjectUpdatedTwice | Source/Scene/SceneFramebuffer.js:65-119 | Concrete case: two updates at 800x600 with `hdr` false leave handles 3, 4, 5 live, and the first three are destroyed. |
| HdrCache.NewObjectUpdatedOnce | Source/Scene/SceneFramebuffer.js:38-119 | Concrete case: the first update of a new object at 800x600 uses ids 0 to 2. It leaves a valid, live object whose `useHDR` is still undefined. |
| HdrCache.UpdateCorrected | Source/Scene/SceneFramebuffer.js:65-119 | The corrected update records `hdr` whenever it rebuilds. Otherwise it behaves as `update`. |
| HdrCache.UpdateCorrectedPreservesValid | Source/Scene/SceneFramebuffer.js:65-119 | The corrected update keeps the object invariant. |
| HdrCache.UpdateCorrectedIdempotent | Source/Scene/SceneFramebuffer.js:66-71 | Repeating the corrected update with the same context and flag changes neither the object nor the device. |
| HdrCache.UpdateCorrectedAgrees | Source/Scene/SceneFramebuffer.js:65-119 | The corrected update allocates and destroys exactly what the as-written one does. It differs only in `useHDR`. |
| Lifecycle.ApplyPreservesValid | Source/Scene/SceneFramebuffer.js:65-142 | Each call keeps the invariant. It throws iff the object is destroyed, and it destroys the object iff it is `destroy`. |
| Lifecycle.RunPreservesValid | Source/Scene/SceneFramebuffer.js:38-142 | Any call sequence keeps the invariant. The object ends destroyed iff the sequence contains `destroy`. The as-written update never changes `useHDR`. |
| Lifecycle.ReachableStates | Source/Scene/SceneFramebuffer.js:135-142 | Every reachable state is valid. As written, `useHDR` is undefined in all of them. `isDestroyed` is false until `destroy` and true after it. |
| Lifecycle.CallsAfterDestroyThrow | Source/Scene/SceneFramebuffer.js:139-142 | Every call after `destroy` throws. |
| Lifecycle.ReachableBooleanUpdateRebuilds | Source/Scene/SceneFramebuffer.js:44-70 | In every reachable live state, an as-written update with a boolean flag replaces the colour texture and framebuffer. |
| Lifecycle.Session | Source/Scene/SceneFramebuffer.js:65-129 | End to end: at 800x600 the colour texture is UNSIGNED_BYTE, with a renderbuffer when depth textures are unsupported. A red clear leaves the caller's binding unchanged and targets the object's framebuffer. An update with `hdr` true yields a HALF_FLOAT texture after destroying the old one. Destroy leaves nothing live. |

## Left out

- packages/engine/Specs/Scene/Cesium3DTilesetMetadataSpec.js: a test of the tileset metadata classes, unrelated to the framebuffer.
- Allocation in the Texture, Renderbuffer and Framebuffer constructors: these are opaque allocators returning the next fresh id. Their argument validation and allocation failures (thrown errors) are not modelled.
- Samplers: a sampler owns no device handle, so it is a plain value. The colour texture's sampler is its wrap and filter fields, and the depth-stencil texture's default sampler appears as `None`.
- Framebuffer.js is not part of this model. `ReleaseFramebuffer` assumes that a framebuffer owning its attachments destroys its colour textures in order, then its depth-stencil texture, then its depth-stencil renderbuffer, and then itself.
- Scene.DestroyResources: the clauses "every appended id is an owned handle" and "the framebuffer's destruction comes first" are stated only for a framebuffer with `destroyAttachments` false (`KeepsAttachments`). That is the only kind the object creates (SceneFramebuffer.js:116), and `Valid` implies it. With an owning framebuffer, the attachments' destructions would come before the framebuffer's, and then again from lines 54-57: `Renderer.OwningFramebufferDoubleFree` shows that such a log is not valid.
- Scene.Destroy: the same two clauses carry the same `KeepsAttachments` condition, for the same reason.
- The pixel effect of `ClearCommand.execute`: it is one `ClearExecuted` event naming the colour, depth, stencil and target framebuffer. The `context` argument of `clear` is only passed through to it, so it is not a parameter of `Scene.Clear`.
- The clear command's `owner` field: nothing in the component reads it.
- `Color`'s float components: a colour is an opaque value that `Color.clone` copies.
- `destroyObject`'s freezing of the object: it is a `destroyed` flag, and every later call fails with `ObjectDestroyed`.
- Release builds: `destroyObject` is not part of this model. Its throwing stubs are compiled in debug builds only, so in a release build, calls after `destroy` do nothing instead of throwing. The model follows the debug behaviour.
- Other users of the device: `Valid` requires the device's live handles to be exactly the object's own, as if the context served only this object. A real context is shared with other renderer objects. On a shared device, the facts about the object's own handles would carry over unchanged. A fact about the whole live set, such as "nothing is live after `destroy`", would hold only for the object's share of it.
- Exceptions thrown from inside `update` or `clear`: no rollback or restoration after a throw is modelled, because the code provides none.
- Scene.Update: the depth-stencil choice and colour encoding are stated only for a rebuilding call. A call that does not rebuild keeps the resources from the last rebuild, and the model states only that they are unchanged.

## Findings

| source | as written | input that shows it | evidently intended | confidence | as-written member | corrected member |
|---|---|---|---|---|---|---|
| Source/Scene/SceneFramebuffer.js:44-70 | `_useHDR` is initialised to `undefined` and never assigned, so `hdr !== this._useHDR` holds for every boolean `hdr`. | A new object updated twice with an 800x600 context and `hdr` false: the second call destroys and reallocates the colour texture, depth-stencil attachment and framebuffer. | Record `hdr` in `_useHDR` when rebuilding, so a repeated update with the same size and flag is a no-op. | not executed; high (the flag is compared but never stored) | HdrCache.UpdateTwiceRebuildsTwice | HdrCache.UpdateCorrected |

The corrected update is proved idempotent (`HdrCache.UpdateCorrectedIdempotent`) and invariant-preserving. `Lifecycle.ApplyPreservesValid`, `Lifecycle.RunPreservesValid`, `Lifecycle.ReachableStates` and `Lifecycle.CallsAfterDestroyThrow` are proved for both flavours of update. `Lifecycle.ReachableBooleanUpdateRebuilds` and `Lifecycle.Session` are about the as-written one only.
