/** The precision flag the scene framebuffer compares against is never
    recorded, so the as-written update rebuilds every resource on every call
    that passes a boolean. This module exhibits that, and gives the update
    that records the flag on a rebuild, with the idempotence the cache was
    evidently meant to provide. */
module HdrCache {
  import opened Wrappers
  import opened Renderer
  import opened Scene

  // ----- As written -----------------------------------------------------------

  /** As written: on a valid object whose `useHDR` is undefined, a second
      update with the same context and the same boolean flag destroys and
      replaces every resource the first one created. */
  lemma UpdateTwiceRebuildsTwice(s: SceneFramebuffer, g: Gpu, context: Context, hdr: bool)
    requires Valid(s, g) && !s.destroyed && s.useHDR == None
    ensures var r1 := Update(s, g, context, Some(hdr)).value;
      var r2 := Update(r1.state, r1.gpu, context, Some(hdr)).value;
      && TextureChanged(r1.state, context, Some(hdr))
      && r2.state.colorTexture != r1.state.colorTexture
      && r2.state.framebuffer != r1.state.framebuffer
      && r2.gpu.nextId == r1.gpu.nextId + 3
  {
  }

  /** The concrete instance: a new object updated twice at 800 by 600 with
      `hdr` false allocates six resources and destroys the first three. */
  lemma NewObjectUpdatedTwice()
    ensures var context := Context(800, 600, true);
      var r1 := Update(New(), EmptyGpu, context, Some(false)).value;
      var r2 := Update(r1.state, r1.gpu, context, Some(false)).value;
      && r1.state.colorTexture.value.id == 0
      && r2.state.colorTexture.value.id == 3
      && Live(r2.gpu.log) == {3, 4, 5}
  {
    var context := Context(800, 600, true);
    NewObjectUpdatedOnce();
    var r1 := Update(New(), EmptyGpu, context, Some(false)).value;
    var r2 := Update(r1.state, r1.gpu, context, Some(false)).value;
    UpdateRebuildIds(r1.state, r1.gpu, context, Some(false));
    UpdatePreservesValid(r1.state, r1.gpu, context, Some(false));
    RebuildAttachmentsShape(r1.state, r1.gpu, context, Some(false));
    assert Handles(r2.state) == {3, 4, 5};
  }

  /** The first update of a new object builds from id 0 and leaves a valid,
      live object whose flag is still undefined. */
  lemma NewObjectUpdatedOnce()
    ensures var r1 := Update(New(), EmptyGpu, Context(800, 600, true), Some(false)).value;
      && r1.state.colorTexture.value.id == 0
      && r1.gpu.nextId == 3
      && !r1.state.destroyed
      && r1.state.useHDR == None
      && Valid(r1.state, r1.gpu)
  {
    var context := Context(800, 600, true);
    UpdateRebuildIds(New(), EmptyGpu, context, Some(false));
    UpdatePreservesValid(New(), EmptyGpu, context, Some(false));
  }

  // ----- Corrected ------------------------------------------------------------

  /** `Update` that records the flag it built the colour texture for. */
  function UpdateCorrected(s: SceneFramebuffer, g: Gpu, context: Context, hdr: Option<bool>): (r: Result<Step, Error>)
    ensures r.Failure? <==> s.destroyed
    ensures r.Success? ==>
      var t := r.value.state;
      && t.colorTexture.Some?
      && t.colorTexture.value.width == context.drawingBufferWidth
      && t.colorTexture.value.height == context.drawingBufferHeight
      && t.framebuffer.Some?
      && (TextureChanged(s, context, hdr) ==> t.useHDR == hdr && t.colorTexture.value.pixelDatatype == ColorDatatype(hdr))
      && (!TextureChanged(s, context, hdr) ==> t.useHDR == s.useHDR)
  {
    if s.destroyed then Failure(ObjectDestroyed)
    else
      var changed := TextureChanged(s, context, hdr);
      var mid := if changed then
                   var m := RebuildAttachments(s, g, context, hdr);
                   m.(state := m.state.(useHDR := hdr))
                 else Step(s, g);
      if mid.state.framebuffer.None? || changed then Success(RebuildFramebuffer(mid.state, mid.gpu))
      else Success(mid)
  }

  /** The corrected update preserves the object invariant. */
  lemma UpdateCorrectedPreservesValid(s: SceneFramebuffer, g: Gpu, context: Context, hdr: Option<bool>)
    requires Valid(s, g)
    ensures UpdateCorrected(s, g, context, hdr).Success? ==>
      var r := UpdateCorrected(s, g, context, hdr).value;
      Valid(r.state, r.gpu) && Ready(r.state)
  {
    if !s.destroyed {
      if TextureChanged(s, context, hdr) {
        RebuildAttachmentsShape(s, g, context, hdr);
        RebuildAttachmentsAccounted(s, g, context, hdr);
        var m := RebuildAttachments(s, g, context, hdr);
        RebuildFramebufferFacts(m.state.(useHDR := hdr), m.gpu);
      } else if s.framebuffer.None? {
        RebuildFramebufferFacts(s, g);
      }
    }
  }

  /** The corrected update is idempotent: repeating it with the same
      context and flag changes nothing and touches no resource. */
  lemma UpdateCorrectedIdempotent(s: SceneFramebuffer, g: Gpu, context: Context, hdr: Option<bool>)
    requires Valid(s, g) && !s.destroyed
    ensures var r1 := UpdateCorrected(s, g, context, hdr).value;
      UpdateCorrected(r1.state, r1.gpu, context, hdr) == Success(r1)
  {
  }

  /** The corrected update still rebuilds on exactly the size and flag
      changes the as-written one detects, and agrees with it on every
      resource it allocates. */
  lemma UpdateCorrectedAgrees(s: SceneFramebuffer, g: Gpu, context: Context, hdr: Option<bool>)
    requires !s.destroyed
    ensures var a := Update(s, g, context, hdr).value;
      var c := UpdateCorrected(s, g, context, hdr).value;
      && c.gpu == a.gpu
      && c.state == a.state.(useHDR := c.state.useHDR)
  {
  }
}
