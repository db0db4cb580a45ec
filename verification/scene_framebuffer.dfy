/** The scene framebuffer: the off-screen render target a scene draws into.
    It owns a colour texture, exactly one depth-stencil attachment (a
    texture when the context can sample depth, a renderbuffer otherwise) and
    a framebuffer aggregating them, rebuilds all of them when the drawing
    buffer's size or the colour precision changes, and clears itself with a
    reused clear command without disturbing the caller's framebuffer binding.

    The object is a value; every operation returns the next object together
    with the next state of the graphics device. After `Destroy`, every
    operation except `IsDestroyed` throws, which is modelled as a `Failure`. */
module Scene {
  import opened Wrappers
  import opened Renderer

  /** The error every method of a destroyed object throws. */
  datatype Error = ObjectDestroyed

  datatype SceneFramebuffer = SceneFramebuffer(
    colorTexture: Option<Texture>,
    depthStencilTexture: Option<Texture>,
    depthStencilRenderbuffer: Option<Renderbuffer>,
    framebuffer: Option<Framebuffer>,
    useHDR: Option<bool>,
    clearCommand: ClearCommand,
    destroyed: bool)

  /** An object together with the device state after an operation. */
  datatype Step = Step(state: SceneFramebuffer, gpu: Gpu)

  /** The result of `Clear`: the object, the caller's pass state, the device. */
  datatype ClearStep = ClearStep(state: SceneFramebuffer, passState: PassState, gpu: Gpu)

  /** Clamp-to-edge wrapping and nearest filtering: a render target is
      never tiled or smoothed. */
  const RenderTargetSampler := Sampler(ClampToEdge, ClampToEdge, Nearest, Nearest)

  /** The depth a clear writes: the far plane. */
  const ClearDepth: real := 1.0

  const TransparentBlack := Color(0.0, 0.0, 0.0, 0.0)

  // ----- Invariants ---------------------------------------------------------

  /** The ids of the resources the object currently owns. */
  function Handles(s: SceneFramebuffer): set<nat>
  {
    IdSet(TextureId(s.colorTexture)) + IdSet(TextureId(s.depthStencilTexture))
      + IdSet(RenderbufferId(s.depthStencilRenderbuffer)) + IdSet(FramebufferId(s.framebuffer))
  }

  /** The ids of the colour and depth-stencil attachments. */
  function AttachmentHandles(s: SceneFramebuffer): set<nat>
  {
    IdSet(TextureId(s.colorTexture)) + IdSet(TextureId(s.depthStencilTexture))
      + IdSet(RenderbufferId(s.depthStencilRenderbuffer))
  }

  predicate Apart(a: Option<nat>, b: Option<nat>)
  {
    a.None? || b.None? || a.value != b.value
  }

  /** No two owned resources share a handle. */
  predicate DistinctHandles(s: SceneFramebuffer)
  {
    var c := TextureId(s.colorTexture);
    var t := TextureId(s.depthStencilTexture);
    var r := RenderbufferId(s.depthStencilRenderbuffer);
    var f := FramebufferId(s.framebuffer);
    Apart(c, t) && Apart(c, r) && Apart(c, f) && Apart(t, r) && Apart(t, f) && Apart(r, f)
  }

  /** All four resources are undefined. */
  predicate Released(s: SceneFramebuffer)
  {
    s.colorTexture.None? && s.depthStencilTexture.None?
      && s.depthStencilRenderbuffer.None? && s.framebuffer.None?
  }

  /** The colour texture and exactly one depth-stencil attachment exist, in
      the formats a render target needs, all of the same size. */
  predicate AttachmentsReady(s: SceneFramebuffer)
  {
    && s.colorTexture.Some?
    && var color := s.colorTexture.value;
    && color.pixelFormat == Rgba
    && color.pixelDatatype in {UnsignedByte, HalfFloat}
    && color.sampler == Some(RenderTargetSampler)
    && (s.depthStencilTexture.Some? != s.depthStencilRenderbuffer.Some?)
    && (s.depthStencilTexture.Some? ==>
          var depth := s.depthStencilTexture.value;
          depth.width == color.width && depth.height == color.height
          && depth.pixelFormat == PixelFormat.DepthStencil && depth.pixelDatatype == UnsignedInt24_8)
    && (s.depthStencilRenderbuffer.Some? ==>
          var rb := s.depthStencilRenderbuffer.value;
          rb.width == color.width && rb.height == color.height
          && rb.format == RenderbufferFormat.DepthStencil)
  }

  /** The framebuffer aggregates exactly the current attachments and does
      not own them. */
  predicate FramebufferMatches(s: SceneFramebuffer)
  {
    && s.framebuffer.Some?
    && s.colorTexture.Some?
    && s.framebuffer.value.colorTextures == [s.colorTexture.value]
    && s.framebuffer.value.depthStencilTexture == s.depthStencilTexture
    && s.framebuffer.value.depthStencilRenderbuffer == s.depthStencilRenderbuffer
    && !s.framebuffer.value.destroyAttachments
  }

  /** Destroying the framebuffer leaves the attachments to the object: it is
      undefined or was created with `destroyAttachments` false. */
  predicate KeepsAttachments(s: SceneFramebuffer)
  {
    s.framebuffer.None? || !s.framebuffer.value.destroyAttachments
  }

  /** The resting state after `Update`. */
  predicate Ready(s: SceneFramebuffer)
  {
    AttachmentsReady(s) && FramebufferMatches(s)
  }

  /** All resources released or all of them ready. */
  predicate Consistent(s: SceneFramebuffer)
  {
    Released(s) || Ready(s)
  }

  /** The live resources on the device are exactly the ones the object owns,
      each under its own handle. */
  predicate Accounted(s: SceneFramebuffer, g: Gpu)
  {
    Wf(g) && Live(g.log) == Handles(s) && DistinctHandles(s)
  }

  /** The object invariant: resources accounted for, all of them released or
      all of them ready, and the clear command clearing depth to the far
      plane and leaving stencil alone. */
  predicate Valid(s: SceneFramebuffer, g: Gpu)
  {
    && Accounted(s, g)
    && Consistent(s)
    && s.clearCommand.depth == ClearDepth
    && s.clearCommand.stencil.None?
  }

  // ----- Construction -------------------------------------------------------

  /** A fresh object: no resources, `useHDR` undefined, a clear command to
      transparent black at the far plane. */
  function New(): (s: SceneFramebuffer)
    ensures Released(s) && !s.destroyed
    ensures s.useHDR == None
    ensures s.clearCommand == ClearCommand(TransparentBlack, 1.0, None)
    ensures Valid(s, EmptyGpu)
  {
    SceneFramebuffer(None, None, None, None, None, ClearCommand(TransparentBlack, ClearDepth, None), false)
  }

  // ----- Update -------------------------------------------------------------

  /** Whether `Update` rebuilds the attachments. `hdr` is the caller's
      argument, a boolean or `undefined`; it is compared with `useHDR` by
      strict inequality. */
  predicate TextureChanged(s: SceneFramebuffer, context: Context, hdr: Option<bool>)
  {
    || s.colorTexture.None?
    || s.colorTexture.value.width != context.drawingBufferWidth
    || s.colorTexture.value.height != context.drawingBufferHeight
    || hdr != s.useHDR
  }

  /** The colour encoding `hdr` selects; `undefined` is falsy. */
  function ColorDatatype(hdr: Option<bool>): PixelDatatype
  {
    if hdr == Some(true) then HalfFloat else UnsignedByte
  }

  /** Destroys whichever of the colour texture, depth-stencil texture and
      depth-stencil renderbuffer are defined, in that order. */
  function ReleaseAttachments(s: SceneFramebuffer, g: Gpu): Gpu
  {
    var g1 := Release(g, TextureId(s.colorTexture));
    var g2 := Release(g1, TextureId(s.depthStencilTexture));
    Release(g2, RenderbufferId(s.depthStencilRenderbuffer))
  }

  /** Destroys the old attachments and allocates the colour texture and the
      one depth-stencil attachment the context supports. */
  function RebuildAttachments(s: SceneFramebuffer, g: Gpu, context: Context, hdr: Option<bool>): (r: Step)
    ensures AttachmentsReady(r.state)
    ensures r.state.colorTexture.value.id == g.nextId && r.gpu.nextId == g.nextId + 2
    ensures r.state.colorTexture.value.width == context.drawingBufferWidth
    ensures r.state.colorTexture.value.height == context.drawingBufferHeight
    ensures r.state.colorTexture.value.pixelDatatype == ColorDatatype(hdr)
    ensures r.state.depthStencilTexture.Some? <==> context.depthTexture
    ensures r.state == s.(colorTexture := r.state.colorTexture, depthStencilTexture := r.state.depthStencilTexture,
                          depthStencilRenderbuffer := r.state.depthStencilRenderbuffer)
  {
    var width := context.drawingBufferWidth;
    var height := context.drawingBufferHeight;
    var g3 := ReleaseAttachments(s, g);
    var color := Texture(g3.nextId, width, height, Rgba, ColorDatatype(hdr), Some(RenderTargetSampler));
    var g4 := Allocate(g3);
    if context.depthTexture then
      var depth := Texture(g4.nextId, width, height, PixelFormat.DepthStencil, UnsignedInt24_8, None);
      Step(s.(colorTexture := Some(color), depthStencilTexture := Some(depth), depthStencilRenderbuffer := None),
           Allocate(g4))
    else
      var rb := Renderbuffer(g4.nextId, width, height, RenderbufferFormat.DepthStencil);
      Step(s.(colorTexture := Some(color), depthStencilTexture := None, depthStencilRenderbuffer := Some(rb)),
           Allocate(g4))
  }

  /** Destroys the old framebuffer and allocates one over the current
      attachments that does not destroy them with itself. */
  function RebuildFramebuffer(s: SceneFramebuffer, g: Gpu): (r: Step)
    requires s.colorTexture.Some?
    ensures r.state.framebuffer.Some?
    ensures var fb := r.state.framebuffer.value;
      && fb.id == g.nextId
      && fb.colorTextures == [s.colorTexture.value]
      && fb.depthStencilTexture == s.depthStencilTexture
      && fb.depthStencilRenderbuffer == s.depthStencilRenderbuffer
      && !fb.destroyAttachments
    ensures r.state == s.(framebuffer := r.state.framebuffer)
    ensures r.gpu.nextId == g.nextId + 1
  {
    var g1 := ReleaseFramebuffer(g, s.framebuffer);
    var fb := Framebuffer(g1.nextId, [s.colorTexture.value], s.depthStencilTexture,
                          s.depthStencilRenderbuffer, false);
    Step(s.(framebuffer := Some(fb)), Allocate(g1))
  }

  /** Brings the render target in line with the drawing buffer and the
      requested precision. `useHDR` is never written, so a boolean `hdr`
      always differs from it and always rebuilds. */
  function Update(s: SceneFramebuffer, g: Gpu, context: Context, hdr: Option<bool>): (r: Result<Step, Error>)
    ensures r.Failure? <==> s.destroyed
    ensures r.Success? ==>
      var t := r.value.state;
      && t.colorTexture.Some?
      && t.colorTexture.value.width == context.drawingBufferWidth
      && t.colorTexture.value.height == context.drawingBufferHeight
      && t.framebuffer.Some?
      && t.useHDR == s.useHDR
      && t.clearCommand == s.clearCommand
      && !t.destroyed
      && |g.log| <= |r.value.gpu.log| && r.value.gpu.log[..|g.log|] == g.log
    ensures r.Success? && TextureChanged(s, context, hdr) ==>
      var t := r.value.state;
      && Ready(t)
      && t.colorTexture.value.pixelDatatype == ColorDatatype(hdr)
      && (t.depthStencilTexture.Some? <==> context.depthTexture)
      && (t.depthStencilRenderbuffer.Some? <==> !context.depthTexture)
    ensures r.Success? && !TextureChanged(s, context, hdr) && s.framebuffer.Some? ==>
      r.value == Step(s, g)
    ensures r.Success? && Consistent(s) ==> Ready(r.value.state)
  {
    if s.destroyed then Failure(ObjectDestroyed)
    else
      var changed := TextureChanged(s, context, hdr);
      var mid := if changed then RebuildAttachments(s, g, context, hdr) else Step(s, g);
      if mid.state.framebuffer.None? || changed then Success(RebuildFramebuffer(mid.state, mid.gpu))
      else Success(mid)
  }

  // ----- Clear --------------------------------------------------------------

  /** Clears the render target to `clearColor` (and depth to the far plane):
      the caller's binding is redirected to this object's framebuffer while
      the reused clear command runs, then put back. */
  function Clear(s: SceneFramebuffer, g: Gpu, passState: PassState, clearColor: Color): (r: Result<ClearStep, Error>)
    ensures r.Failure? <==> s.destroyed
    ensures r.Success? ==>
      && r.value.passState == passState
      && r.value.gpu.nextId == g.nextId
      && r.value.gpu.log == g.log + [ClearExecuted(clearColor, s.clearCommand.depth, s.clearCommand.stencil, s.framebuffer)]
      && r.value.state == s.(clearCommand := s.clearCommand.(color := clearColor))
  {
    if s.destroyed then Failure(ObjectDestroyed)
    else
      var saved := passState.framebuffer;
      var redirected := passState.(framebuffer := s.framebuffer);
      var command := s.clearCommand.(color := clearColor);
      var g1 := ExecuteClear(g, command, redirected);
      Success(ClearStep(s.(clearCommand := command), redirected.(framebuffer := saved), g1))
  }

  // ----- Accessors ----------------------------------------------------------

  /** The framebuffer to draw into; `undefined` before the first update. */
  function GetFramebuffer(s: SceneFramebuffer): (r: Result<Option<Framebuffer>, Error>)
    ensures r.Failure? <==> s.destroyed
    ensures r.Success? ==> r.value == s.framebuffer
    ensures r.Success? && Consistent(s) ==>
      && (r.value.Some? <==> s.colorTexture.Some?)
      && (r.value.Some? ==>
            && r.value.value.colorTextures == [s.colorTexture.value]
            && r.value.value.depthStencilTexture == s.depthStencilTexture
            && r.value.value.depthStencilRenderbuffer == s.depthStencilRenderbuffer)
  {
    if s.destroyed then Failure(ObjectDestroyed) else Success(s.framebuffer)
  }

  /** False on a live object; true once `Destroy` has run, which is exactly
      when every other call throws. */
  function IsDestroyed(s: SceneFramebuffer): (destroyed: bool)
    ensures destroyed <==> GetFramebuffer(s).Failure?
  {
    s.destroyed
  }

  // ----- Destruction --------------------------------------------------------

  /** Destroys the framebuffer, then the colour texture, then whichever
      depth-stencil attachments are defined, and forgets all four. */
  function DestroyResources(s: SceneFramebuffer, g: Gpu): (r: Step)
    ensures Released(r.state)
    ensures r.state.destroyed == s.destroyed && r.state.useHDR == s.useHDR
    ensures r.state.clearCommand == s.clearCommand
    ensures r.gpu.nextId == g.nextId
    ensures var log := r.gpu.log;
      && |g.log| <= |log| && log[..|g.log|] == g.log
      && (forall i :: |g.log| <= i < |log| ==> log[i].Destroyed?)
    ensures KeepsAttachments(s) ==>
      var log := r.gpu.log;
      && (forall i :: |g.log| <= i < |log| ==> log[i].id in Handles(s))
      && (s.framebuffer.Some? ==> |g.log| < |log| && log[|g.log|] == Destroyed(s.framebuffer.value.id))
  {
    var g1 := ReleaseFramebuffer(g, s.framebuffer);
    var g4 := ReleaseAttachments(s, g1);
    ReleaseFramebufferLog(g, s.framebuffer);
    ReleaseAttachmentsLog(s, g1);
    ConcatAssoc(g.log, FramebufferReleaseEvents(s.framebuffer), AttachmentReleaseEvents(s));
    DestroyEventsFacts(s);
    AppendedDestructions(g.log, DestroyEvents(s), Handles(s));
    Step(s.(framebuffer := None, colorTexture := None, depthStencilTexture := None,
            depthStencilRenderbuffer := None), g4)
  }

  /** The destructions `DestroyResources` logs, in order. */
  function DestroyEvents(s: SceneFramebuffer): seq<Event>
  {
    FramebufferReleaseEvents(s.framebuffer) + AttachmentReleaseEvents(s)
  }

  /** Every event `DestroyResources` logs is a destruction. When the
      framebuffer leaves its attachments alone, each names an owned handle
      and the framebuffer's comes first. */
  lemma DestroyEventsFacts(s: SceneFramebuffer)
    ensures forall i :: 0 <= i < |DestroyEvents(s)| ==> DestroyEvents(s)[i].Destroyed?
    ensures KeepsAttachments(s) ==>
      forall i :: 0 <= i < |DestroyEvents(s)| ==> DestroyEvents(s)[i].id in Handles(s)
    ensures KeepsAttachments(s) && s.framebuffer.Some? ==>
      |DestroyEvents(s)| > 0 && DestroyEvents(s)[0] == Destroyed(s.framebuffer.value.id)
  {
    var fbEvents := FramebufferReleaseEvents(s.framebuffer);
    var c := ReleaseEvents(TextureId(s.colorTexture));
    var t := ReleaseEvents(TextureId(s.depthStencilTexture));
    var rb := ReleaseEvents(RenderbufferId(s.depthStencilRenderbuffer));
    assert DestroyEvents(s) == fbEvents + c + t + rb;
    FramebufferReleaseEventsDestroy(s.framebuffer);
  }

  /** Releases every resource and marks the object destroyed. Only
      destructions are logged, the framebuffer's first. */
  function Destroy(s: SceneFramebuffer, g: Gpu): (r: Result<Step, Error>)
    ensures r.Failure? <==> s.destroyed
    ensures r.Success? ==>
      var t := r.value.state;
      var log := r.value.gpu.log;
      && Released(t) && t.destroyed
      && r.value.gpu.nextId == g.nextId
      && |g.log| <= |log| && log[..|g.log|] == g.log
      && (forall i :: |g.log| <= i < |log| ==> log[i].Destroyed?)
    ensures r.Success? && KeepsAttachments(s) ==>
      var log := r.value.gpu.log;
      && (forall i :: |g.log| <= i < |log| ==> log[i].id in Handles(s))
      && (s.framebuffer.Some? ==> |g.log| < |log| && log[|g.log|] == Destroyed(s.framebuffer.value.id))
  {
    if s.destroyed then Failure(ObjectDestroyed)
    else
      var step := DestroyResources(s, g);
      Success(step.(state := step.state.(destroyed := true)))
  }

  // ----- Proofs: update -----------------------------------------------------

  /** The destructions `ReleaseAttachments` logs, in order. */
  function AttachmentReleaseEvents(s: SceneFramebuffer): seq<Event>
  {
    ReleaseEvents(TextureId(s.colorTexture)) + ReleaseEvents(TextureId(s.depthStencilTexture))
      + ReleaseEvents(RenderbufferId(s.depthStencilRenderbuffer))
  }

  /** Every owned attachment has its destruction among those events. */
  lemma AttachmentReleaseEventsCover(s: SceneFramebuffer, h: nat)
    requires h in AttachmentHandles(s)
    ensures Destroyed(h) in AttachmentReleaseEvents(s)
  {
    if h in IdSet(TextureId(s.colorTexture)) {
      assert ReleaseEvents(TextureId(s.colorTexture)) == [Destroyed(h)];
    } else if h in IdSet(TextureId(s.depthStencilTexture)) {
      assert ReleaseEvents(TextureId(s.depthStencilTexture)) == [Destroyed(h)];
    } else {
      assert ReleaseEvents(RenderbufferId(s.depthStencilRenderbuffer)) == [Destroyed(h)];
    }
  }

  /** Releasing the attachments appends exactly their destructions. */
  lemma ReleaseAttachmentsLog(s: SceneFramebuffer, g: Gpu)
    ensures ReleaseAttachments(s, g).log == g.log + AttachmentReleaseEvents(s)
    ensures ReleaseAttachments(s, g).nextId == g.nextId
  {
    var c := TextureId(s.colorTexture);
    var t := TextureId(s.depthStencilTexture);
    var rb := RenderbufferId(s.depthStencilRenderbuffer);
    var g1 := Release(g, c);
    var g2 := Release(g1, t);
    ReleaseLog(g, c);
    ReleaseLog(g1, t);
    ReleaseLog(g2, rb);
    assert g.log + ReleaseEvents(c) + ReleaseEvents(t) + ReleaseEvents(rb)
        == g.log + (ReleaseEvents(c) + ReleaseEvents(t) + ReleaseEvents(rb));
  }

  /** Releasing the attachments leaves only the framebuffer live. */
  lemma ReleaseAttachmentsFacts(s: SceneFramebuffer, g: Gpu)
    requires Accounted(s, g)
    ensures var g3 := ReleaseAttachments(s, g);
      && Wf(g3)
      && g3.nextId == g.nextId
      && Live(g3.log) == IdSet(FramebufferId(s.framebuffer))
  {
    var c := TextureId(s.colorTexture);
    var t := TextureId(s.depthStencilTexture);
    var rb := RenderbufferId(s.depthStencilRenderbuffer);
    var f := FramebufferId(s.framebuffer);
    var g1 := Release(g, c);
    ReleaseOwned(g, c, IdSet(t) + IdSet(rb) + IdSet(f));
    var g2 := Release(g1, t);
    ReleaseOwned(g1, t, IdSet(rb) + IdSet(f));
    ReleaseOwned(g2, rb, IdSet(f));
  }

  /** Rebuilding the attachments allocates a colour texture and one
      depth-stencil attachment under the next two fresh ids, after the old
      attachments have been destroyed, and leaves the framebuffer alone. */
  lemma RebuildAttachmentsShape(s: SceneFramebuffer, g: Gpu, context: Context, hdr: Option<bool>)
    ensures var m := RebuildAttachments(s, g, context, hdr);
      && AttachmentsReady(m.state)
      && m.state.framebuffer == s.framebuffer
      && m.state.colorTexture.value.id == g.nextId
      && m.gpu.nextId == g.nextId + 2
      && AttachmentHandles(m.state) == {g.nextId, g.nextId + 1}
      && m.gpu.log == ReleaseAttachments(s, g).log + [Allocated(g.nextId), Allocated(g.nextId + 1)]
  {
    ReleaseAttachmentsLog(s, g);
  }

  /** After rebuilding the attachments, the live handles are the old
      framebuffer and the two fresh ids. */
  lemma RebuildAttachmentsLive(s: SceneFramebuffer, g: Gpu, context: Context, hdr: Option<bool>)
    requires Accounted(s, g)
    ensures var m := RebuildAttachments(s, g, context, hdr);
      && Wf(m.gpu)
      && Live(m.gpu.log) == IdSet(FramebufferId(s.framebuffer)) + {g.nextId, g.nextId + 1}
  {
    var g3 := ReleaseAttachments(s, g);
    ReleaseAttachmentsFacts(s, g);
    var g4 := Allocate(g3);
    AllocateFacts(g3);
    AllocateFacts(g4);
    assert RebuildAttachments(s, g, context, hdr).gpu == Allocate(g4);
  }

  /** Rebuilding the attachments keeps every live resource owned and every
      owned resource live, under distinct handles. */
  lemma RebuildAttachmentsAccounted(s: SceneFramebuffer, g: Gpu, context: Context, hdr: Option<bool>)
    requires Accounted(s, g)
    ensures var m := RebuildAttachments(s, g, context, hdr);
      Accounted(m.state, m.gpu)
  {
    var m := RebuildAttachments(s, g, context, hdr);
    var n := g.nextId;
    var f := FramebufferId(s.framebuffer);
    RebuildAttachmentsShape(s, g, context, hdr);
    RebuildAttachmentsLive(s, g, context, hdr);
    LiveBelowNext(g);
    assert f.Some? ==> f.value < n by {
      assert f.Some? ==> f.value in Handles(s);
    }
    assert FramebufferId(m.state.framebuffer) == f;
    assert Handles(m.state) == {n, n + 1} + IdSet(f);
    assert TextureId(m.state.colorTexture) == Some(n);
    assert DistinctHandles(m.state);
  }

  /** Rebuilding the framebuffer over ready attachments destroys the old
      framebuffer and yields a ready object whose new framebuffer is fresh. */
  lemma RebuildFramebufferFacts(s: SceneFramebuffer, g: Gpu)
    requires Accounted(s, g) && AttachmentsReady(s) && KeepsAttachments(s)
    ensures var m := RebuildFramebuffer(s, g);
      && Ready(m.state)
      && Accounted(m.state, m.gpu)
      && m.state.framebuffer.value.id == g.nextId
      && m.gpu.log == g.log + ReleaseEvents(FramebufferId(s.framebuffer)) + [Allocated(g.nextId)]
  {
    var g1 := Release(g, FramebufferId(s.framebuffer));
    assert ReleaseFramebuffer(g, s.framebuffer) == g1;
    ReleaseFacts(g, FramebufferId(s.framebuffer));
    ReleaseLog(g, FramebufferId(s.framebuffer));
    AllocateFacts(g1);
    assert RebuildFramebuffer(s, g).gpu == Allocate(g1);
    LiveBelowNext(g);
  }

  /** `Update` preserves the object invariant: afterwards exactly the owned
      resources are live, each under its own handle, and the object is ready. */
  lemma UpdatePreservesValid(s: SceneFramebuffer, g: Gpu, context: Context, hdr: Option<bool>)
    requires Valid(s, g)
    ensures Update(s, g, context, hdr).Success? ==>
      var r := Update(s, g, context, hdr).value;
      Valid(r.state, r.gpu) && Ready(r.state)
  {
    if !s.destroyed {
      var changed := TextureChanged(s, context, hdr);
      if changed {
        RebuildAttachmentsShape(s, g, context, hdr);
        RebuildAttachmentsAccounted(s, g, context, hdr);
        var m := RebuildAttachments(s, g, context, hdr);
        RebuildFramebufferFacts(m.state, m.gpu);
      } else if s.framebuffer.None? {
        RebuildFramebufferFacts(s, g);
      }
    }
  }

  /** The colour texture is replaced exactly when `TextureChanged` holds; a
      replacement is a newly allocated texture, and so are the new
      depth-stencil attachment and framebuffer. */
  lemma UpdateRebuildsIffChanged(s: SceneFramebuffer, g: Gpu, context: Context, hdr: Option<bool>)
    requires Valid(s, g) && !s.destroyed
    ensures var r := Update(s, g, context, hdr).value;
      && (r.state.colorTexture != s.colorTexture <==> TextureChanged(s, context, hdr))
      && (r.state.framebuffer != s.framebuffer <==> TextureChanged(s, context, hdr))
      && (TextureChanged(s, context, hdr) ==>
            && AttachmentHandles(r.state) !! Handles(s)
            && r.state.framebuffer.value.id !in Handles(s))
  {
    if TextureChanged(s, context, hdr) {
      var r := Update(s, g, context, hdr).value;
      UpdateLogOnRebuild(s, g, context, hdr);
      RebuildAttachmentsShape(s, g, context, hdr);
      assert AttachmentHandles(r.state) == {g.nextId, g.nextId + 1};
      LiveBelowNext(g);
      assert forall h :: h in Handles(s) ==> h < g.nextId;
      assert s.colorTexture.Some? ==> s.colorTexture.value.id in Handles(s);
      assert s.framebuffer.Some? ==> s.framebuffer.value.id in Handles(s);
    }
  }

  /** The events a rebuilding `Update` appends: the old attachments'
      destructions, the two new attachments, the old framebuffer's
      destruction, the new framebuffer. */
  function RebuildEvents(s: SceneFramebuffer, g: Gpu): seq<Event>
  {
    AttachmentReleaseEvents(s)
      + [Allocated(g.nextId), Allocated(g.nextId + 1)]
      + FramebufferReleaseEvents(s.framebuffer)
      + [Allocated(g.nextId + 2)]
  }

  /** A rebuilding `Update` appends exactly `RebuildEvents`; the colour
      texture and framebuffer it installs are the first and third fresh ids. */
  lemma UpdateLogOnRebuild(s: SceneFramebuffer, g: Gpu, context: Context, hdr: Option<bool>)
    requires !s.destroyed && TextureChanged(s, context, hdr)
    ensures var r := Update(s, g, context, hdr).value;
      && r.gpu.log == g.log + RebuildEvents(s, g)
      && r.gpu.nextId == g.nextId + 3
      && r.state.colorTexture.value.id == g.nextId
      && r.state.framebuffer.value.id == g.nextId + 2
  {
    UpdateRebuildIds(s, g, context, hdr);
    UpdateRebuildLog(s, g, context, hdr);
  }

  /** The ids a rebuilding `Update` hands out: colour texture first,
      framebuffer third. */
  lemma UpdateRebuildIds(s: SceneFramebuffer, g: Gpu, context: Context, hdr: Option<bool>)
    requires !s.destroyed && TextureChanged(s, context, hdr)
    ensures var r := Update(s, g, context, hdr).value;
      && r.gpu.nextId == g.nextId + 3
      && r.state.colorTexture.value.id == g.nextId
      && r.state.framebuffer.value.id == g.nextId + 2
  {
    var m := RebuildAttachments(s, g, context, hdr);
    assert Update(s, g, context, hdr).value == RebuildFramebuffer(m.state, m.gpu);
  }

  /** On a rebuild, `Update` is the attachment rebuild followed by the
      framebuffer rebuild. */
  lemma UpdateOnRebuild(s: SceneFramebuffer, g: Gpu, context: Context, hdr: Option<bool>)
    requires !s.destroyed && TextureChanged(s, context, hdr)
    ensures var m := RebuildAttachments(s, g, context, hdr);
      Update(s, g, context, hdr) == Success(RebuildFramebuffer(m.state, m.gpu))
  {
  }

  /** The log of a rebuilding `Update`. */
  lemma UpdateRebuildLog(s: SceneFramebuffer, g: Gpu, context: Context, hdr: Option<bool>)
    requires !s.destroyed && TextureChanged(s, context, hdr)
    ensures Update(s, g, context, hdr).value.gpu.log == g.log + RebuildEvents(s, g)
  {
    UpdateOnRebuild(s, g, context, hdr);
    RebuildLog(s, g, context, hdr);
  }

  /** The attachment rebuild and the framebuffer rebuild together append
      `RebuildEvents`, piece by piece. */
  lemma RebuildLog(s: SceneFramebuffer, g: Gpu, context: Context, hdr: Option<bool>)
    ensures var m := RebuildAttachments(s, g, context, hdr);
      RebuildFramebuffer(m.state, m.gpu).gpu.log == g.log + RebuildEvents(s, g)
  {
    var m := RebuildAttachments(s, g, context, hdr);
    var dead := AttachmentReleaseEvents(s);
    var born := [Allocated(g.nextId), Allocated(g.nextId + 1)];
    var fbDead := FramebufferReleaseEvents(s.framebuffer);
    var fbBorn := [Allocated(g.nextId + 2)];
    var log1 := ReleaseAttachments(s, g).log;
    ReleaseAttachmentsLog(s, g);
    RebuildAttachmentsShape(s, g, context, hdr);
    RebuildFramebufferLog(m.state, m.gpu);
    LogOfRebuild(g.log, log1, m.gpu.log, RebuildFramebuffer(m.state, m.gpu).gpu.log, dead, born, fbDead, fbBorn);
  }

  /** Regrouping of the four pieces a rebuild appends, one stage at a time. */
  lemma LogOfRebuild(log0: seq<Event>, log1: seq<Event>, log2: seq<Event>, log3: seq<Event>,
                     dead: seq<Event>, born: seq<Event>, fbDead: seq<Event>, fbBorn: seq<Event>)
    requires log1 == log0 + dead && log2 == log1 + born && log3 == log2 + fbDead + fbBorn
    ensures log3 == log0 + (dead + born + fbDead + fbBorn)
  {
  }

  /** Rebuilding the framebuffer appends the old one's destruction and the
      new one's allocation. */
  lemma RebuildFramebufferLog(s: SceneFramebuffer, g: Gpu)
    requires s.colorTexture.Some?
    ensures RebuildFramebuffer(s, g).gpu.log == g.log + FramebufferReleaseEvents(s.framebuffer) + [Allocated(g.nextId)]
  {
    ReleaseFramebufferLog(g, s.framebuffer);
  }

  /** On a rebuild, each previously owned resource is destroyed exactly
      once, and nothing the object owns afterwards has been destroyed. */
  lemma UpdateDestroysOldOnce(s: SceneFramebuffer, g: Gpu, context: Context, hdr: Option<bool>)
    requires Valid(s, g) && !s.destroyed && TextureChanged(s, context, hdr)
    ensures var r := Update(s, g, context, hdr).value;
      var seg := r.gpu.log[|g.log|..];
      && r.gpu.log == g.log + seg
      && (forall h :: h in Handles(s) ==> Count(seg, Destroyed(h)) == 1)
      && (forall h :: h in Handles(r.state) ==> Count(seg, Destroyed(h)) == 0)
  {
    var r := Update(s, g, context, hdr).value;
    UpdateLogOnRebuild(s, g, context, hdr);
    UpdateRebuildsIffChanged(s, g, context, hdr);
    UpdatePreservesValid(s, g, context, hdr);
    var seg := RebuildEvents(s, g);
    AppendedSuffix(g.log, seg);
    assert Handles(r.state) == AttachmentHandles(r.state) + {r.state.framebuffer.value.id};
    assert Live(g.log) == Handles(s) && Live(r.gpu.log) == Handles(r.state);
    forall h | h in Handles(s) ensures Count(seg, Destroyed(h)) == 1 {
      SegmentAccounting(g.log, seg, h);
    }
    forall h | h in Handles(r.state) ensures Count(seg, Destroyed(h)) == 0 {
      SegmentAccounting(g.log, seg, h);
    }
  }

  /** In the rebuild events, each old attachment's destruction comes before
      the first allocation. */
  lemma RebuildEventsReleaseAttachmentsFirst(s: SceneFramebuffer, g: Gpu)
    ensures forall h :: h in AttachmentHandles(s) ==>
      Precedes(RebuildEvents(s, g), Destroyed(h), Allocated(g.nextId))
  {
    var dead := AttachmentReleaseEvents(s);
    var rest := [Allocated(g.nextId), Allocated(g.nextId + 1)] + FramebufferReleaseEvents(s.framebuffer)
                + [Allocated(g.nextId + 2)];
    assert RebuildEvents(s, g) == dead + rest;
    assert rest[0] == Allocated(g.nextId);
    forall h | h in AttachmentHandles(s)
      ensures Precedes(dead + rest, Destroyed(h), Allocated(g.nextId))
    {
      AttachmentReleaseEventsCover(s, h);
      PrecedesAcross(dead, rest, Destroyed(h), Allocated(g.nextId));
    }
  }

  /** In the rebuild events, the old framebuffer's destruction comes before
      the last allocation. */
  lemma RebuildEventsReleaseFramebufferFirst(s: SceneFramebuffer, g: Gpu)
    requires s.framebuffer.Some?
    ensures Precedes(RebuildEvents(s, g), Destroyed(s.framebuffer.value.id), Allocated(g.nextId + 2))
  {
    var front := AttachmentReleaseEvents(s) + [Allocated(g.nextId), Allocated(g.nextId + 1)]
                 + FramebufferReleaseEvents(s.framebuffer);
    assert RebuildEvents(s, g) == front + [Allocated(g.nextId + 2)];
    assert front[|front| - 1] == Destroyed(s.framebuffer.value.id);
    PrecedesAcross(front, [Allocated(g.nextId + 2)], Destroyed(s.framebuffer.value.id), Allocated(g.nextId + 2));
  }

  /** On a rebuild, each old attachment is destroyed before the new colour
      texture is allocated, and the old framebuffer before the new one. */
  lemma UpdateDestroysBeforeReplacing(s: SceneFramebuffer, g: Gpu, context: Context, hdr: Option<bool>)
    requires !s.destroyed && TextureChanged(s, context, hdr)
    ensures var r := Update(s, g, context, hdr).value;
      var seg := r.gpu.log[|g.log|..];
      && (forall h :: h in AttachmentHandles(s) ==>
            Precedes(seg, Destroyed(h), Allocated(r.state.colorTexture.value.id)))
      && (s.framebuffer.Some? ==>
            Precedes(seg, Destroyed(s.framebuffer.value.id), Allocated(r.state.framebuffer.value.id)))
  {
    UpdateLogOnRebuild(s, g, context, hdr);
    AppendedSuffix(g.log, RebuildEvents(s, g));
    RebuildEventsReleaseAttachmentsFirst(s, g);
    if s.framebuffer.Some? {
      RebuildEventsReleaseFramebufferFirst(s, g);
    }
  }

  // ----- Proofs: clear and destroy ------------------------------------------

  /** `Clear` keeps the invariant and, on a ready object, runs against a
      framebuffer that is live on the device. */
  lemma ClearPreservesValid(s: SceneFramebuffer, g: Gpu, passState: PassState, clearColor: Color)
    requires Valid(s, g)
    ensures Clear(s, g, passState, clearColor).Success? ==>
      var r := Clear(s, g, passState, clearColor).value;
      && Valid(r.state, r.gpu)
      && r.state.clearCommand == ClearCommand(clearColor, ClearDepth, None)
      && (Ready(s) ==> r.gpu.log[|r.gpu.log| - 1].target.value.id in Live(r.gpu.log))
  {
    if !s.destroyed {
      var command := s.clearCommand.(color := clearColor);
      ExecuteClearFacts(g, command, passState.(framebuffer := s.framebuffer));
    }
  }

  /** On a valid object, the framebuffer `GetFramebuffer` returns is live,
      leaves its attachments alone when destroyed, and is the target the
      next `Clear` runs against. */
  lemma GetFramebufferIsClearTarget(s: SceneFramebuffer, g: Gpu, passState: PassState, clearColor: Color)
    requires Valid(s, g) && !s.destroyed
    ensures var fb := GetFramebuffer(s).value;
      var c := Clear(s, g, passState, clearColor).value;
      && (fb.Some? ==> !fb.value.destroyAttachments && fb.value.id in Live(g.log))
      && c.gpu.log[|c.gpu.log| - 1].target == fb
  {
    if s.framebuffer.Some? {
      assert s.framebuffer.value.id in Handles(s);
    }
  }

  /** `Destroy` keeps the invariant and leaves nothing live. */
  lemma DestroyPreservesValid(s: SceneFramebuffer, g: Gpu)
    requires Valid(s, g) && !s.destroyed
    ensures var r := Destroy(s, g).value;
      Valid(r.state, r.gpu) && Live(r.gpu.log) == {}
  {
    var c := TextureId(s.colorTexture);
    var t := TextureId(s.depthStencilTexture);
    var rb := RenderbufferId(s.depthStencilRenderbuffer);
    var f := FramebufferId(s.framebuffer);
    var g1 := Release(g, f);
    ReleaseOwned(g, f, IdSet(c) + IdSet(t) + IdSet(rb));
    var g2 := Release(g1, c);
    ReleaseOwned(g1, c, IdSet(t) + IdSet(rb));
    var g3 := Release(g2, t);
    ReleaseOwned(g2, t, IdSet(rb));
    ReleaseOwned(g3, rb, {});
  }

  /** After `Destroy` each resource owned before is destroyed exactly once. */
  lemma DestroyReleasesAll(s: SceneFramebuffer, g: Gpu)
    requires Valid(s, g) && !s.destroyed
    ensures var r := Destroy(s, g).value;
      var seg := r.gpu.log[|g.log|..];
      && Valid(r.state, r.gpu)
      && Live(r.gpu.log) == {}
      && (forall h :: h in Handles(s) ==> Count(seg, Destroyed(h)) == 1)
  {
    var r := Destroy(s, g).value;
    DestroyPreservesValid(s, g);
    var seg := r.gpu.log[|g.log|..];
    assert r.gpu.log == g.log + seg;
    forall h | h in Handles(s) ensures Count(seg, Destroyed(h)) == 1 {
      SegmentAccounting(g.log, seg, h);
    }
  }
}
