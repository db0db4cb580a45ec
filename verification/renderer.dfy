/** The renderer objects a scene framebuffer allocates, seen only at their
    interface: textures and renderbuffers are abstract handles carrying an
    id, their dimensions and their format; a framebuffer carries an id and
    its attachments; and the graphics device is a world value that hands out
    fresh ids and records every allocation, destruction and clear in an event
    log. No pixel is ever modelled. */
module Renderer {
  import opened Wrappers

  datatype PixelFormat = Rgba | DepthStencil

  datatype PixelDatatype = UnsignedByte | HalfFloat | UnsignedInt24_8

  datatype RenderbufferFormat = Rgba4 | DepthComponent16 | DepthStencil

  datatype TextureWrap = ClampToEdge | Repeat | MirroredRepeat

  /** Texture filtering; the mipmapped minification variants are not needed here. */
  datatype Filter = Nearest | Linear

  datatype Sampler = Sampler(
    wrapS: TextureWrap,
    wrapT: TextureWrap,
    minificationFilter: Filter,
    magnificationFilter: Filter)

  /** A texture handle. `sampler` is `None` when the texture was created
      without one and the allocator chose its own default. */
  datatype Texture = Texture(
    id: nat,
    width: nat,
    height: nat,
    pixelFormat: PixelFormat,
    pixelDatatype: PixelDatatype,
    sampler: Option<Sampler>)

  datatype Renderbuffer = Renderbuffer(
    id: nat,
    width: nat,
    height: nat,
    format: RenderbufferFormat)

  /** A framebuffer aggregating colour and depth-stencil attachments. When
      `destroyAttachments` is true, destroying it destroys the attachments
      too; when false, it leaves them alive. */
  datatype Framebuffer = Framebuffer(
    id: nat,
    colorTextures: seq<Texture>,
    depthStencilTexture: Option<Texture>,
    depthStencilRenderbuffer: Option<Renderbuffer>,
    destroyAttachments: bool)

  /** What the scene framebuffer reads from the rendering context. */
  datatype Context = Context(
    drawingBufferWidth: nat,
    drawingBufferHeight: nat,
    depthTexture: bool)

  /** A colour is an opaque value that is copied, never interpreted. */
  datatype Color = Color(red: real, green: real, blue: real, alpha: real)

  /** A reusable clear command; `None` for a channel means "not cleared". */
  datatype ClearCommand = ClearCommand(color: Color, depth: real, stencil: Option<int>)

  /** The per-pass state whose `framebuffer` names the current render destination. */
  datatype PassState = PassState(framebuffer: Option<Framebuffer>)

  /** One observable effect on the graphics device. */
  datatype Event =
    | Allocated(id: nat)
    | Destroyed(id: nat)
    | ClearExecuted(color: Color, depth: real, stencil: Option<int>, target: Option<Framebuffer>)

  /** The graphics device: the next fresh handle id and everything done so far. */
  datatype Gpu = Gpu(nextId: nat, log: seq<Event>)

  const EmptyGpu := Gpu(0, [])

  // ----- The device's log and its bookkeeping -----------------------------

  /** Ids allocated and not yet destroyed after `log`. */
  function Live(log: seq<Event>): set<nat>
  {
    if |log| == 0 then {}
    else
      var before := Live(log[..|log| - 1]);
      match log[|log| - 1]
      case Allocated(id) => before + {id}
      case Destroyed(id) => before - {id}
      case ClearExecuted(_, _, _, _) => before
  }

  /** Ids allocated at some point of `log`. */
  function Ever(log: seq<Event>): set<nat>
  {
    if |log| == 0 then {}
    else
      var before := Ever(log[..|log| - 1]);
      match log[|log| - 1]
      case Allocated(id) => before + {id}
      case _ => before
  }

  /** Number of occurrences of `e` in `log`. */
  function Count(log: seq<Event>, e: Event): nat
  {
    if |log| == 0 then 0
    else Count(log[..|log| - 1], e) + (if log[|log| - 1] == e then 1 else 0)
  }

  /** A log the device can produce: every allocation uses an id never
      allocated before, and only a live handle is ever destroyed. */
  predicate ValidLog(log: seq<Event>)
  {
    |log| == 0 ||
    (var before := log[..|log| - 1];
     ValidLog(before) &&
     match log[|log| - 1]
     case Allocated(id) => id !in Ever(before)
     case Destroyed(id) => id in Live(before)
     case ClearExecuted(_, _, _, _) => true)
  }

  /** The device is well formed: its log is valid and its next id is fresh. */
  predicate Wf(g: Gpu)
  {
    ValidLog(g.log) && forall id :: id in Ever(g.log) ==> id < g.nextId
  }

  /** True when `a` occurs strictly before `b` in `log`. */
  predicate Precedes(log: seq<Event>, a: Event, b: Event)
  {
    exists i, j :: 0 <= i < j < |log| && log[i] == a && log[j] == b
  }

  // ----- Device operations --------------------------------------------------

  /** Reserves the fresh id `g.nextId`. */
  function Allocate(g: Gpu): Gpu
  {
    Gpu(g.nextId + 1, g.log + [Allocated(g.nextId)])
  }

  /** The events `x && x.destroy()` produces: one destruction if `x` is defined. */
  function ReleaseEvents(handle: Option<nat>): seq<Event>
  {
    match handle
    case Some(id) => [Destroyed(id)]
    case None => []
  }

  /** Destroys the handle if it is defined; does nothing otherwise. */
  function Release(g: Gpu, handle: Option<nat>): Gpu
  {
    if handle.Some? then g.(log := g.log + [Destroyed(handle.value)]) else g
  }

  /** The destructions of a framebuffer's attachments, in the order its
      `destroy` visits them: the colour textures, then the depth-stencil
      texture, then the depth-stencil renderbuffer. */
  function AttachmentEvents(fb: Framebuffer): seq<Event>
  {
    TextureEvents(fb.colorTextures)
      + ReleaseEvents(TextureId(fb.depthStencilTexture))
      + ReleaseEvents(RenderbufferId(fb.depthStencilRenderbuffer))
  }

  /** One destruction per texture, in order. */
  function TextureEvents(ts: seq<Texture>): seq<Event>
    decreases |ts|
  {
    if |ts| == 0 then [] else [Destroyed(ts[0].id)] + TextureEvents(ts[1..])
  }

  /** The events `fb && fb.destroy()` produces: the attachments' destructions
      when the framebuffer owns them, then its own. */
  function FramebufferReleaseEvents(fb: Option<Framebuffer>): seq<Event>
  {
    if fb.None? then []
    else if fb.value.destroyAttachments then AttachmentEvents(fb.value) + [Destroyed(fb.value.id)]
    else [Destroyed(fb.value.id)]
  }

  /** Destroys the framebuffer if it is defined, together with its
      attachments when it owns them. */
  function ReleaseFramebuffer(g: Gpu, fb: Option<Framebuffer>): (r: Gpu)
    ensures r.nextId == g.nextId
    ensures fb.None? || !fb.value.destroyAttachments ==> r == Release(g, FramebufferId(fb))
    ensures fb.Some? ==> |g.log| < |r.log| && r.log[|r.log| - 1] == Destroyed(fb.value.id)
  {
    if fb.Some? && fb.value.destroyAttachments then
      g.(log := g.log + AttachmentEvents(fb.value) + [Destroyed(fb.value.id)])
    else Release(g, FramebufferId(fb))
  }

  /** Runs a clear command against the destination named by `passState`. */
  function ExecuteClear(g: Gpu, command: ClearCommand, passState: PassState): Gpu
  {
    g.(log := g.log + [ClearExecuted(command.color, command.depth, command.stencil, passState.framebuffer)])
  }

  function TextureId(t: Option<Texture>): Option<nat>
  {
    if t.Some? then Some(t.value.id) else None
  }

  function RenderbufferId(rb: Option<Renderbuffer>): Option<nat>
  {
    if rb.Some? then Some(rb.value.id) else None
  }

  function FramebufferId(fb: Option<Framebuffer>): Option<nat>
  {
    if fb.Some? then Some(fb.value.id) else None
  }

  function IdSet(handle: Option<nat>): set<nat>
  {
    if handle.Some? then {handle.value} else {}
  }

  // ----- Facts about the log ------------------------------------------------

  /** How each bookkeeping function steps over one appended event. */
  lemma AppendEvent(log: seq<Event>, e: Event)
    ensures Live(log + [e]) == (if e.Allocated? then Live(log) + {e.id}
                                else if e.Destroyed? then Live(log) - {e.id}
                                else Live(log))
    ensures Ever(log + [e]) == (if e.Allocated? then Ever(log) + {e.id} else Ever(log))
    ensures ValidLog(log + [e]) <==> ValidLog(log) && (e.Allocated? ==> e.id !in Ever(log))
                                                   && (e.Destroyed? ==> e.id in Live(log))
    ensures forall x :: Count(log + [e], x) == Count(log, x) + (if e == x then 1 else 0)
  {
  }

  /** Counting distributes over concatenation. */
  lemma {:induction false} CountConcat(a: seq<Event>, b: seq<Event>, e: Event)
    ensures Count(a + b, e) == Count(a, e) + Count(b, e)
    decreases |b|
  {
    if |b| == 0 {
      assert a + b == a;
    } else {
      var b' := b[..|b| - 1];
      var last := b[|b| - 1];
      assert b == b' + [last];
      assert a + b == (a + b') + [last];
      CountConcat(a, b', e);
      AppendEvent(a + b', last);
      AppendEvent(b', last);
    }
  }

  /** Every live id has been allocated. */
  lemma {:induction false} LiveWithinEver(log: seq<Event>)
    ensures Live(log) <= Ever(log)
    decreases |log|
  {
    if |log| > 0 {
      var before := log[..|log| - 1];
      assert log == before + [log[|log| - 1]];
      LiveWithinEver(before);
      AppendEvent(before, log[|log| - 1]);
    }
  }

  /** No leak and no double free: in a valid log every id ever allocated is
      either still live or has been destroyed exactly once, and an id never
      allocated has never been destroyed. */
  lemma {:induction false} LogAccounting(log: seq<Event>, id: nat)
    requires ValidLog(log)
    ensures Count(log, Destroyed(id)) + (if id in Live(log) then 1 else 0)
         == (if id in Ever(log) then 1 else 0)
    decreases |log|
  {
    if |log| > 0 {
      var before := log[..|log| - 1];
      var last := log[|log| - 1];
      assert log == before + [last];
      AppendEvent(before, last);
      LogAccounting(before, id);
      LiveWithinEver(before);
    }
  }

  /** Ids handed out by a well-formed device are below its next id. */
  lemma LiveBelowNext(g: Gpu)
    requires Wf(g)
    ensures forall id :: id in Live(g.log) ==> id < g.nextId
  {
    LiveWithinEver(g.log);
  }

  /** Allocation keeps the device well formed and adds exactly the fresh id. */
  lemma AllocateFacts(g: Gpu)
    requires Wf(g)
    ensures Wf(Allocate(g))
    ensures g.nextId !in Live(g.log)
    ensures Live(Allocate(g).log) == Live(g.log) + {g.nextId}
    ensures Ever(g.log) <= Ever(Allocate(g).log)
  {
    AppendEvent(g.log, Allocated(g.nextId));
    LiveBelowNext(g);
  }

  /** Destroying a live handle (or nothing) keeps the device well formed and
      removes exactly that handle. */
  lemma ReleaseFacts(g: Gpu, handle: Option<nat>)
    requires Wf(g)
    requires handle.Some? ==> handle.value in Live(g.log)
    ensures Wf(Release(g, handle))
    ensures Live(Release(g, handle).log) == Live(g.log) - IdSet(handle)
    ensures Ever(Release(g, handle).log) == Ever(g.log)
  {
    if handle.Some? {
      AppendEvent(g.log, Destroyed(handle.value));
    }
  }

  /** Releasing appends exactly `ReleaseEvents`. */
  lemma ReleaseLog(g: Gpu, handle: Option<nat>)
    ensures Release(g, handle).log == g.log + ReleaseEvents(handle)
    ensures Release(g, handle).nextId == g.nextId
  {
    if handle.None? {
      assert g.log + [] == g.log;
    }
  }

  /** Releasing a framebuffer appends exactly `FramebufferReleaseEvents`. */
  lemma ReleaseFramebufferLog(g: Gpu, fb: Option<Framebuffer>)
    ensures ReleaseFramebuffer(g, fb).log == g.log + FramebufferReleaseEvents(fb)
  {
    if fb.None? {
      assert g.log + [] == g.log;
    } else if fb.value.destroyAttachments {
      assert g.log + AttachmentEvents(fb.value) + [Destroyed(fb.value.id)]
          == g.log + (AttachmentEvents(fb.value) + [Destroyed(fb.value.id)]);
    }
  }

  /** Destroying one owned handle leaves exactly the other owned handles live. */
  lemma ReleaseOwned(g: Gpu, handle: Option<nat>, rest: set<nat>)
    requires Wf(g) && Live(g.log) == IdSet(handle) + rest && IdSet(handle) !! rest
    ensures Wf(Release(g, handle))
    ensures Live(Release(g, handle).log) == rest
    ensures Release(g, handle).nextId == g.nextId
  {
    ReleaseFacts(g, handle);
  }

  /** Executing a clear allocates and destroys nothing. */
  lemma ExecuteClearFacts(g: Gpu, command: ClearCommand, passState: PassState)
    requires Wf(g)
    ensures Wf(ExecuteClear(g, command, passState))
    ensures Live(ExecuteClear(g, command, passState).log) == Live(g.log)
  {
  }

  /** `a` precedes `b` in `p + q` whenever `a` is in `p` and `b` in `q`. */
  lemma PrecedesAcross(p: seq<Event>, q: seq<Event>, a: Event, b: Event)
    requires a in p && b in q
    ensures Precedes(p + q, a, b)
  {
    var i :| 0 <= i < |p| && p[i] == a;
    var j :| 0 <= j < |q| && q[j] == b;
    assert (p + q)[i] == a && (p + q)[|p| + j] == b;
  }

  /** Appending events never forgets an allocation. */
  lemma {:induction false} EverGrows(a: seq<Event>, b: seq<Event>)
    ensures Ever(a) <= Ever(a + b)
    decreases |b|
  {
    if |b| == 0 {
      assert a + b == a;
    } else {
      var b' := b[..|b| - 1];
      assert b == b' + [b[|b| - 1]];
      assert a + b == (a + b') + [b[|b| - 1]];
      EverGrows(a, b');
      AppendEvent(a + b', b[|b| - 1]);
    }
  }

  /** Over any valid stretch of log: a handle live before and dead after was
      destroyed exactly once in the stretch, and a handle live after was not
      destroyed in it at all. */
  lemma SegmentAccounting(before: seq<Event>, seg: seq<Event>, h: nat)
    requires ValidLog(before + seg)
    requires ValidLog(before)
    ensures h in Live(before) && h !in Live(before + seg) ==> Count(seg, Destroyed(h)) == 1
    ensures h in Live(before + seg) ==> Count(seg, Destroyed(h)) == 0
  {
    LogAccounting(before, h);
    LogAccounting(before + seg, h);
    CountConcat(before, seg, Destroyed(h));
    LiveWithinEver(before);
    LiveWithinEver(before + seg);
    EverGrows(before, seg);
  }

  /** A handle destroyed twice in a log makes the log invalid: the device
      never destroys a handle that is no longer live. */
  lemma DoubleFreeInvalid(log: seq<Event>, id: nat)
    requires Count(log, Destroyed(id)) >= 2
    ensures !ValidLog(log)
  {
    if ValidLog(log) {
      LogAccounting(log, id);
    }
  }

  /** Destroying a framebuffer that owns its attachments, and then one of
      those attachments again, destroys that attachment twice: the resulting
      log is invalid. */
  lemma OwningFramebufferDoubleFree(g: Gpu, fb: Framebuffer, k: nat)
    requires fb.destroyAttachments && k < |fb.colorTextures|
    ensures var g1 := ReleaseFramebuffer(g, Some(fb));
      !ValidLog(Release(g1, Some(fb.colorTextures[k].id)).log)
  {
    var id := fb.colorTextures[k].id;
    var e := Destroyed(id);
    var colours := TextureEvents(fb.colorTextures);
    var depth := ReleaseEvents(TextureId(fb.depthStencilTexture));
    var rb := ReleaseEvents(RenderbufferId(fb.depthStencilRenderbuffer));
    var a := AttachmentEvents(fb);
    assert a == colours + depth + rb;
    TextureEventsCount(fb.colorTextures, k);
    CountConcat(colours, depth, e);
    CountConcat(colours + depth, rb, e);
    var g1 := ReleaseFramebuffer(g, Some(fb));
    assert g1.log == g.log + a + [Destroyed(fb.id)];
    CountConcat(g.log, a, e);
    AppendEvent(g.log + a, Destroyed(fb.id));
    AppendEvent(g1.log, e);
    DoubleFreeInvalid(g1.log + [e], id);
  }

  /** `TextureEvents` holds destructions only. */
  lemma {:induction false} TextureEventsDestroy(ts: seq<Texture>)
    ensures forall i :: 0 <= i < |TextureEvents(ts)| ==> TextureEvents(ts)[i].Destroyed?
    decreases |ts|
  {
    if |ts| > 0 {
      TextureEventsDestroy(ts[1..]);
      assert TextureEvents(ts) == [Destroyed(ts[0].id)] + TextureEvents(ts[1..]);
    }
  }

  /** Releasing a framebuffer logs destructions only. */
  lemma FramebufferReleaseEventsDestroy(fb: Option<Framebuffer>)
    ensures forall i :: 0 <= i < |FramebufferReleaseEvents(fb)| ==> FramebufferReleaseEvents(fb)[i].Destroyed?
  {
    if fb.Some? && fb.value.destroyAttachments {
      TextureEventsDestroy(fb.value.colorTextures);
    }
  }

  /** Each texture's destruction occurs among `TextureEvents`. */
  lemma {:induction false} TextureEventsCount(ts: seq<Texture>, k: nat)
    requires k < |ts|
    ensures Count(TextureEvents(ts), Destroyed(ts[k].id)) >= 1
    decreases |ts|
  {
    var e := Destroyed(ts[k].id);
    CountConcat([Destroyed(ts[0].id)], TextureEvents(ts[1..]), e);
    AppendEvent([], Destroyed(ts[0].id));
    assert [] + [Destroyed(ts[0].id)] == [Destroyed(ts[0].id)];
    if k > 0 {
      assert ts[1..][k - 1] == ts[k];
      TextureEventsCount(ts[1..], k - 1);
    }
  }

  /** Regrouping three stretches of log. */
  lemma ConcatAssoc(a: seq<Event>, b: seq<Event>, c: seq<Event>)
    ensures a + b + c == a + (b + c)
  {
  }

  /** A stretch of destructions appended to a log: every appended event is
      a destruction, and each names an id of `ids` when the stretch does. */
  lemma AppendedDestructions(log: seq<Event>, seg: seq<Event>, ids: set<nat>)
    requires forall i :: 0 <= i < |seg| ==> seg[i].Destroyed?
    ensures forall i :: |log| <= i < |log + seg| ==> (log + seg)[i].Destroyed?
    ensures (forall i :: 0 <= i < |seg| ==> seg[i].id in ids) ==>
      forall i :: |log| <= i < |log + seg| ==> (log + seg)[i].id in ids
  {
    forall i | |log| <= i < |log + seg|
      ensures (log + seg)[i] == seg[i - |log|]
    {
    }
  }

  /** The events appended after `a` are exactly `b`. */
  lemma AppendedSuffix(a: seq<Event>, b: seq<Event>)
    ensures (a + b)[|a|..] == b
  {
  }
}
