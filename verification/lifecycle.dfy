/** The scene framebuffer over its whole life: any sequence of calls starting
    from a new object and an idle device. Every state such a sequence
    reaches satisfies the object invariant, the precision flag stays
    undefined in all of them, and once the object is destroyed every further
    call throws. */
module Lifecycle {
  import opened Wrappers
  import opened Renderer
  import opened Scene
  import HdrCache

  /** One call on the object. */
  datatype Op =
    | UpdateOp(context: Context, hdr: Option<bool>)
    | ClearOp(passState: PassState, clearColor: Color)
    | GetFramebufferOp
    | DestroyOp

  /** Which update a run uses: the one as written, or the one that records
      the precision flag. */
  datatype Flavor = AsWritten | Corrected

  /** A new object on a device that has allocated nothing. */
  const Initial := Step(New(), EmptyGpu)

  function Apply(st: Step, op: Op, flavor: Flavor): Result<Step, Error>
  {
    match op
    case UpdateOp(context, hdr) =>
      if flavor == AsWritten then Update(st.state, st.gpu, context, hdr)
      else HdrCache.UpdateCorrected(st.state, st.gpu, context, hdr)
    case ClearOp(passState, clearColor) =>
      var r :- Clear(st.state, st.gpu, passState, clearColor);
      Success(Step(r.state, r.gpu))
    case GetFramebufferOp =>
      var _ :- GetFramebuffer(st.state);
      Success(st)
    case DestroyOp => Destroy(st.state, st.gpu)
  }

  /** Performs the calls in order, stopping at the first that throws. */
  function Run(st: Step, ops: seq<Op>, flavor: Flavor): Result<Step, Error>
    decreases |ops|
  {
    if |ops| == 0 then Success(st)
    else
      var next :- Apply(st, ops[0], flavor);
      Run(next, ops[1..], flavor)
  }

  /** One call keeps the invariant, writes `useHDR` only in the corrected
      flavour, and destroys the object exactly when it is `Destroy`. */
  lemma ApplyPreservesValid(st: Step, op: Op, flavor: Flavor)
    requires Valid(st.state, st.gpu)
    ensures Apply(st, op, flavor).Failure? <==> st.state.destroyed
    ensures Apply(st, op, flavor).Success? ==>
      var r := Apply(st, op, flavor).value;
      && Valid(r.state, r.gpu)
      && (flavor == AsWritten ==> r.state.useHDR == st.state.useHDR)
      && (r.state.destroyed <==> op.DestroyOp?)
  {
    if !st.state.destroyed {
      match op
      case UpdateOp(context, hdr) =>
        UpdatePreservesValid(st.state, st.gpu, context, hdr);
        HdrCache.UpdateCorrectedPreservesValid(st.state, st.gpu, context, hdr);
      case ClearOp(passState, clearColor) =>
        ClearPreservesValid(st.state, st.gpu, passState, clearColor);
      case GetFramebufferOp =>
      case DestroyOp =>
        DestroyReleasesAll(st.state, st.gpu);
    }
  }

  /** Every run from a valid live object keeps the invariant; the object is
      destroyed at the end exactly when the run contains `Destroy`, and the
      as-written update never changes `useHDR`. */
  lemma {:induction false} RunPreservesValid(st: Step, ops: seq<Op>, flavor: Flavor)
    requires Valid(st.state, st.gpu) && !st.state.destroyed
    ensures Run(st, ops, flavor).Success? ==>
      var r := Run(st, ops, flavor).value;
      && Valid(r.state, r.gpu)
      && (flavor == AsWritten ==> r.state.useHDR == st.state.useHDR)
      && (IsDestroyed(r.state) <==> DestroyOp in ops)
    decreases |ops|
  {
    if |ops| > 0 {
      ApplyPreservesValid(st, ops[0], flavor);
      RunStep(st, ops, flavor);
      var next := Apply(st, ops[0], flavor);
      if next.Success? {
        if next.value.state.destroyed {
          if |ops| > 1 {
            CallsAfterDestroyThrow(next.value, ops[1..], flavor);
          }
        } else {
          RunPreservesValid(next.value, ops[1..], flavor);
        }
      }
    }
  }

  /** A run is its first call followed by the run of the rest. */
  lemma RunStep(st: Step, ops: seq<Op>, flavor: Flavor)
    requires |ops| > 0
    ensures ops == [ops[0]] + ops[1..]
    ensures DestroyOp in ops <==> ops[0] == DestroyOp || DestroyOp in ops[1..]
    ensures Apply(st, ops[0], flavor).Failure? ==> Run(st, ops, flavor).Failure?
    ensures Apply(st, ops[0], flavor).Success? ==>
      Run(st, ops, flavor) == Run(Apply(st, ops[0], flavor).value, ops[1..], flavor)
  {
    assert ops == [ops[0]] + ops[1..];
  }

  /** Every state reachable from a new object satisfies the invariant; the
      as-written update leaves `useHDR` undefined in all of them; the object
      reports itself destroyed exactly after `Destroy`. */
  lemma ReachableStates(ops: seq<Op>, flavor: Flavor)
    ensures Run(Initial, ops, flavor).Success? ==>
      var r := Run(Initial, ops, flavor).value;
      && Valid(r.state, r.gpu)
      && (flavor == AsWritten ==> r.state.useHDR == None)
      && (IsDestroyed(r.state) <==> DestroyOp in ops)
  {
    RunPreservesValid(Initial, ops, flavor);
  }

  /** Once destroyed, the object throws on every further call. */
  lemma CallsAfterDestroyThrow(st: Step, ops: seq<Op>, flavor: Flavor)
    requires st.state.destroyed && |ops| > 0
    ensures Run(st, ops, flavor).Failure?
  {
  }

  /** As written, in every reachable live state, an update with a boolean
      flag replaces the colour texture and the framebuffer, whatever the
      context. */
  lemma ReachableBooleanUpdateRebuilds(ops: seq<Op>, context: Context, hdr: bool)
    requires Run(Initial, ops, AsWritten).Success?
    requires !Run(Initial, ops, AsWritten).value.state.destroyed
    ensures var st := Run(Initial, ops, AsWritten).value;
      var r := Update(st.state, st.gpu, context, Some(hdr)).value;
      && TextureChanged(st.state, context, Some(hdr))
      && r.state.colorTexture != st.state.colorTexture
      && r.state.framebuffer != st.state.framebuffer
  {
    var st := Run(Initial, ops, AsWritten).value;
    ReachableStates(ops, AsWritten);
    UpdateRebuildsIffChanged(st.state, st.gpu, context, Some(hdr));
  }

  /** A whole session: update at 800 by 600 in standard precision, clear to
      opaque red, update again in extended precision, destroy. The first
      colour texture is 800 by 600 of unsigned bytes, the clear leaves the
      caller's binding as it was, the second update replaces the colour
      texture with a half-float one after destroying the first, and in the
      end nothing is live. */
  lemma Session(binding: Option<Framebuffer>)
    ensures var context := Context(800, 600, false);
      var s1 := Update(New(), EmptyGpu, context, Some(false)).value;
      var c := Clear(s1.state, s1.gpu, PassState(binding), Color(1.0, 0.0, 0.0, 1.0)).value;
      var s2 := Update(c.state, c.gpu, context, Some(true)).value;
      var s3 := Destroy(s2.state, s2.gpu).value;
      && s1.state.colorTexture.value.width == 800
      && s1.state.colorTexture.value.height == 600
      && s1.state.colorTexture.value.pixelDatatype == UnsignedByte
      && s1.state.depthStencilRenderbuffer.Some?
      && c.passState == PassState(binding)
      && c.gpu.log[|c.gpu.log| - 1] == ClearExecuted(Color(1.0, 0.0, 0.0, 1.0), 1.0, None, s1.state.framebuffer)
      && s2.state.colorTexture.value.pixelDatatype == HalfFloat
      && s2.state.colorTexture.value.width == 800
      && s1.state.colorTexture.value.id !in Live(s2.gpu.log)
      && Live(s3.gpu.log) == {}
  {
    var context := Context(800, 600, false);
    var s1 := Update(New(), EmptyGpu, context, Some(false)).value;
    UpdatePreservesValid(New(), EmptyGpu, context, Some(false));
    var c := Clear(s1.state, s1.gpu, PassState(binding), Color(1.0, 0.0, 0.0, 1.0)).value;
    ClearPreservesValid(s1.state, s1.gpu, PassState(binding), Color(1.0, 0.0, 0.0, 1.0));
    var s2 := Update(c.state, c.gpu, context, Some(true)).value;
    UpdatePreservesValid(c.state, c.gpu, context, Some(true));
    UpdateRebuildsIffChanged(c.state, c.gpu, context, Some(true));
    assert s1.state.colorTexture.value.id in Handles(c.state);
    DestroyReleasesAll(s2.state, s2.gpu);
  }
}
