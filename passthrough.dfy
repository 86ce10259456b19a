/**
 * The client's passthrough back-ends (em::Passthrough and its FB, HTC and environment-blend-mode
 * variants): the current blend mode, which changes only when the back-end's handler succeeds,
 * and the pure decisions derived from it (clear colour, composition layer, alpha blending in
 * place of additive). The virtual dispatch becomes a `backend` tag; every OpenXR call becomes
 * an input carrying the runtime's answer. Handles are naturals with 0 for XR_NULL_HANDLE.
 */
module Passthrough {
  import opened Wrappers
  import opened ClientXrContext

  /** XrEnvironmentBlendMode values; any other int is a mode no switch names. */
  const Opaque: int := 1
  const Additive: int := 2
  const AlphaBlend: int := 3

  /** XrCompositionLayerFlags bits. */
  const SourceAlphaBit: nat := 0x2
  const UnpremultipliedAlphaBit: nat := 0x4
  /** SOURCE_ALPHA | UNPREMULTIPLIED_ALPHA; the bits are distinct, so the union is their sum. */
  const DefaultProjectionLayerFlags: nat := SourceAlphaBit + UnpremultipliedAlphaBit

  const FbExtensionName: string := "XR_FB_passthrough"
  const HtcExtensionName: string := "XR_HTC_passthrough"

  /** The two modes in which the real world shows through. */
  predicate ShowsWorld(mode: int) {
    mode == Additive || mode == AlphaBlend
  }

  datatype Color = Color(r: real, g: real, b: real, a: real)

  /** clear_color: transparent black when the world shows through, opaque black otherwise. */
  function ClearColor(mode: int): (c: Color)
    ensures c.r == 0.0 && c.g == 0.0 && c.b == 0.0
    ensures c.a == 0.0 <==> ShowsWorld(mode)
    ensures !ShowsWorld(mode) ==> c.a == 1.0
  {
    if mode == Additive || mode == AlphaBlend then Color(0.0, 0.0, 0.0, 0.0)
    else Color(0.0, 0.0, 0.0, 1.0)
  }

  /** The back-end's own composition-layer struct that a PassthroughLayer points at. */
  datatype CompLayer =
    | NoCompLayer
    | FbLayer(layerHandle: nat, flags: nat)
    | HtcLayer(passthrough: nat, flags: nat)

  datatype PassthroughLayer = PassthroughLayer(compLayer: CompLayer, projectionLayerFlags: nat, envBlendMode: int)

  /** A default-constructed PassthroughLayer. */
  function DefaultLayer(): (l: PassthroughLayer)
    ensures l.compLayer == NoCompLayer && l.projectionLayerFlags == 0 && l.envBlendMode == Opaque
  {
    PassthroughLayer(NoCompLayer, 0, Opaque)
  }

  /** The layer the FB and HTC back-ends hand out while their passthrough is live. */
  function SubmittedLayer(layer: CompLayer): PassthroughLayer {
    PassthroughLayer(layer, DefaultProjectionLayerFlags, Opaque)
  }

  /**
   * FBPassthrough::composition_layer: nothing without a reconstruction layer or in a mode
   * where the world does not show; otherwise the FB layer struct with the projection flags
   * and the environment mode forced to OPAQUE.
   */
  function FbCompositionLayer(reconLayer: nat, structLayerHandle: nat, mode: int): (l: PassthroughLayer)
    ensures l.envBlendMode == Opaque
    ensures l.compLayer != NoCompLayer <==> reconLayer != NullHandle && ShowsWorld(mode)
    ensures l.compLayer == NoCompLayer ==> l == DefaultLayer()
    ensures l.compLayer != NoCompLayer ==>
              l.projectionLayerFlags == DefaultProjectionLayerFlags
              && l.compLayer == FbLayer(structLayerHandle, SourceAlphaBit)
  {
    if reconLayer == NullHandle then DefaultLayer()
    else if mode == Additive || mode == AlphaBlend then SubmittedLayer(FbLayer(structLayerHandle, SourceAlphaBit))
    else DefaultLayer()
  }

  /**
   * HTCPassthrough::composition_layer as written: the HTC layer struct it points at keeps the
   * null passthrough handle it was constructed with, because no code stores the created handle.
   */
  function HtcCompositionLayerAsWritten(htcPassthrough: nat, mode: int): (l: PassthroughLayer)
    ensures l.envBlendMode == Opaque
    ensures l.compLayer != NoCompLayer <==> htcPassthrough != NullHandle && ShowsWorld(mode)
    ensures l.compLayer == NoCompLayer ==> l == DefaultLayer()
    ensures l.compLayer != NoCompLayer ==>
              l.projectionLayerFlags == DefaultProjectionLayerFlags
              && l.compLayer == HtcLayer(NullHandle, SourceAlphaBit)
  {
    if htcPassthrough == NullHandle then DefaultLayer()
    else if mode == Additive || mode == AlphaBlend then SubmittedLayer(HtcLayer(NullHandle, SourceAlphaBit))
    else DefaultLayer()
  }

  /** A live HTC passthrough in ADDITIVE mode submits a layer whose passthrough handle is null. */
  lemma HtcLayerSubmitsNullHandle()
    ensures var l := HtcCompositionLayerAsWritten(7, Additive);
            l.compLayer.HtcLayer? && l.compLayer.passthrough == NullHandle
  {
  }

  /** HTCPassthrough::composition_layer with the layer struct pointing at the live passthrough. */
  function HtcCompositionLayer(htcPassthrough: nat, mode: int): (l: PassthroughLayer)
    ensures l.envBlendMode == Opaque
    ensures l.compLayer != NoCompLayer <==> htcPassthrough != NullHandle && ShowsWorld(mode)
    ensures l.compLayer == NoCompLayer ==> l == DefaultLayer()
    // Every submitted layer names the passthrough that is actually running.
    ensures l.compLayer != NoCompLayer ==>
              l.projectionLayerFlags == DefaultProjectionLayerFlags
              && l.compLayer == HtcLayer(htcPassthrough, SourceAlphaBit) && l.compLayer.passthrough != NullHandle
  {
    if htcPassthrough == NullHandle then DefaultLayer()
    else if mode == Additive || mode == AlphaBlend then SubmittedLayer(HtcLayer(htcPassthrough, SourceAlphaBit))
    else DefaultLayer()
  }

  /**
   * The code as written and the corrected layer submit in exactly the same states, with the
   * same flags and mode; they differ only in the passthrough handle the layer names.
   */
  lemma HtcLayersDifferOnlyInHandle(htcPassthrough: nat, mode: int)
    ensures var w, c := HtcCompositionLayerAsWritten(htcPassthrough, mode), HtcCompositionLayer(htcPassthrough, mode);
            && (w.compLayer != NoCompLayer <==> c.compLayer != NoCompLayer)
            && w.projectionLayerFlags == c.projectionLayerFlags && w.envBlendMode == c.envBlendMode
            && (w.compLayer != NoCompLayer ==> c.compLayer == w.compLayer.(passthrough := htcPassthrough))
            && (w == c <==> w.compLayer == NoCompLayer)
  {
  }

  /** FB and HTC: the application should alpha blend exactly when the mode is ADDITIVE. */
  function LayerBackendUsesAlphaForAdditive(mode: int): (r: bool)
    ensures r <==> mode == Additive
  {
    match mode
    case 2 => true
    case _ => false
  }

  /** std::find on the advertised modes. */
  function HasMode(modes: seq<int>, mode: int): (r: bool)
    ensures r <==> mode in modes
    decreases |modes|
  {
    if modes == [] then false else modes[0] == mode || HasMode(modes[1..], mode)
  }

  /** The EBM constructor's flag: alpha blending stands in for additive when only ALPHA_BLEND is offered. */
  function EbmAlphaForAdditive(modes: seq<int>): (r: bool)
    ensures r <==> Additive !in modes && AlphaBlend in modes
  {
    !HasMode(modes, Additive) && HasMode(modes, AlphaBlend)
  }

  /** EBMPassthrough::is_supported: std::find_if for a mode that shows the world. */
  function EbmSupported(modes: seq<int>): (r: bool)
    ensures r <==> Additive in modes || AlphaBlend in modes
    decreases |modes|
  {
    if modes == [] then false
    else (modes[0] == Additive || modes[0] == AlphaBlend) || EbmSupported(modes[1..])
  }

  /**
   * EBMPassthrough::composition_layer: no layer of its own; the current mode is passed on and
   * the projection flags are set for ALPHA_BLEND, or for ADDITIVE drawn with alpha blending.
   */
  function EbmCompositionLayer(mode: int, alphaForAdditive: bool): (l: PassthroughLayer)
    ensures l.compLayer == NoCompLayer && l.envBlendMode == mode
    ensures l.projectionLayerFlags == 0 || l.projectionLayerFlags == DefaultProjectionLayerFlags
    ensures l.projectionLayerFlags != 0 <==> mode == AlphaBlend || (mode == Additive && alphaForAdditive)
  {
    var flags := if mode == AlphaBlend || (mode == Additive && alphaForAdditive) then DefaultProjectionLayerFlags else 0;
    PassthroughLayer(NoCompLayer, flags, mode)
  }

  /**
   * Since the EBM back-end reaches only OPAQUE or advertised modes, and stands alpha blending in
   * for additive only when additive is not advertised, its projection flags are set exactly in
   * ALPHA_BLEND mode.
   */
  lemma EbmFlagsExactlyForAlphaBlend(modes: seq<int>, mode: int)
    requires mode == Opaque || mode in modes
    ensures EbmCompositionLayer(mode, EbmAlphaForAdditive(modes)).projectionLayerFlags != 0 <==> mode == AlphaBlend
  {
  }

  /** Whenever a back-end submits its passthrough layer or sets projection flags, the clear colour is transparent. */
  lemma ClearColorAgreesWithLayers(reconLayer: nat, structLayerHandle: nat, htcPassthrough: nat, modes: seq<int>, mode: int)
    requires mode == Opaque || mode in modes
    ensures FbCompositionLayer(reconLayer, structLayerHandle, mode).compLayer != NoCompLayer ==> ClearColor(mode).a == 0.0
    ensures HtcCompositionLayerAsWritten(htcPassthrough, mode).compLayer != NoCompLayer ==> ClearColor(mode).a == 0.0
    ensures HtcCompositionLayer(htcPassthrough, mode).compLayer != NoCompLayer ==> ClearColor(mode).a == 0.0
    ensures EbmCompositionLayer(mode, EbmAlphaForAdditive(modes)).projectionLayerFlags != 0 ==> ClearColor(mode).a == 0.0
  {
  }

  /** FBPassthrough::is_supported: the extension is enabled and the system reports passthrough support. */
  function FbSupported(ctx: XrContext, systemSupportsPassthrough: Option<bool>): (r: bool)
    ensures r ==> IsValid(ctx)
    ensures r <==> IsExtEnabled(ctx, Some(FbExtensionName)) && systemSupportsPassthrough == Some(true)
  {
    if !IsExtEnabled(ctx, Some(FbExtensionName)) then false
    else systemSupportsPassthrough == Some(true)
  }

  /** HTCPassthrough::is_supported. */
  function HtcSupported(ctx: XrContext): (r: bool)
    ensures r ==> IsValid(ctx)
  {
    IsExtEnabled(ctx, Some(HtcExtensionName))
  }

  /**
   * FBPassthrough::resume_passthrough_layer: without a reconstruction layer it fails; otherwise
   * it succeeds iff starting the passthrough, resuming the layer and setting its style all do.
   */
  function FbResume(reconLayer: nat, startOk: bool, layerResumeOk: bool, styleOk: bool): (r: bool)
    ensures r <==> reconLayer != NullHandle && startOk && layerResumeOk && styleOk
  {
    if reconLayer == NullHandle then false
    else if !startOk then false
    else if !layerResumeOk then false
    else styleOk
  }

  /** FBPassthrough::pasue_passthrough_layer: true whenever the layer exists, even if both pause calls fail. */
  function FbPause(reconLayer: nat, layerPauseOk: bool, pauseOk: bool): (r: bool)
    ensures r <==> reconLayer != NullHandle
  {
    if reconLayer == NullHandle then false
    else
      // Failed pause calls are only logged.
      true
  }

  /** make_passthrough's choice: FB if supported, else HTC if supported, else EBM regardless. */
  datatype Backend = FbBackend | HtcBackend | EbmBackend

  function ChooseBackend(fbSupported: bool, htcSupported: bool): (b: Backend)
    ensures b == FbBackend <==> fbSupported
    ensures b == HtcBackend <==> !fbSupported && htcSupported
    ensures b == EbmBackend <==> !fbSupported && !htcSupported
  {
    if fbSupported then FbBackend else if htcSupported then HtcBackend else EbmBackend
  }

  /** The runtime's answers to the calls one set_blend_mode may make. */
  datatype HandlerCalls = HandlerCalls(
    fbStartOk: bool, fbLayerResumeOk: bool, fbStyleOk: bool,
    fbLayerPauseOk: bool, fbPauseOk: bool,
    htcCreate: Option<nat>, htcDestroyOk: bool)

  /**
   * The EBM constructor's m_availableBlendModes. `getSystem` answers xrGetSystem; `enumerated`
   * the first xrEnumerateEnvironmentBlendModes (None on failure, otherwise the modes, whose
   * number is the count); `fillOk` whether the second call, whose result is not checked, wrote them.
   */
  function EbmModes(ctx: XrContext, getSystem: Option<nat>, enumerated: Option<seq<int>>, fillOk: bool): (r: seq<int>)
    ensures !IsValid(ctx) || SystemId(ctx, getSystem) == NullSystemId || enumerated.None? ==> r == []
    ensures IsValid(ctx) && SystemId(ctx, getSystem) != NullSystemId && enumerated.Some? ==>
              |r| == |enumerated.value| && (fillOk ==> r == enumerated.value)
              && (!fillOk ==> forall k :: 0 <= k < |r| ==> r[k] == Opaque)
  {
    if !IsValid(ctx) then []
    else if SystemId(ctx, getSystem) == NullSystemId then []
    else if enumerated.None? then []
    else if fillOk then enumerated.value
    else Repeat(Opaque, |enumerated.value|)
  }

  class Passthrough {
    const ctx: XrContext
    const backend: Backend
    /** m_eb_mode. */
    var mode: int

    /** FB: the runtime's passthrough-support property, and the handles. */
    const fbSystemSupport: Option<bool>
    var fbPassthrough: nat
    var fbReconLayer: nat
    /** FB: layerHandle inside m_passthrough_layer. */
    var fbStructLayerHandle: nat

    /** HTC: m_passthroughHTC and the number of xrCreatePassthroughHTC calls made. */
    var htcPassthrough: nat
    var htcCreateCalls: nat

    /** EBM: m_availableBlendModes and m_use_alpha_blend_for_additive. */
    var availableModes: seq<int>
    var useAlphaForAdditive: bool

    ghost predicate Valid()
      reads this
    {
      && (backend == FbBackend ==>
            fbStructLayerHandle == fbReconLayer && (fbReconLayer != NullHandle ==> fbPassthrough != NullHandle))
      && (backend == HtcBackend && htcPassthrough != NullHandle ==> HtcSupported(ctx))
      && (backend == EbmBackend ==>
            (mode == Opaque || mode in availableModes) && useAlphaForAdditive == EbmAlphaForAdditive(availableModes))
    }

    /**
     * FBPassthrough's constructor. `loadOk` is whether every extension function was found;
     * `createPassthrough` and `createLayer` are the handles the runtime hands back (None when
     * the call fails). A failed layer creation destroys the passthrough again.
     */
    constructor Fb(ctx: XrContext, systemSupport: Option<bool>, loadOk: bool,
                   createPassthrough: Option<nat>, createLayer: Option<nat>)
      ensures Valid() && this.ctx == ctx && backend == FbBackend && mode == Opaque
      ensures fbSystemSupport == systemSupport
      ensures var created := FbSupported(ctx, systemSupport) && loadOk
                             && createPassthrough.Some? && createPassthrough.value != NullHandle
                             && createLayer.Some? && createLayer.value != NullHandle;
              && (created ==> fbPassthrough == createPassthrough.value && fbReconLayer == createLayer.value)
              && (!created ==> fbPassthrough == NullHandle && fbReconLayer == NullHandle)
      ensures htcPassthrough == NullHandle && htcCreateCalls == 0 && availableModes == [] && !useAlphaForAdditive
    {
      this.ctx := ctx;
      backend := FbBackend;
      mode := Opaque;
      fbSystemSupport := systemSupport;
      htcPassthrough := NullHandle;
      htcCreateCalls := 0;
      availableModes := [];
      useAlphaForAdditive := false;
      var passthrough := NullHandle;
      var layer := NullHandle;
      if FbSupported(ctx, systemSupport) && loadOk {
        if createPassthrough.Some? && createPassthrough.value != NullHandle {
          passthrough := createPassthrough.value;
          if createLayer.Some? && createLayer.value != NullHandle {
            layer := createLayer.value;
          } else {
            passthrough := NullHandle;
          }
        }
      }
      fbPassthrough := passthrough;
      fbReconLayer := layer;
      fbStructLayerHandle := layer;
    }

    /** HTCPassthrough's constructor: nothing is created until the first resume. */
    constructor Htc(ctx: XrContext)
      ensures Valid() && this.ctx == ctx && backend == HtcBackend && mode == Opaque
      ensures htcPassthrough == NullHandle && htcCreateCalls == 0
      ensures fbPassthrough == NullHandle && fbReconLayer == NullHandle && availableModes == [] && !useAlphaForAdditive
    {
      this.ctx := ctx;
      backend := HtcBackend;
      mode := Opaque;
      fbSystemSupport := None;
      fbPassthrough := NullHandle;
      fbReconLayer := NullHandle;
      fbStructLayerHandle := NullHandle;
      htcPassthrough := NullHandle;
      htcCreateCalls := 0;
      availableModes := [];
      useAlphaForAdditive := false;
    }

    /** EBMPassthrough's constructor: it reads the advertised modes and derives the alpha flag. */
    constructor Ebm(ctx: XrContext, getSystem: Option<nat>, enumerated: Option<seq<int>>, fillOk: bool)
      ensures Valid() && this.ctx == ctx && backend == EbmBackend && mode == Opaque
      ensures availableModes == EbmModes(ctx, getSystem, enumerated, fillOk)
      ensures useAlphaForAdditive == EbmAlphaForAdditive(availableModes)
      ensures fbPassthrough == NullHandle && fbReconLayer == NullHandle && htcPassthrough == NullHandle
    {
      this.ctx := ctx;
      backend := EbmBackend;
      mode := Opaque;
      fbSystemSupport := None;
      fbPassthrough := NullHandle;
      fbReconLayer := NullHandle;
      fbStructLayerHandle := NullHandle;
      htcPassthrough := NullHandle;
      htcCreateCalls := 0;
      var modes := EbmModes(ctx, getSystem, enumerated, fillOk);
      availableModes := modes;
      useAlphaForAdditive := EbmAlphaForAdditive(modes);
    }

    /** is_supported, per back-end. */
    function IsSupported(): (r: bool)
      reads this
      ensures backend == FbBackend ==> (r <==> FbSupported(ctx, fbSystemSupport))
      ensures backend == HtcBackend ==> (r <==> HtcSupported(ctx))
      ensures backend == EbmBackend ==> (r <==> Additive in availableModes || AlphaBlend in availableModes)
    {
      match backend
      case FbBackend => FbSupported(ctx, fbSystemSupport)
      case HtcBackend => HtcSupported(ctx)
      case EbmBackend => EbmSupported(availableModes)
    }

    /** use_alpha_blend_for_additive, per back-end (each overrides the base's constant false). */
    function UseAlphaBlendForAdditive(): (r: bool)
      reads this
      ensures backend != EbmBackend ==> (r <==> mode == Additive)
      ensures backend == EbmBackend ==> r == useAlphaForAdditive
      ensures Valid() && backend == EbmBackend ==> (r <==> Additive !in availableModes && AlphaBlend in availableModes)
    {
      if backend == EbmBackend then useAlphaForAdditive else LayerBackendUsesAlphaForAdditive(mode)
    }

    /** composition_layer, per back-end, the HTC one as written (its layer names the null handle). */
    function CompositionLayer(): (l: PassthroughLayer)
      reads this
      ensures backend == FbBackend ==> l == FbCompositionLayer(fbReconLayer, fbStructLayerHandle, mode)
      ensures backend == HtcBackend ==> l == HtcCompositionLayerAsWritten(htcPassthrough, mode)
      ensures backend == EbmBackend ==> l == EbmCompositionLayer(mode, useAlphaForAdditive)
      // In every back-end, passthrough content is composed only while the world shows through.
      ensures l.compLayer != NoCompLayer || l.projectionLayerFlags != 0 ==> ShowsWorld(mode)
    {
      match backend
      case FbBackend => FbCompositionLayer(fbReconLayer, fbStructLayerHandle, mode)
      case HtcBackend => HtcCompositionLayerAsWritten(htcPassthrough, mode)
      case EbmBackend => EbmCompositionLayer(mode, useAlphaForAdditive)
    }

    /** HTCPassthrough::resume_passthrough_layer: creates the passthrough once; a live one is kept. */
    method HtcResume(created: Option<nat>) returns (ok: bool)
      requires backend == HtcBackend && Valid()
      modifies this
      ensures Valid()
      ensures !HtcSupported(ctx) ==> !ok && htcPassthrough == old(htcPassthrough) && htcCreateCalls == old(htcCreateCalls)
      ensures HtcSupported(ctx) && old(htcPassthrough) != NullHandle ==>
                ok && htcPassthrough == old(htcPassthrough) && htcCreateCalls == old(htcCreateCalls)
      ensures HtcSupported(ctx) && old(htcPassthrough) == NullHandle ==>
                && htcCreateCalls == old(htcCreateCalls) + 1
                && (ok <==> created.Some?)
                && htcPassthrough == (if created.Some? then created.value else NullHandle)
      ensures mode == old(mode) && availableModes == old(availableModes) && useAlphaForAdditive == old(useAlphaForAdditive)
      ensures fbPassthrough == old(fbPassthrough) && fbReconLayer == old(fbReconLayer)
      ensures fbStructLayerHandle == old(fbStructLayerHandle)
    {
      if !HtcSupported(ctx) {
        return false;
      }
      if htcPassthrough != NullHandle {
        return true;
      }
      htcCreateCalls := htcCreateCalls + 1;
      if created.None? {
        htcPassthrough := NullHandle;
        return false;
      }
      htcPassthrough := created.value;
      ok := true;
    }

    /** HTCPassthrough::pasue_passthrough_layer: when supported, always drops the handle and succeeds. */
    method HtcPause(destroyOk: bool) returns (ok: bool)
      requires backend == HtcBackend && Valid()
      modifies this
      ensures Valid()
      ensures ok <==> HtcSupported(ctx)
      ensures htcPassthrough == (if HtcSupported(ctx) then NullHandle else old(htcPassthrough))
      ensures htcCreateCalls == old(htcCreateCalls) && mode == old(mode)
      ensures availableModes == old(availableModes) && useAlphaForAdditive == old(useAlphaForAdditive)
      ensures fbPassthrough == old(fbPassthrough) && fbReconLayer == old(fbReconLayer)
      ensures fbStructLayerHandle == old(fbStructLayerHandle)
    {
      if !HtcSupported(ctx) {
        return false;
      }
      // A failed destroy is only logged.
      htcPassthrough := NullHandle;
      ok := true;
    }

    /**
     * set_blend_mode: refused for an invalid context or the current mode; otherwise the
     * back-end's handler decides, and only its success changes the mode.
     */
    method SetBlendMode(newMode: int, calls: HandlerCalls) returns (ok: bool)
      requires Valid()
      modifies this
      ensures Valid()
      ensures !IsValid(ctx) || newMode == old(mode) ==>
                !ok && mode == old(mode) && htcPassthrough == old(htcPassthrough) && htcCreateCalls == old(htcCreateCalls)
      ensures ok ==> mode == newMode
      ensures !ok ==> mode == old(mode)
      ensures backend == EbmBackend ==> (ok <==> IsValid(ctx) && newMode != old(mode) && newMode in availableModes)
      ensures backend == FbBackend ==>
                (ok <==> IsValid(ctx) && newMode != old(mode) &&
                         if ShowsWorld(newMode) then FbResume(fbReconLayer, calls.fbStartOk, calls.fbLayerResumeOk, calls.fbStyleOk)
                         else FbPause(fbReconLayer, calls.fbLayerPauseOk, calls.fbPauseOk))
      ensures backend == HtcBackend && IsValid(ctx) && newMode != old(mode) && !ShowsWorld(newMode) ==>
                && (ok <==> HtcSupported(ctx))
                && htcPassthrough == (if HtcSupported(ctx) then NullHandle else old(htcPassthrough))
                && htcCreateCalls == old(htcCreateCalls)
      ensures backend == HtcBackend && IsValid(ctx) && newMode != old(mode) && ShowsWorld(newMode) ==>
                && (ok <==> HtcSupported(ctx) && (old(htcPassthrough) != NullHandle || calls.htcCreate.Some?))
                && (!HtcSupported(ctx) || old(htcPassthrough) != NullHandle ==>
                      htcPassthrough == old(htcPassthrough) && htcCreateCalls == old(htcCreateCalls))
                && (HtcSupported(ctx) && old(htcPassthrough) == NullHandle ==>
                      && htcCreateCalls == old(htcCreateCalls) + 1
                      && htcPassthrough == (if calls.htcCreate.Some? then calls.htcCreate.value else NullHandle))
      ensures availableModes == old(availableModes) && useAlphaForAdditive == old(useAlphaForAdditive)
      ensures fbPassthrough == old(fbPassthrough) && fbReconLayer == old(fbReconLayer)
      ensures fbStructLayerHandle == old(fbStructLayerHandle)
      ensures backend != HtcBackend ==> htcPassthrough == old(htcPassthrough) && htcCreateCalls == old(htcCreateCalls)
    {
      if !IsValid(ctx) || newMode == mode {
        return false;
      }
      var handled: bool;
      match backend {
      case FbBackend =>
        if newMode == Additive || newMode == AlphaBlend {
          handled := FbResume(fbReconLayer, calls.fbStartOk, calls.fbLayerResumeOk, calls.fbStyleOk);
        } else {
          handled := FbPause(fbReconLayer, calls.fbLayerPauseOk, calls.fbPauseOk);
        }
      case HtcBackend =>
        if newMode == Additive || newMode == AlphaBlend {
          handled := HtcResume(calls.htcCreate);
        } else {
          handled := HtcPause(calls.htcDestroyOk);
        }
      case EbmBackend =>
        handled := HasMode(availableModes, newMode);
      }
      if !handled {
        return false;
      }
      mode := newMode;
      ok := true;
    }
  }

  /**
   * make_passthrough: an FB back-end if it is supported, else an HTC back-end if that is
   * supported, else the environment-blend-mode back-end without asking whether it is.
   */
  method MakePassthrough(ctx: XrContext, fbSystemSupport: Option<bool>, fbLoadOk: bool,
                         fbCreatePassthrough: Option<nat>, fbCreateLayer: Option<nat>,
                         getSystem: Option<nat>, enumerated: Option<seq<int>>, fillOk: bool)
    returns (p: Passthrough)
    ensures fresh(p) && p.Valid() && p.ctx == ctx && p.mode == Opaque
    ensures p.backend == ChooseBackend(FbSupported(ctx, fbSystemSupport), HtcSupported(ctx))
    ensures p.backend != EbmBackend ==> p.IsSupported()
    ensures p.backend == EbmBackend ==> p.availableModes == EbmModes(ctx, getSystem, enumerated, fillOk)
  {
    p := new Passthrough.Fb(ctx, fbSystemSupport, fbLoadOk, fbCreatePassthrough, fbCreateLayer);
    if p.IsSupported() {
      return;
    }
    p := new Passthrough.Htc(ctx);
    if p.IsSupported() {
      return;
    }
    p := new Passthrough.Ebm(ctx, getSystem, enumerated, fillOk);
  }

  /** The EBM back-end can never be switched to a mode the runtime did not advertise. */
  method EbmStaysWithinAdvertised(ctx: XrContext, getSystem: Option<nat>, modes: seq<int>, request: int, calls: HandlerCalls)
    returns (ok: bool, mode: int)
    requires IsValid(ctx) && SystemId(ctx, getSystem) != NullSystemId
    ensures mode == Opaque || mode in modes
    ensures ok <==> request != Opaque && request in modes
  {
    var p := new Passthrough.Ebm(ctx, getSystem, Some(modes), true);
    ok := p.SetBlendMode(request, calls);
    mode := p.mode;
  }
}
