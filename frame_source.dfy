/**
 * The frame source feeding the encoder (ems_gstreamer_src): the mapping from compositor
 * pixel formats to GStreamer video formats, the odd-size warnings, and the timestamp state
 * that turns capture timestamps into buffer PTS and duration in unsigned 64-bit arithmetic.
 * Every pushed buffer carries the frame's DownMessage in a "down-message" custom meta, which
 * is what the payloader probe reads.
 */
module FrameSource {
  import opened Wrappers
  import opened RtpHeaderExt
  import opened PayloaderProbe

  /** The compositor's pixel formats; only five have a GStreamer counterpart. */
  datatype XrtFormat = R8G8B8 | R8G8B8A8 | R8G8B8X8 | YUYV422 | L8 | OtherFormat(code: nat)

  datatype GstVideoFormat = VideoUnknown | VideoRGB | VideoRGBA | VideoRGBx | VideoYUY2 | VideoGRAY8

  /**
   * gst_fmt_from_xf_format. An unlisted format trips an assertion in a debug build; a release
   * build, which this models, returns UNKNOWN.
   */
  function GstFormatFromXrt(f: XrtFormat): (r: GstVideoFormat)
    ensures r == VideoUnknown <==> f.OtherFormat?
  {
    match f
    case R8G8B8 => VideoRGB
    case R8G8B8A8 => VideoRGBA
    case R8G8B8X8 => VideoRGBx
    case YUYV422 => VideoYUY2
    case L8 => VideoGRAY8
    case OtherFormat(_) => VideoUnknown
  }

  /** GStreamer's name for a video format; UNKNOWN has none worth writing into caps. */
  function VideoFormatName(v: GstVideoFormat): Option<string> {
    match v
    case VideoUnknown => None
    case VideoRGB => Some("RGB")
    case VideoRGBA => Some("RGBA")
    case VideoRGBx => Some("RGBx")
    case VideoYUY2 => Some("YUY2")
    case VideoGRAY8 => Some("GRAY8")
  }

  /** The caps format string chosen when the source is created (None: left NULL after the assertion). */
  function CapsFormatString(f: XrtFormat): (r: Option<string>)
    ensures r.None? <==> f.OtherFormat?
  {
    match f
    case R8G8B8 => Some("RGB")
    case R8G8B8A8 => Some("RGBA")
    case R8G8B8X8 => Some("RGBx")
    case YUYV422 => Some("YUY2")
    case L8 => Some("GRAY8")
    case OtherFormat(_) => None
  }

  /** The appsrc caps and the video meta of every buffer name the same format. */
  lemma CapsAgreeWithVideoMeta(f: XrtFormat)
    ensures CapsFormatString(f) == VideoFormatName(GstFormatFromXrt(f))
  {
  }

  /** Distinct known formats map to distinct video formats. */
  lemma KnownFormatsStayDistinct(f: XrtFormat, g: XrtFormat)
    requires !f.OtherFormat? && !g.OtherFormat? && f != g
    ensures GstFormatFromXrt(f) != GstFormatFromXrt(g)
  {
  }

  datatype SizeWarning = OddWidth | OddHeight

  /** complain_if_wrong_image_size: the warnings logged; the push goes on regardless. */
  function ImageSizeWarnings(width: nat, height: nat): (r: seq<SizeWarning>)
    ensures OddWidth in r <==> width % 2 == 1
    ensures OddHeight in r <==> height % 2 == 1
    ensures |r| <= 2
  {
    (if width % 2 == 1 then [OddWidth] else []) + (if height % 2 == 1 then [OddHeight] else [])
  }

  const U64Modulus: nat := 0x1_0000_0000_0000_0000

  /** The conversion of the frame's signed 64-bit timestamp to uint64_t. */
  function U64Of(t: int): (r: nat)
    ensures r < U64Modulus
    ensures 0 <= t < U64Modulus ==> r == t
  {
    t % U64Modulus
  }

  /** uint64_t subtraction, which wraps. */
  function Sub64(a: nat, b: nat): (r: nat)
    requires a < U64Modulus && b < U64Modulus
    ensures r < U64Modulus
    ensures b <= a ==> r == a - b
    ensures a < b ==> r == a - b + U64Modulus
  {
    (a - b) % U64Modulus
  }

  /** offset_ns and timestamp_ns. */
  datatype Clock = Clock(offsetNs: nat, timestampNs: nat)

  /** The PTS and duration written on one buffer. */
  datatype Stamps = Stamps(pts: nat, duration: nat)

  predicate ClockInRange(c: Clock) {
    c.offsetNs < U64Modulus && c.timestampNs < U64Modulus
  }

  /**
   * One frame's timestamping: offset_ns latches the first nonzero timestamp (0 means "not yet"),
   * PTS is measured from it, and duration from the previous frame's timestamp.
   */
  function Step(c: Clock, ts: nat): (r: (Clock, Stamps))
    requires ClockInRange(c) && ts < U64Modulus
    ensures ClockInRange(r.0)
    ensures r.0.timestampNs == ts
    ensures r.0.offsetNs == (if c.offsetNs == 0 then ts else c.offsetNs)
    ensures r.1.duration == Sub64(ts, c.timestampNs)
    ensures r.1.pts == Sub64(ts, r.0.offsetNs)
  {
    var offset := if c.offsetNs == 0 then ts else c.offsetNs;
    (Clock(offset, ts), Stamps(Sub64(ts, offset), Sub64(ts, c.timestampNs)))
  }

  predicate InRange(tss: seq<nat>) {
    forall k :: 0 <= k < |tss| ==> tss[k] < U64Modulus
  }

  /** The timestamp state after the frames `tss`, starting from the zero-allocated struct. */
  function ClockAfter(tss: seq<nat>): (c: Clock)
    requires InRange(tss)
    ensures ClockInRange(c)
    decreases |tss|
  {
    if tss == [] then Clock(0, 0)
    else Step(ClockAfter(tss[..|tss| - 1]), tss[|tss| - 1]).0
  }

  /** The stamps of frame `i` of a run that starts from the zero-allocated struct. */
  function StampsAt(tss: seq<nat>, i: nat): Stamps
    requires InRange(tss) && i < |tss|
  {
    assert InRange(tss[..i]);
    Step(ClockAfter(tss[..i]), tss[i]).1
  }

  /** The first nonzero timestamp, or 0 when there is none. */
  function FirstNonzero(tss: seq<nat>): (r: nat)
    ensures r == 0 || r in tss
    decreases |tss|
  {
    if tss == [] then 0
    else if FirstNonzero(tss[..|tss| - 1]) != 0 then FirstNonzero(tss[..|tss| - 1])
    else tss[|tss| - 1]
  }

  /** offset_ns is the first nonzero timestamp seen, and timestamp_ns the last one. */
  lemma {:induction false} ClockAfterLatches(tss: seq<nat>)
    requires InRange(tss)
    ensures ClockAfter(tss).offsetNs == FirstNonzero(tss)
    ensures ClockAfter(tss).timestampNs == (if tss == [] then 0 else tss[|tss| - 1])
    decreases |tss|
  {
    if tss != [] {
      ClockAfterLatches(tss[..|tss| - 1]);
    }
  }

  /** Every frame up to and including the first nonzero one gets PTS 0. */
  lemma LatchingFrameHasZeroPts(tss: seq<nat>, i: nat)
    requires InRange(tss) && i < |tss| && FirstNonzero(tss[..i]) == 0
    ensures StampsAt(tss, i).pts == 0
  {
    ClockAfterLatches(tss[..i]);
  }

  /** Because the struct starts zeroed, the first frame's duration is its raw timestamp. */
  lemma FirstDurationIsRawTimestamp(tss: seq<nat>)
    requires InRange(tss) && |tss| > 0
    ensures StampsAt(tss, 0).duration == tss[0]
  {
    assert tss[..0] == [];
  }

  /** Later durations are the wrapped difference to the previous frame's timestamp. */
  lemma DurationIsDifference(tss: seq<nat>, i: nat)
    requires InRange(tss) && 0 < i < |tss|
    ensures StampsAt(tss, i).duration == Sub64(tss[i], tss[i - 1])
  {
    ClockAfterLatches(tss[..i]);
  }

  predicate NonDecreasing(tss: seq<nat>) {
    forall i, j :: 0 <= i < j < |tss| ==> tss[i] <= tss[j]
  }

  lemma {:induction false} FirstNonzeroBelow(tss: seq<nat>)
    requires NonDecreasing(tss)
    ensures FirstNonzero(tss) == 0 ==> forall k :: 0 <= k < |tss| ==> tss[k] == 0
    ensures FirstNonzero(tss) != 0 ==> |tss| > 0 && FirstNonzero(tss) <= tss[|tss| - 1]
    decreases |tss|
  {
    if tss != [] {
      var init := tss[..|tss| - 1];
      assert NonDecreasing(init);
      FirstNonzeroBelow(init);
      if FirstNonzero(init) != 0 {
        assert tss[|init| - 1] <= tss[|tss| - 1];
      }
    }
  }

  lemma {:induction false} FirstNonzeroStable(tss: seq<nat>, i: nat)
    requires i <= |tss| && FirstNonzero(tss[..i]) != 0
    ensures FirstNonzero(tss) == FirstNonzero(tss[..i])
    decreases |tss| - i
  {
    if i < |tss| {
      assert tss[..i + 1][..i] == tss[..i];
      FirstNonzeroStable(tss, i + 1);
    } else {
      assert tss[..i] == tss;
    }
  }

  /** The PTS of frame `i` in closed form. */
  lemma PtsAt(tss: seq<nat>, i: nat)
    requires InRange(tss) && i < |tss|
    ensures FirstNonzero(tss[..i]) < U64Modulus
    ensures var o := FirstNonzero(tss[..i]);
            StampsAt(tss, i).pts == Sub64(tss[i], if o == 0 then tss[i] else o)
  {
    ClockAfterLatches(tss[..i]);
  }

  /** With capture timestamps that never decrease, PTS never decreases either. */
  lemma PtsNonDecreasing(tss: seq<nat>, i: nat, j: nat)
    requires InRange(tss) && NonDecreasing(tss) && i < j < |tss|
    ensures StampsAt(tss, i).pts <= StampsAt(tss, j).pts
  {
    PtsAt(tss, i);
    PtsAt(tss, j);
    var oi := FirstNonzero(tss[..i]);
    var oj := FirstNonzero(tss[..j]);
    if oi != 0 {
      assert tss[..j][..i] == tss[..i];
      FirstNonzeroStable(tss[..j], i);
      assert NonDecreasing(tss[..i]);
      FirstNonzeroBelow(tss[..i]);
      assert tss[i - 1] <= tss[i] <= tss[j];
    } else if oj != 0 {
      assert NonDecreasing(tss[..j]);
      FirstNonzeroBelow(tss[..j]);
      assert tss[j - 1] <= tss[j];
    }
  }

  /** A capture timestamp that goes backwards makes the PTS go backwards: 10, 30, 20 give 0, 20, 10. */
  lemma BackwardsTimestampGivesBackwardsPts()
    ensures var tss := [10, 30, 20];
            InRange(tss) && StampsAt(tss, 1).pts == 20 && StampsAt(tss, 2).pts == 10
  {
    var tss: seq<nat> := [10, 30, 20];
    assert tss[..1] == [10] && tss[..2] == [10, 30];
    assert [10, 30][..1] == [10];
    assert [10][..0] == [];
  }

  /** A timestamp below the offset wraps around to a huge PTS. */
  lemma TimestampBelowOffsetWraps()
    ensures var tss := [10, 5];
            InRange(tss) && StampsAt(tss, 1).pts == U64Modulus - 5
  {
    var tss: seq<nat> := [10, 5];
    assert tss[..1] == [10];
    assert [10][..0] == [];
  }

  /** A frame handed to the source. */
  datatype Frame = Frame(format: XrtFormat, width: nat, height: nat, stride: int, timestamp: int)

  /** A buffer as the appsrc receives it. */
  datatype VideoBuffer = VideoBuffer(
    format: GstVideoFormat, width: nat, height: nat, stride: int,
    stamps: Stamps, meta: DownMessageMeta)

  /** How ems_gstreamer_src_push_frame ends. */
  datatype PushOutcome = Pushed | PushFlowError | NoPayloadBuffer | NoCustomMeta

  /** The custom meta carrying the DownMessage, as the source attaches it. */
  function DownMessageMetaOf(downMessage: seq<byte>): DownMessageMeta {
    DownMessageMeta(Some(ProtobufBuffer(true, downMessage)))
  }

  /** What the source attaches is exactly what the payloader probe reads back. */
  lemma ProbeReadsPushedDownMessage(b: VideoBuffer, downMessage: seq<byte>, ext: HeaderExtension)
    requires b.meta == DownMessageMetaOf(downMessage)
    ensures ReadableDownMessage(Packet(true, ext, Some(b.meta))) == Some(downMessage)
  {
  }

  class GstreamerSource {
    var offsetNs: nat
    var timestampNs: nat
    /** The buffers the appsrc accepted, in order. */
    var pushed: seq<VideoBuffer>

    ghost predicate Valid()
      reads this
    {
      ClockInRange(Clock(offsetNs, timestampNs))
    }

    /** The struct is zero-allocated. */
    constructor ()
      ensures Valid() && offsetNs == 0 && timestampNs == 0 && pushed == []
    {
      offsetNs := 0;
      timestampNs := 0;
      pushed := [];
    }

    /**
     * ems_gstreamer_src_push_frame. `payloadBufferMade` and `customMetaAdded` are whether
     * the payload copy and the custom meta could be made; `flowOk` is the appsrc's answer.
     * The timestamp state is updated before either packaging step can fail, and a failing
     * push is only logged.
     */
    method PushFrame(frame: Frame, downMessage: seq<byte>, payloadBufferMade: bool, customMetaAdded: bool, flowOk: bool)
      returns (outcome: PushOutcome, warnings: seq<SizeWarning>)
      requires Valid()
      modifies this
      ensures Valid()
      ensures warnings == ImageSizeWarnings(frame.width, frame.height)
      ensures Clock(offsetNs, timestampNs) == Step(old(Clock(offsetNs, timestampNs)), U64Of(frame.timestamp)).0
      ensures outcome == (if !payloadBufferMade then NoPayloadBuffer
                          else if !customMetaAdded then NoCustomMeta
                          else if !flowOk then PushFlowError
                          else Pushed)
      ensures pushed == old(pushed) + (if outcome == Pushed then
                 [VideoBuffer(GstFormatFromXrt(frame.format), frame.width, frame.height, frame.stride,
                              Step(old(Clock(offsetNs, timestampNs)), U64Of(frame.timestamp)).1,
                              DownMessageMetaOf(downMessage))]
               else [])
    {
      warnings := ImageSizeWarnings(frame.width, frame.height);
      var ts := U64Of(frame.timestamp);
      var previous := timestampNs;
      if offsetNs == 0 {
        offsetNs := ts;
      }
      var pts := Sub64(ts, offsetNs);
      var duration := Sub64(ts, previous);
      timestampNs := ts;
      if !payloadBufferMade {
        return NoPayloadBuffer, warnings;
      }
      if !customMetaAdded {
        return NoCustomMeta, warnings;
      }
      var buffer := VideoBuffer(GstFormatFromXrt(frame.format), frame.width, frame.height, frame.stride,
                                Stamps(pts, duration), DownMessageMetaOf(downMessage));
      if !flowOk {
        return PushFlowError, warnings;
      }
      pushed := pushed + [buffer];
      outcome := Pushed;
    }
  }
}
