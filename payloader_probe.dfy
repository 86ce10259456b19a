/**
 * The buffer probe on the RTP payloader's source pad (rtppay_probe). For every outgoing
 * RTP packet it looks for the "down-message" custom meta that the frame source attached to
 * the frame; when the meta holds a "protobuf" buffer of at most 255 bytes, the bytes become
 * one two-byte-header extension element with id 1. Every join installs another copy of the
 * probe on the same pad, so a packet passes through as many probes as peers ever joined.
 */
module PayloaderProbe {
  import opened Wrappers
  import opened RtpHeaderExt

  /** RTP_TWOBYTES_HDR_EXT_ID: the element id shared with every receiver. */
  const DownMessageExtId: byte := 1
  /** RTP_TWOBYTES_HDR_EXT_MAX_SIZE: larger DownMessages are not attached. */
  const DownMessageMaxSize: nat := 255
  /** The application bits passed when adding the element. */
  const DownMessageAppBits: nat := 0

  /** GstPadProbeReturn. */
  datatype PadProbeReturn = ProbeDrop | ProbeOk | ProbeRemove | ProbePass | ProbeHandled

  /** The "protobuf" buffer field of the custom meta; `mappable` is whether gst_buffer_map succeeds. */
  datatype ProtobufBuffer = ProtobufBuffer(mappable: bool, bytes: seq<byte>)

  /** The "down-message" custom meta; `protobuf` is None when the structure has no such field. */
  datatype DownMessageMeta = DownMessageMeta(protobuf: Option<ProtobufBuffer>)

  /** An outgoing packet as the probe sees it; `mappable` is whether gst_rtp_buffer_map succeeds. */
  datatype Packet = Packet(mappable: bool, ext: HeaderExtension, meta: Option<DownMessageMeta>)

  /** The error lines the probe logs. */
  datatype ProbeLog = Quiet | MapFailed | NoProtobufField | MetaMapFailed | TooLarge | AddFailed

  /** The probe's effect: its return value, the packet's new extension, and the bytes handed to the loss benchmark. */
  datatype ProbeResult = ProbeResult(ret: PadProbeReturn, ext: HeaderExtension, benchmark: Option<seq<byte>>, log: ProbeLog)

  /** The DownMessage bytes the probe can read from the packet, if every lookup and mapping succeeds. */
  function ReadableDownMessage(p: Packet): Option<seq<byte>> {
    if p.mappable && p.meta.Some? && p.meta.value.protobuf.Some? && p.meta.value.protobuf.value.mappable
    then Some(p.meta.value.protobuf.value.bytes)
    else None
  }

  function DownMessageElement(bytes: seq<byte>): Element {
    Element(DownMessageExtId, bytes)
  }

  /** Whether the probe attaches the DownMessage to this packet. */
  predicate Attaches(p: Packet) {
    var m := ReadableDownMessage(p);
    m.Some? && |m.value| <= DownMessageMaxSize
    && AddTwoByteElement(p.ext, DownMessageAppBits, DownMessageElement(m.value)).Some?
  }

  function RtpPayProbe(p: Packet, benchmarkEnabled: bool): (r: ProbeResult)
    // No packet is ever dropped.
    ensures r.ret == ProbeOk
    // Either the extension is untouched, or exactly one id-1 element with the meta's bytes is appended.
    ensures Attaches(p) <==> r.ext != p.ext
    ensures !Attaches(p) ==> r.ext == p.ext
    ensures Attaches(p) ==>
              r.ext == AddTwoByteElement(p.ext, DownMessageAppBits, DownMessageElement(ReadableDownMessage(p).value)).value
    // The loss benchmark sees exactly the bytes that were attached.
    ensures r.benchmark.Some? <==> benchmarkEnabled && Attaches(p)
    ensures r.benchmark.Some? ==> r.benchmark == ReadableDownMessage(p)
    // A mapped packet without the meta leaves quietly.
    ensures p.mappable && p.meta.None? ==> r.log == Quiet
  {
    if !p.mappable then ProbeResult(ProbeOk, p.ext, None, MapFailed)
    else if p.meta.None? then ProbeResult(ProbeOk, p.ext, None, Quiet)
    else if p.meta.value.protobuf.None? then ProbeResult(ProbeOk, p.ext, None, NoProtobufField)
    else
      var buf := p.meta.value.protobuf.value;
      if !buf.mappable then ProbeResult(ProbeOk, p.ext, None, MetaMapFailed)
      else if |buf.bytes| > DownMessageMaxSize then ProbeResult(ProbeOk, p.ext, None, TooLarge)
      else
        match AddTwoByteElement(p.ext, DownMessageAppBits, DownMessageElement(buf.bytes))
        case None => ProbeResult(ProbeOk, p.ext, None, AddFailed)
        case Some(ext') =>
          assert p.ext.NoExtension? || |ext'.elements| != |p.ext.elements|;
          ProbeResult(ProbeOk, ext', if benchmarkEnabled then Some(buf.bytes) else None, Quiet)
  }

  /** A DownMessage over the limit is logged and never attached; the packet still passes. */
  lemma OversizedIsNotAttached(p: Packet, benchmarkEnabled: bool)
    requires ReadableDownMessage(p).Some? && |ReadableDownMessage(p).value| > DownMessageMaxSize
    ensures var r := RtpPayProbe(p, benchmarkEnabled);
            r.ret == ProbeOk && r.ext == p.ext && r.benchmark.None? && r.log == TooLarge
  {
  }

  /**
   * The extension on the buffer that actually leaves the probe, as written: the probe makes
   * the buffer writable but never stores the result back into the probe info, so when the
   * buffer was shared (`writable` false) it edits a private copy and the original, untouched
   * buffer travels on. The ensures only name the two cases; what they imply is proved in
   * `SharedBufferLosesDownMessage` and `AsWrittenDiffersExactlyOnSharedBuffers`.
   */
  function DownstreamExtensionAsWritten(p: Packet, writable: bool, benchmarkEnabled: bool): (ext: HeaderExtension)
    ensures !writable ==> ext == p.ext
    ensures writable ==> ext == RtpPayProbe(p, benchmarkEnabled).ext
  {
    var r := RtpPayProbe(p, benchmarkEnabled);
    if writable then r.ext else p.ext
  }

  /** A shared buffer carrying a small DownMessage leaves without it, although the benchmark counts it as sent. */
  lemma SharedBufferLosesDownMessage()
    ensures var p := Packet(true, NoExtension, Some(DownMessageMeta(Some(ProtobufBuffer(true, [42])))));
            && Attaches(p)
            && DownstreamExtensionAsWritten(p, false, true) == NoExtension
            && RtpPayProbe(p, true).benchmark == Some([42])
  {
    var p := Packet(true, NoExtension, Some(DownMessageMeta(Some(ProtobufBuffer(true, [42])))));
    assert AddTwoByteElement(p.ext, DownMessageAppBits, DownMessageElement([42])).Some?;
  }

  /**
   * The intended behaviour, with the writable buffer handed back to the pad: whether or not the
   * buffer was shared, the buffer leaving the probe carries what the probe attached. The first
   * ensures only names that result; the second states what it carries.
   */
  function DownstreamExtension(p: Packet, writable: bool, benchmarkEnabled: bool): (ext: HeaderExtension)
    ensures ext == RtpPayProbe(p, benchmarkEnabled).ext
    ensures Attaches(p) ==> ext.TwoByte? && ext.elements[|ext.elements| - 1] == DownMessageElement(ReadableDownMessage(p).value)
  {
    RtpPayProbe(p, benchmarkEnabled).ext
  }

  /** The code as written loses the DownMessage exactly on shared buffers that the probe would extend. */
  lemma AsWrittenDiffersExactlyOnSharedBuffers(p: Packet, writable: bool, benchmarkEnabled: bool)
    ensures DownstreamExtensionAsWritten(p, writable, benchmarkEnabled) != DownstreamExtension(p, writable, benchmarkEnabled)
            <==> !writable && Attaches(p)
  {
  }

  /** The packets leaving the payloader after passing `probes` copies of the probe. */
  function ProbeChain(probes: nat, p: Packet, benchmarkEnabled: bool): (r: (HeaderExtension, seq<seq<byte>>))
    decreases probes
  {
    if probes == 0 then (p.ext, [])
    else
      var first := RtpPayProbe(p, benchmarkEnabled);
      var rest := ProbeChain(probes - 1, p.(ext := first.ext), benchmarkEnabled);
      (rest.0, (if first.benchmark.Some? then [first.benchmark.value] else []) + rest.1)
  }

  /**
   * With `done` probes already passed on a packet that started without an extension, the
   * remaining probes each append one more id-1 element with the same bytes.
   */
  lemma {:induction false} ProbeChainAppends(probes: nat, done: nat, p: Packet, bytes: seq<byte>, benchmarkEnabled: bool)
    requires ReadableDownMessage(p) == Some(bytes) && |bytes| <= DownMessageMaxSize
    requires done == 0 ==> p.ext == NoExtension
    requires done > 0 ==> p.ext == TwoByte(DownMessageAppBits, Repeat(DownMessageElement(bytes), done))
    ensures ProbeChain(probes, p, benchmarkEnabled).0 ==
            (if done + probes == 0 then NoExtension
             else TwoByte(DownMessageAppBits, Repeat(DownMessageElement(bytes), done + probes)))
    ensures ProbeChain(probes, p, benchmarkEnabled).1 == (if benchmarkEnabled then Repeat(bytes, probes) else [])
    decreases probes
  {
    if probes > 0 {
      var e := DownMessageElement(bytes);
      var first := RtpPayProbe(p, benchmarkEnabled);
      assert Attaches(p);
      if done == 0 {
        assert Repeat(e, 1) == [e];
      }
      assert first.ext == TwoByte(DownMessageAppBits, Repeat(e, done + 1));
      ProbeChainAppends(probes - 1, done + 1, p.(ext := first.ext), bytes, benchmarkEnabled);
    }
  }

  /**
   * End to end: after any positive number of installed probes, a receiver reading the
   * packet's extension block and looking up id 1 recovers the DownMessage byte for byte,
   * and the benchmark is handed the bytes once per probe.
   */
  lemma ReceiverRecoversDownMessage(probes: nat, p: Packet, bytes: seq<byte>, benchmarkEnabled: bool, payload: seq<byte>)
    requires 0 < probes <= 1000
    requires p.ext == NoExtension && ReadableDownMessage(p) == Some(bytes) && |bytes| <= DownMessageMaxSize
    ensures var (ext, calls) := ProbeChain(probes, p, benchmarkEnabled);
            && ext.TwoByte? && Encodable(ext.appBits, ext.elements)
            && ParseBlock(EncodeBlock(ext.appBits, ext.elements) + payload) == Some(ext)
            && Lookup(ext.elements, DownMessageExtId) == Some(bytes)
            && |calls| == (if benchmarkEnabled then probes else 0)
  {
    var e := DownMessageElement(bytes);
    ProbeChainAppends(probes, 0, p, bytes, benchmarkEnabled);
    var es := Repeat(e, probes);
    assert es[0] == e;
    CopiesFit(e, probes);
    ParseEncodedBlock(DownMessageAppBits, es, payload);
  }

  lemma CopiesFit(e: Element, n: nat)
    requires ValidElement(e) && n <= 1000
    ensures ValidElements(Repeat(e, n)) && |ElementArea(Repeat(e, n))| / 4 < 0x1_0000
  {
    EncodedCopiesLength(e, n);
    var len := |EncodeElements(Repeat(e, n))|;
    assert len <= n * 257 by {
      assert 2 + |e.data| <= 257;
      MulMono(n, 2 + |e.data|, 257);
    }
  }

  lemma MulMono(n: nat, a: nat, b: nat)
    requires a <= b
    ensures n * a <= n * b
  {
  }

  lemma {:induction false} EncodedCopiesLength(e: Element, n: nat)
    requires ValidElement(e)
    ensures |EncodeElements(Repeat(e, n))| == n * (2 + |e.data|)
  {
    if n > 0 {
      EncodeElementsAppend(Repeat(e, n - 1), e);
      EncodedCopiesLength(e, n - 1);
    }
  }

  lemma {:induction false} EncodeElementsAppend(es: seq<Element>, e: Element)
    requires ValidElements(es) && ValidElement(e)
    ensures EncodeElements(es + [e]) == EncodeElements(es) + EncodeElement(e)
  {
    if es == [] {
      assert [] + [e] == [e];
      assert [e][1..] == [];
    } else {
      assert (es + [e])[1..] == es[1..] + [e];
      EncodeElementsAppend(es[1..], e);
    }
  }
}
