# Electric Maple streaming core, modelled in Dafny

Electric Maple streams a rendered XR session from a server to a standalone headset. The
server encodes every frame and pushes it through a GStreamer pipeline that ends in one WebRTC
endpoint (`webrtcbin`) per connected client. Before payloading, the pipeline packs the frame's
tracking response (the protobuf *DownMessage*) into an RTP header extension. It can also count
DownMessages that never got payloaded. The client chooses how its passthrough camera image is
blended with the decoded video.

This project models that core and proves properties about it:

- `rtp_header_ext.dfy` — two-byte RTP header-extension elements (section 4.3 of RFC 8285): the
  append the payloader probe performs, the wire encoding, and a parser that reads the encoding back.
- `payloader_probe.dfy` — the probe on the RTP payloader's src pad. It decides whether the
  DownMessage attached to a buffer is added as extension element 1, and models the stack of
  probes that accumulates because every client join installs one more.
- `down_msg_loss.dfy` — the DownMessage loss benchmark: ids cast to `gint`, the ascending sort,
  the gap-counting loop, and the five-second report window as a class.
- `endpoint_names.dfy` — endpoint element names `webrtcbin_%p`, glibc's `%p` text, and the
  proof that the name identifies its client.
- `stream_pipeline.dfy` — the pipeline as a class driven by the signaling callbacks:
  - join, offer, answer, ICE candidate;
  - leave, then teardown through a blocking probe on the tee;
  - the shared data-channel and keep-alive timer slots;
  - UpMessage dispatch and the bus-message handler.
- `frame_source.dfy` — the frame source (`appsrc`) wrapper:
  - the mapping from compositor formats to GStreamer formats and caps strings;
  - the odd-size warnings;
  - the timestamp state (first-frame offset, PTS, duration, in 64-bit unsigned arithmetic);
  - the push of one frame with its DownMessage metadata.
- `image_pool.dfy` — the Vulkan/CUDA image pool over an array of pooled images: create, clear,
  destroy, acquire, release, info.
- `xr_context.dfy` — the client's `XrContext`: validity, extension lookup, system id.
- `passthrough.dfy` — client passthrough in one class, with a back-end tag standing in for the
  virtual dispatch:
  - the FB, HTC and environment-blend-mode back-ends, and the factory that picks one;
  - blend-mode switching, composition layers, clear colour.

The runtime's answers are parameters of the methods. That covers GStreamer, OpenXR, Vulkan, the
protobuf decoder, the clock and the main loop, so every branch on a failed call is modelled.

Some behaviours of the code are easy to misread, and the model keeps them as the code has them:

- Loss benchmark. For ids {1, 2, 4, 7} the loop adds up the gaps between neighbours, 0 + 1 + 2 = 3
  (`DownMsgLoss.ExampleWindow`), which is the number of ids (3, 5, 6) never seen.
- Frame push. When the DownMessage metadata cannot be attached (no payload buffer, or no custom
  meta), `push_frame` returns before pushing. The frame is dropped, not pushed without metadata
  (`FrameSource.GstreamerSource.PushFrame`).
- Client leave. Leaving cancels neither the keep-alive timer nor the data channel. A client that
  leaves before its endpoint has been linked to the tee (no `sink_0` pad yet) changes nothing
  (`StreamPipeline.Pipeline.Leave`).
- Data-channel slot. Every join overwrites the single data-channel slot, even when creating the
  channel failed. A second channel's open overwrites the timer slot, so one keep-alive source keeps
  running after the close (`StreamPipeline.TwoChannelsLeakATimer`).

## Model

| member | source | states |
|---|---|---|
| Wrappers.Repeat | client/src/em/em_passthrough.cpp:356 | `n` copies of one value: the mode vector sized with OPAQUE, and the elements and benchmark calls made by `n` stacked payloader probes. |
| RtpHeaderExt.AddTwoByteElement | server/src/ems/gst/ems_gstreamer_pipeline.c:369-373 | The add succeeds exactly when the buffer has no extension yet or already carries a two-byte block with the same application bits. The new element goes after the existing ones, which are kept. |
| RtpHeaderExt.Lookup | server/src/ems/gst/ems_gstreamer_pipeline.c:369-373 | Finding extension id `id`: None exactly when no element has that id; otherwise the data of an element carrying that id. |
| RtpHeaderExt.PadLength | server/src/ems/gst/ems_gstreamer_pipeline.c:369-373 | The padding after the elements is under 4 bytes and brings the area to a multiple of 4 (a whole number of 32-bit words). |
| RtpHeaderExt.ElementArea | server/src/ems/gst/ems_gstreamer_pipeline.c:369-373 | The element area, padding included, is a multiple of 4 bytes long. |
| RtpHeaderExt.ParseZeros | server/src/ems/gst/ems_gstreamer_pipeline.c:369-373 | Padding bytes alone parse as no elements. |
| RtpHeaderExt.ParseEncodedElements | server/src/ems/gst/ems_gstreamer_pipeline.c:369-373 | The encoded elements, followed by any amount of padding, parse back to exactly the same elements. |
| RtpHeaderExt.ParseEncodedBlock | server/src/ems/gst/ems_gstreamer_pipeline.c:369-373 | Round trip for a whole extension block, given 16-bit length limits: whatever payload follows, a receiver parses the encoded block back to the same application bits and elements. |
| PayloaderProbe.RtpPayProbe | server/src/ems/gst/ems_gstreamer_pipeline.c:321-388 | The probe always returns OK. It changes the extension exactly when the buffer can be mapped, carries readable DownMessage metadata of at most 255 bytes, and the add succeeds; the change appends element id 1 holding the message. The benchmark sees the message exactly when it is enabled and the element was attached. A buffer without metadata logs nothing. |
| PayloaderProbe.OversizedIsNotAttached | server/src/ems/gst/ems_gstreamer_pipeline.c:362-367 | A DownMessage longer than 255 bytes leaves the extension unchanged and never reaches the benchmark. |
| PayloaderProbe.DownstreamExtensionAsWritten | server/src/ems/gst/ems_gstreamer_pipeline.c:330-332 | As written: a shared (non-writable) buffer leaves the probe with its old extension, because the edited copy is never handed back. A writable buffer leaves with the probe's result. |
| PayloaderProbe.SharedBufferLosesDownMessage | server/src/ems/gst/ems_gstreamer_pipeline.c:330-382 | A shared buffer carrying the one-byte message [42] leaves without any extension, although the probe attaches the message and the benchmark counts it as sent. |
| PayloaderProbe.DownstreamExtension | server/src/ems/gst/ems_gstreamer_pipeline.c:330-373 | Corrected: whether or not the buffer was shared, the buffer leaving the probe carries the probe's result, and its last element is the DownMessage whenever one was attachable. |
| PayloaderProbe.AsWrittenDiffersExactlyOnSharedBuffers | server/src/ems/gst/ems_gstreamer_pipeline.c:330-373 | For every packet, the code as written and the corrected probe disagree exactly on shared buffers the probe would extend. |
| PayloaderProbe.ProbeChainAppends | server/src/ems/gst/ems_gstreamer_pipeline.c:390-413 | With one probe per join, a buffer that passes `probes` probes carries the DownMessage element that many times, and the benchmark runs that many times when enabled. |
| PayloaderProbe.ReceiverRecoversDownMessage | server/src/ems/gst/ems_gstreamer_pipeline.c:321-413 | After between 1 and 1000 probes, a receiver parsing the packet finds id 1 and reads back exactly the DownMessage bytes. |
| PayloaderProbe.CopiesFit | server/src/ems/gst/ems_gstreamer_pipeline.c:362-373 | Up to 1000 copies of a well-formed element stay well-formed and fit the 16-bit word count of the extension header. |
| DownMsgLoss.GintOf | server/src/ems/gst/ems_gstreamer_pipeline.c:278-279 | The `(gint)` cast of a frame id lands in the 32-bit signed range, agrees with the id below 2^31, and is congruent to it modulo 2^32. |
| DownMsgLoss.Insert | server/src/ems/gst/ems_gstreamer_pipeline.c:290 | Inserting into an ascending list keeps it ascending and adds exactly that element. |
| DownMsgLoss.SortAscending | server/src/ems/gst/ems_gstreamer_pipeline.c:290 | The sort's result is ascending and a permutation of its input. |
| DownMsgLoss.AscendingPermutationUnique | server/src/ems/gst/ems_gstreamer_pipeline.c:290 | Any two ascending permutations of the same list are equal, so the count does not depend on how the sort was done. |
| DownMsgLoss.CountSkipped | server/src/ems/gst/ems_gstreamer_pipeline.c:292-307 | The accumulated loss is never negative. When no id is -1 (the loop's "no previous id" marker), it is the sum over neighbours of `current - last - 1` where positive. |
| DownMsgLoss.GapSumCountsMissing | server/src/ems/gst/ems_gstreamer_pipeline.c:292-307 | For an ascending window, the sum of gaps equals the number of ids between the smallest and the largest that were never seen. |
| DownMsgLoss.GapSumStrictlyAscending | server/src/ems/gst/ems_gstreamer_pipeline.c:292-307 | Without duplicates, the loss is the id span minus the number of ids seen after the first. |
| DownMsgLoss.ExampleWindow | server/src/ems/gst/ems_gstreamer_pipeline.c:278-307 | For ids pushed as 1, 2, 4, 7 (arriving as 7, 4, 2, 1) the report is 3. |
| DownMsgLoss.ExampleSorted | server/src/ems/gst/ems_gstreamer_pipeline.c:290 | The only ascending arrangement of {7, 4, 2, 1} is [1, 2, 4, 7]. |
| DownMsgLoss.ExampleGaps | server/src/ems/gst/ems_gstreamer_pipeline.c:292-307 | The loop over [1, 2, 4, 7] adds 0 + 1 + 2 = 3. |
| DownMsgLoss.LossWindow.constructor | server/src/ems/gst/ems_gstreamer_pipeline.c:63-75 | The benchmark starts unarmed, with an empty window and no reports. |
| DownMsgLoss.LossWindow.Rearm | server/src/ems/gst/ems_gstreamer_pipeline.c:407 | Clears the "ever sent" flag and nothing else. |
| DownMsgLoss.LossWindow.Record | server/src/ems/gst/ems_gstreamer_pipeline.c:260-319 | A failed decode changes nothing. A decoded message arms the benchmark; on first arming it restarts the window and the clock. The id is prepended. Once five seconds have elapsed, a non-negative loss is reported and equals the gap sum of the sorted window (when no id is -1); the window is then emptied and the clock reset. Otherwise nothing is reported. |
| EndpointNames.HexDigit | server/src/ems/gst/ems_gstreamer_pipeline.c:126 | A digit below 16 prints as a character in `0-9a-f` that reads back as the same digit. |
| EndpointNames.Hex | server/src/ems/gst/ems_gstreamer_pipeline.c:126 | `%p` prints at least one hex digit. |
| EndpointNames.HexRoundTrip | server/src/ems/gst/ems_gstreamer_pipeline.c:126 | Reading the hex text of `n` back gives `n`. |
| EndpointNames.EndpointNameRoundTrip | server/src/ems/gst/ems_gstreamer_pipeline.c:120-131 | The client id can be recovered from its endpoint's name, the null client's `(nil)` included. |
| EndpointNames.EndpointNameInjective | server/src/ems/gst/ems_gstreamer_pipeline.c:120-131 | Two clients share an endpoint name exactly when they are the same client. |
| StreamPipeline.Pipeline.constructor | server/src/ems/gst/ems_gstreamer_pipeline.c:63-75 | The pipeline starts with no endpoints, no channel, no timer, no probes and no events. |
| StreamPipeline.Pipeline.EndpointFor | server/src/ems/gst/ems_gstreamer_pipeline.c:120-131 | Finds an endpoint exactly when the bin holds the client's name. In a consistent pipeline the endpoint found belongs to that client. |
| StreamPipeline.Pipeline.Join | server/src/ems/gst/ems_gstreamer_pipeline.c:416-485 | The new endpoint is PLAYING and its offer is requested. The shared channel slot is overwritten, even by a failed create. A created channel gets its callbacks wired. When the payloader is found, one more payloader probe is installed and the benchmark is re-armed. The invariant is kept and nothing else changes. |
| StreamPipeline.Pipeline.OnOfferCreated | server/src/ems/gst/ems_gstreamer_pipeline.c:133-177 | In this order: the local description is set, the offer is sent to its own client, and the endpoint is linked to the tee. The invariant is kept and nothing else changes. |
| StreamPipeline.Pipeline.OnAnswer | server/src/ems/gst/ems_gstreamer_pipeline.c:487-525 | The remote description is applied exactly when the SDP parses, the answer object is created, and the client is known. The invariant is kept and nothing else changes. |
| StreamPipeline.Pipeline.OnRemoteCandidate | server/src/ems/gst/ems_gstreamer_pipeline.c:527-547 | A candidate is appended to the endpoint exactly when it is non-empty and the client is known. The invariant is kept and nothing else changes. |
| StreamPipeline.Pipeline.Leave | server/src/ems/gst/ems_gstreamer_pipeline.c:560-579 | Leaving only installs a blocking probe, and only for a known client already linked to the tee. The channel and the timer are not touched. The invariant is kept. |
| StreamPipeline.Pipeline.OnTeePadBlocked | server/src/ems/gst/ems_gstreamer_pipeline.c:549-558 | Once the pad is blocked, the endpoint leaves the bin, is set to NULL and is retired. The probe asks to be removed. The invariant is kept. |
| StreamPipeline.Pipeline.OnDataChannelOpen | server/src/ems/gst/ems_gstreamer_pipeline.c:213-219 | A new keep-alive source is added and overwrites the timer slot. Earlier sources stay installed. The invariant is kept. |
| StreamPipeline.Pipeline.OnDataChannelClose | server/src/ems/gst/ems_gstreamer_pipeline.c:221-228 | Only the source in the slot is removed. Both shared slots are cleared, whichever channel closed. The invariant is kept. |
| StreamPipeline.Pipeline.OnDataChannelMessage | server/src/ems/gst/ems_gstreamer_pipeline.c:230-246 | A decoded UpMessage makes exactly one tracking call. A failed decode makes none. |
| StreamPipeline.PeerLifecycle | server/src/ems/gst/ems_gstreamer_pipeline.c:133-579 | One peer's join, offer, leave and blocked pad produce the six events in order. Afterwards the bin is empty, the endpoint is retired, and the payloader probe stays. |
| StreamPipeline.TwoChannelsLeakATimer | server/src/ems/gst/ems_gstreamer_pipeline.c:213-228 | Two joins, two opens and one close leave the first keep-alive source running, with both slots cleared. |
| StreamPipeline.BusCallback | server/src/ems/gst/ems_gstreamer_pipeline.c:77-118 | Only a stream-domain FAILED error exits with failure, and only end-of-stream aborts. Every other message keeps the watch; each of these is an if-and-only-if. |
| FrameSource.GstFormatFromXrt | server/src/ems/gst/ems_gstreamer_src.c:44-55 | Exactly the unlisted compositor formats map to the unknown video format. |
| FrameSource.CapsFormatString | server/src/ems/gst/ems_gstreamer_src.c:207-215 | Caps get a format string exactly for the listed formats. |
| FrameSource.CapsAgreeWithVideoMeta | server/src/ems/gst/ems_gstreamer_src.c:207-215 | The caps string names the same format as the video meta's format. |
| FrameSource.KnownFormatsStayDistinct | server/src/ems/gst/ems_gstreamer_src.c:44-55 | Distinct listed formats map to distinct GStreamer formats. |
| FrameSource.ImageSizeWarnings | server/src/ems/gst/ems_gstreamer_src.c:57-69 | There is a width warning exactly when the width is odd, and a height warning exactly when the height is odd. |
| FrameSource.U64Of | server/src/ems/gst/ems_gstreamer_src.c:110-122 | Converting a timestamp to uint64 stays in range and keeps in-range values. |
| FrameSource.Sub64 | server/src/ems/gst/ems_gstreamer_src.c:110-122 | uint64 subtraction: the plain difference when no borrow is needed, otherwise wrapped by 2^64. |
| FrameSource.Step | server/src/ems/gst/ems_gstreamer_src.c:110-122 | One frame: the offset latches on the first nonzero timestamp; the duration is measured from the previous timestamp and the PTS from the offset, both modulo 2^64. |
| FrameSource.ClockAfter | server/src/ems/gst/ems_gstreamer_src.c:110-122 | The timestamp state stays within uint64 over any run of frames. |
| FrameSource.FirstNonzero | server/src/ems/gst/ems_gstreamer_src.c:110-122 | The latched offset is 0 or one of the timestamps seen. |
| FrameSource.ClockAfterLatches | server/src/ems/gst/ems_gstreamer_src.c:110-122 | After a run, the offset is the first nonzero timestamp and the last timestamp is the last frame's. |
| FrameSource.LatchingFrameHasZeroPts | server/src/ems/gst/ems_gstreamer_src.c:110-122 | The frame that latches the offset gets PTS 0. |
| FrameSource.FirstDurationIsRawTimestamp | server/src/ems/gst/ems_gstreamer_src.c:110-122 | The first frame's duration is its raw timestamp. |
| FrameSource.DurationIsDifference | server/src/ems/gst/ems_gstreamer_src.c:110-122 | Each later duration is the wrapped difference of neighbouring timestamps. |
| FrameSource.PtsAt | server/src/ems/gst/ems_gstreamer_src.c:110-122 | Each frame's PTS is its timestamp minus the offset latched by the earlier frames (or by itself), wrapped. |
| FrameSource.PtsNonDecreasing | server/src/ems/gst/ems_gstreamer_src.c:110-122 | Non-decreasing timestamps give non-decreasing PTS. |
| FrameSource.BackwardsTimestampGivesBackwardsPts | server/src/ems/gst/ems_gstreamer_src.c:110-122 | Timestamps 10, 30, 20 give PTS 0, 20, 10: PTS is not monotonic in general. |
| FrameSource.TimestampBelowOffsetWraps | server/src/ems/gst/ems_gstreamer_src.c:110-122 | Timestamps 10, 5 give a second PTS of 2^64 - 5. |
| FrameSource.ProbeReadsPushedDownMessage | server/src/ems/gst/ems_gstreamer_src.c:129-141 | The metadata the source attaches is read back by the payloader probe as exactly the pushed DownMessage. |
| FrameSource.GstreamerSource.constructor | server/src/ems/gst/ems_gstreamer_src.c:223 | The source starts zeroed, with nothing pushed. |
| FrameSource.GstreamerSource.PushFrame | server/src/ems/gst/ems_gstreamer_src.c:71-153 | The size warnings match the frame's size. The timestamp state advances even when the frame is not pushed. The outcome is, in this order: no payload buffer, then no custom meta, then a flow error, otherwise pushed. A frame is appended to the pushed list with its stamps and DownMessage meta exactly when it is pushed. |
| ImagePool.FirstUnused | server/src/ems/gst/cuda/ems_vk_cuda_image_pool.cpp:81-94 | None exactly when every slot is in use, otherwise the lowest free slot. |
| ImagePool.UsedCount | server/src/ems/gst/cuda/ems_vk_cuda_image_pool.cpp:21-24 | No more slots are in use than the pool has. |
| ImagePool.UsedCountFlip | server/src/ems/gst/cuda/ems_vk_cuda_image_pool.cpp:81-109 | Marking one slot used or free changes the count by exactly one. |
| ImagePool.AcquireCountsOneMore | server/src/ems/gst/cuda/ems_vk_cuda_image_pool.cpp:81-94 | An acquire uses one more slot when one is free, and none when the pool is full. |
| ImagePool.AcquireThenReleaseRestores | server/src/ems/gst/cuda/ems_vk_cuda_image_pool.cpp:81-109 | Releasing the slot just acquired restores the pool exactly. |
| ImagePool.FullPoolRefuses | server/src/ems/gst/cuda/ems_vk_cuda_image_pool.cpp:81-94 | A full pool hands out nothing and is unchanged. |
| ImagePool.ReleasesOf | server/src/ems/gst/cuda/ems_vk_cuda_image_pool.cpp:34-43 | Clearing issues at most two Vulkan release calls per image. |
| ImagePool.ReleasesOfAppend | server/src/ems/gst/cuda/ems_vk_cuda_image_pool.cpp:34-43 | The release calls of the images plus one more are those of the images followed by those of the last image. |
| ImagePool.ReleasesOfConcat | server/src/ems/gst/cuda/ems_vk_cuda_image_pool.cpp:34-43 | The release calls of two runs of images are those of the first run followed by those of the second. |
| ImagePool.ReleasesOfEmpty | server/src/ems/gst/cuda/ems_vk_cuda_image_pool.cpp:34-43 | Images with null handles cause no release calls. |
| ImagePool.ReleasesOfCoversAll | server/src/ems/gst/cuda/ems_vk_cuda_image_pool.cpp:34-43 | Every non-null image handle is destroyed, and every non-null memory is freed. |
| ImagePool.Pool.constructor | server/src/ems/gst/cuda/ems_vk_cuda_image_pool.cpp:26-33 | A pool holds its Vulkan bundle and images; its info is zeroed. |
| ImagePool.Pool.Clear | server/src/ems/gst/cuda/ems_vk_cuda_image_pool.cpp:34-43 | Releases every image, in order, then empties the pool. The info is kept. |
| ImagePool.CreatePool | server/src/ems/gst/cuda/ems_vk_cuda_image_pool.cpp:47-74 | A null Vulkan bundle or missing create info gives no pool. A pool exists exactly when every image is created; it has pool-size free images and the given info. When an image fails, the deleted partial pool releases the images created before it and whatever the failed create left in its own slot, so leftover memory is freed. |
| ImagePool.CreatedBefore | server/src/ems/gst/cuda/ems_vk_cuda_image_pool.cpp:63-68 | The first `n` created images, each free. |
| ImagePool.DestroyPool | server/src/ems/gst/cuda/ems_vk_cuda_image_pool.cpp:76-79 | A null pool releases nothing. Otherwise every image is released. |
| ImagePool.NewImage | server/src/ems/gst/cuda/ems_vk_cuda_image_pool.cpp:81-94 | A null pool gives a null pointer. Otherwise the lowest free slot is marked used and returned; a full pool gives null and is unchanged. |
| ImagePool.ReleaseImage | server/src/ems/gst/cuda/ems_vk_cuda_image_pool.cpp:96-109 | A pointer into the pool frees its slot and nothing else. A foreign or null pointer changes nothing. |
| ImagePool.GetInfo | server/src/ems/gst/cuda/ems_vk_cuda_image_pool.cpp:111-117 | Without an out pointer nothing is written. A null pool writes nothing. Otherwise the pool's info is written. |
| ClientXrContext.FindIndex | client/src/em/em_xr_context.hpp:33-38 | The index of the first matching entry, or the list's length when there is none. |
| ClientXrContext.IsExtEnabled | client/src/em/em_xr_context.hpp:33-38 | False for an invalid context, a null name or a null list. Otherwise true exactly when the name is in the list. |
| ClientXrContext.SystemId | client/src/em/em_xr_context.hpp:40-51 | The null system id for an invalid context or a failed call. Otherwise the id the runtime returned. |
| ClientXrContext.ExtensionFoundAnywhere | client/src/em/em_xr_context.hpp:33-38 | An extension is found wherever it sits in the list. |
| Passthrough.ClearColor | client/src/em/em_passthrough.cpp:32-40 | Always black. Transparent exactly in ADDITIVE and ALPHA_BLEND, opaque otherwise. |
| Passthrough.DefaultLayer | client/src/em/em_passthrough.hpp:19-23 | No layer struct, no flags, OPAQUE. |
| Passthrough.FbCompositionLayer | client/src/em/em_passthrough.cpp:99-113 | A layer struct is submitted exactly when the passthrough layer exists and the world shows through; it points at the layer handle and carries the source-alpha flag. Otherwise the result is the default layer. The FB layer itself reports OPAQUE. |
| Passthrough.HtcCompositionLayerAsWritten | client/src/em/em_passthrough.cpp:232-278 | As written: a layer struct is submitted exactly when a passthrough exists and the world shows through, with the source-alpha flag, the projection flags and OPAQUE; otherwise the default layer. Every submitted struct names the null passthrough handle. |
| Passthrough.HtcLayersDifferOnlyInHandle | client/src/em/em_passthrough.cpp:232-278 | For every handle and mode the as-written and corrected layers submit in the same states with the same flags and mode, differ only in the handle named, and are equal exactly when nothing is submitted. |
| Passthrough.HtcLayerSubmitsNullHandle | client/src/em/em_passthrough.cpp:232-311 | With a live passthrough (handle 7) in ADDITIVE mode, the submitted layer has a null handle. |
| Passthrough.HtcCompositionLayer | client/src/em/em_passthrough.cpp:263-278 | Corrected: a layer is submitted exactly when the passthrough exists and the world shows through, and it points at that passthrough. Otherwise the result is the default layer. |
| Passthrough.LayerBackendUsesAlphaForAdditive | client/src/em/em_passthrough.cpp:92-97 | The FB and HTC back-ends ask for alpha blending exactly in ADDITIVE. |
| Passthrough.HasMode | client/src/em/em_passthrough.cpp:363-365 | True exactly when the runtime advertised the mode. |
| Passthrough.EbmAlphaForAdditive | client/src/em/em_passthrough.cpp:345-361 | Alpha blending stands in for additive exactly when ALPHA_BLEND is advertised and ADDITIVE is not. |
| Passthrough.EbmSupported | client/src/em/em_passthrough.cpp:367-376 | Supported exactly when ADDITIVE or ALPHA_BLEND is advertised. |
| Passthrough.EbmCompositionLayer | client/src/em/em_passthrough.cpp:378-387 | Never a layer struct, and the mode passes through. The projection flags are source-alpha plus unpremultiplied exactly in ALPHA_BLEND, or in ADDITIVE when alpha stands in; otherwise zero. |
| Passthrough.EbmFlagsExactlyForAlphaBlend | client/src/em/em_passthrough.cpp:345-387 | For any mode the back-end can be in, projection flags are set exactly in ALPHA_BLEND. |
| Passthrough.ClearColorAgreesWithLayers | client/src/em/em_passthrough.cpp:32-40 | Whenever any back-end submits a passthrough layer (the HTC one as written or corrected) or sets projection flags, the clear colour is transparent. |
| Passthrough.FbSupported | client/src/em/em_passthrough.cpp:75-90 | Supported exactly when the FB extension is enabled and the system reports passthrough support; this needs a valid context. |
| Passthrough.HtcSupported | client/src/em/em_passthrough.cpp:252-254 | Supported exactly when the HTC extension is enabled, which needs a valid context. |
| Passthrough.FbResume | client/src/em/em_passthrough.cpp:129-152 | Succeeds exactly when the layer exists and all three runtime calls succeed. |
| Passthrough.FbPause | client/src/em/em_passthrough.cpp:154-164 | Reports success whenever the layer exists, whatever the two pause calls return. |
| Passthrough.ChooseBackend | client/src/em/em_passthrough.cpp:390-398 | FB when supported; otherwise HTC when supported; otherwise EBM. |
| Passthrough.EbmModes | client/src/em/em_passthrough.cpp:345-361 | Empty for an invalid context, a null system or a failed count. Otherwise as many modes as counted: those the second call wrote, or all OPAQUE (the resize's fill) if it wrote nothing, since its result is not checked. |
| Passthrough.Passthrough.Fb | client/src/em/em_passthrough.cpp:44-197 | OPAQUE, with the runtime's support answer. Both handles are set exactly when the back-end is supported, the functions load, and both creates succeed. A failed layer create leaves both null. |
| Passthrough.Passthrough.Htc | client/src/em/em_passthrough.cpp:232-246 | OPAQUE, with no passthrough created yet. |
| Passthrough.Passthrough.Ebm | client/src/em/em_passthrough.cpp:345-361 | OPAQUE; the modes are those enumerated, and the alpha flag is derived from them. |
| Passthrough.Passthrough.IsSupported | client/src/em/em_passthrough.hpp:31 | Each back-end's support condition. |
| Passthrough.Passthrough.UseAlphaBlendForAdditive | client/src/em/em_passthrough.hpp:32 | FB and HTC: exactly in ADDITIVE. EBM: exactly when only ALPHA_BLEND stands in for ADDITIVE. |
| Passthrough.Passthrough.CompositionLayer | client/src/em/em_passthrough.hpp:36 | Each back-end's layer as the code builds it: FB's, HTC's as written (naming the null handle), EBM's. In every back-end, passthrough content is composed only while the world shows through. |
| Passthrough.Passthrough.HtcResume | client/src/em/em_passthrough.cpp:294-311 | Unsupported: fails and changes nothing. A live passthrough is kept. Otherwise exactly one create call is made, and the result follows it. |
| Passthrough.Passthrough.HtcPause | client/src/em/em_passthrough.cpp:313-323 | Succeeds exactly when supported, and then drops the handle even if the destroy failed. |
| Passthrough.Passthrough.SetBlendMode | client/src/em/em_passthrough.cpp:23-30 | Refused for an invalid context or the current mode. Otherwise the mode changes exactly when the back-end's handler succeeds: EBM when the mode is advertised; FB by resume or pause; HTC by resume (create) or pause. For HTC the new handle and create-call count are given: a pause drops the handle when supported and keeps it otherwise; a resume keeps a live or unsupported handle, and otherwise makes one create call and stores its handle, or null when it failed. |
| Passthrough.MakePassthrough | client/src/em/em_passthrough.cpp:390-398 | The factory's back-end is the one `ChooseBackend` picks. A chosen FB or HTC back-end is supported. EBM is built from the enumerated modes. |
| Passthrough.EbmStaysWithinAdvertised | client/src/em/em_passthrough.cpp:345-365 | The EBM back-end only reaches OPAQUE or an advertised mode. A switch succeeds exactly for an advertised mode other than OPAQUE. |

## Left out

- I/O and platform services are not modelled. Logging, the clock, the GLib main loop, the
  signaling server, GStreamer element creation and OpenXR/Vulkan/CUDA calls become parameters
  (their outcomes) or are left out.
- Floating-point time arithmetic in the benchmark is left out. Whether five seconds have elapsed
  is the `windowElapsed` parameter, and the per-second rate is not computed.
- Concurrency is left out. The pool's mutex and the GStreamer streaming threads are not modelled:
  each call is atomic.
- The protobuf decoders are oracles: a decode outcome is passed in.
- The `(void *)client_id` pointer arithmetic is reduced to a natural number.
- StreamPipeline.Pipeline.Join: requires that no endpoint with the client's name is already in the
  bin. The code would fail to add a duplicate element, and duplicate or reused client pointers
  are not modelled.
- StreamPipeline.Pipeline.OnTeePadBlocked: a second blocking probe, after the first has removed
  the endpoint, is not modelled.
- The remaining signaling steps are not modelled: the SDP text, the bundle policy, the
  transceiver setup, and the other handlers wired by join (`on-data-channel`, `on-ice-candidate`,
  channel errors and string messages). A failed state change of a new endpoint is a `g_assert`
  abort and is not modelled either.
- DownMsgLoss.CountSkipped: states the loss only for windows without the id -1, which the loop
  cannot tell apart from "no previous id". It models 32-bit overflow neither of the accumulator
  nor of the comparator's `a - b` (ids at or above 2^31 wrap through `GintOf`, which is modelled).
- DownMsgLoss.LossWindow.Record: the list dropped by a re-arm is leaked in the code. Here it is
  simply replaced.
- RtpHeaderExt.AddTwoByteElement: does not model the 16-bit word-count limit of the extension
  header. `CopiesFit` shows that up to 1000 probes stay within it.
- PayloaderProbe.RtpPayProbe: treats the buffer as writable. The shared-buffer case is the finding
  below, modelled by `DownstreamExtensionAsWritten`.
- The probe's warning when the extension bit is unexpectedly clear
  (server/src/ems/gst/ems_gstreamer_pipeline.c:375-378) only logs and is not modelled.
- FrameSource.GstreamerSource.PushFrame: row strides, plane offsets and the frame's reference
  count are not modelled.
- The `assert(false)` calls are no-ops in release builds, and the model follows the release build.
  An unlisted frame format maps to the unknown format
  (server/src/ems/gst/ems_gstreamer_src.c:44-55). A failed create-data-channel in join is logged
  and then carries on (server/src/ems/gst/ems_gstreamer_pipeline.c:444-448). A debug build would
  abort in both places.
- ImagePool.CreatePool: what a failed image create leaves in its slot is a parameter. The CUDA
  failure paths of the image helper destroy the image and null its handle but keep its memory,
  which the pool's clear() then frees; the helper's own calls are not modelled.
- The Vulkan/CUDA image helper (`ems_vk_cuda_image.cpp`) and the GstBuffer wrapper are not part of
  this model beyond the handle pair (image, memory).
- Passthrough.Passthrough.Htc: function-pointer loading is assumed to succeed.
- The FB and HTC destructors are not modelled.
- Passthrough.FbSupported: the runtime's system property is a single fixed answer per back-end.

## Findings

| source | as written | input that shows it | evidently intended | confidence | as-written member | corrected member |
|---|---|---|---|---|---|---|
| client/src/em/em_passthrough.cpp:239, 263-278 | The HTC layer struct's `passthrough` field is set to the null handle at construction and never assigned, unlike the FB back-end, which stores its layer handle. | A supported HTC runtime; resume creates passthrough handle 7; the mode is switched to ADDITIVE. The submitted layer then names the null handle. | The layer struct should point at the live passthrough handle. | high, not executed | Passthrough.HtcCompositionLayerAsWritten, Passthrough.HtcLayerSubmitsNullHandle | Passthrough.HtcCompositionLayer, Passthrough.HtcLayersDifferOnlyInHandle |
| server/src/ems/gst/ems_gstreamer_pipeline.c:330-332 | The probe edits the buffer returned by `gst_buffer_make_writable` but never stores it back into the probe info. A shared buffer is copied; the copy gets the DownMessage and is dropped, while the original travels on. | An RTP buffer still referenced elsewhere when it reaches the payloader's src pad, carrying the one-byte DownMessage [42]. It leaves without an extension, yet the benchmark counts it as sent. | The probe should hand the writable buffer back to the pad, so the extension always travels downstream. | medium, not executed | PayloaderProbe.DownstreamExtensionAsWritten, PayloaderProbe.SharedBufferLosesDownMessage | PayloaderProbe.DownstreamExtension |
