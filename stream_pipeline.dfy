/**
 * The server's streaming pipeline as the signaling callbacks drive it: one WebRTC endpoint
 * (a webrtcbin element named after its client) per connected peer, offers, answers and
 * candidates routed by that name, teardown through a blocking probe on the tee, the single
 * shared data-channel and keep-alive timer slots, the payloader probes stacked by every join,
 * tracking messages arriving on the data channel, and the bus-message classification.
 */
module StreamPipeline {
  import opened Wrappers
  import opened EndpointNames
  import opened PayloaderProbe
  import opened DownMsgLoss

  /** The GstState values an endpoint goes through. */
  datatype ElementState = Ready | Playing | NullState

  /** One ICE candidate as the signaling server hands it over. */
  datatype Candidate = Candidate(mlineIndex: nat, text: string)

  /** A webrtcbin endpoint and what has been applied to it. */
  datatype Endpoint = Endpoint(
    clientId: nat,
    state: ElementState,
    offerPending: bool,
    localDescriptionSet: bool,
    linkedToTee: bool,
    blockProbes: nat,
    remoteDescriptions: nat,
    candidates: seq<Candidate>)

  /** The externally visible steps, in the order they happen. */
  datatype Event =
    | LocalDescriptionSet(name: string)
    | OfferSent(clientId: nat)
    | LinkedToTee(name: string)
    | BlockProbeInstalled(name: string)
    | RemovedFromBin(name: string)
    | SetToNull(name: string)

  /** A decoded UpMessage; its fields are passed through to the tracking callback untouched. */
  datatype UpMessage = UpMessage(fields: seq<int>)

  /** A C string: no NUL character inside. */
  predicate CString(s: string) {
    forall k :: 0 <= k < |s| ==> s[k] != '\0'
  }

  /** A freshly joined endpoint: PLAYING, with the offer requested and nothing applied yet. */
  function JoinedEndpoint(clientId: nat): Endpoint {
    Endpoint(clientId, Playing, true, false, false, 0, 0, [])
  }

  /**
   * The bin's endpoints: each is named after its client and PLAYING, is linked to the tee only
   * once its offer went out, and is blocked only once it is linked.
   */
  ghost predicate EndpointsValid(endpoints: map<string, Endpoint>) {
    && (forall n :: n in endpoints ==> n == EndpointName(endpoints[n].clientId))
    && (forall n :: n in endpoints ==> endpoints[n].state == Playing)
    && (forall n :: n in endpoints && endpoints[n].linkedToTee ==>
          endpoints[n].localDescriptionSet && !endpoints[n].offerPending)
    && (forall n :: n in endpoints && endpoints[n].blockProbes > 0 ==> endpoints[n].linkedToTee)
  }

  /** Adding a freshly joined endpoint under its own name keeps the bin consistent. */
  lemma JoinKeepsEndpointsValid(endpoints: map<string, Endpoint>, clientId: nat)
    requires EndpointsValid(endpoints)
    ensures EndpointsValid(endpoints[EndpointName(clientId) := JoinedEndpoint(clientId)])
  {
  }

  class Pipeline {
    /** The webrtcbin elements in the pipeline bin, by element name. */
    var endpoints: map<string, Endpoint>
    /** Endpoints removed from the bin, in removal order. */
    var retired: seq<Endpoint>
    /** data_channel: the channel created by the most recent join. */
    var dataChannel: Option<nat>
    /** Channels whose open/close/message callbacks point at this pipeline. */
    var wiredChannels: set<nat>
    /** timeout_src_id (0 when clear). */
    var timeoutSrcId: nat
    /** Keep-alive timer sources still installed in the main loop. */
    var activeTimers: set<nat>
    /** Copies of the payloader probe on the rtppay src pad. */
    var payloaderProbes: nat
    var events: seq<Event>
    /** The EMS_CALLBACKS_EVENT_TRACKING calls made, in order. */
    var trackingCalls: seq<UpMessage>
    /** The DownMessage loss benchmark's window. */
    const loss: LossWindow

    ghost predicate Valid()
      reads this
    {
      && EndpointsValid(endpoints)
      && (forall k :: 0 <= k < |retired| ==>
            retired[k].state == NullState && retired[k].linkedToTee && retired[k].blockProbes > 0)
      && (timeoutSrcId != 0 ==> timeoutSrcId in activeTimers)
    }

    /** The pipeline struct starts zeroed: no peers, no channel, no timer, no probes. */
    constructor ()
      ensures Valid()
      ensures endpoints == map[] && retired == [] && dataChannel.None? && wiredChannels == {}
      ensures timeoutSrcId == 0 && activeTimers == {} && payloaderProbes == 0
      ensures events == [] && trackingCalls == []
      ensures fresh(loss) && !loss.haveEverSent && loss.window == [] && loss.reports == []
    {
      endpoints := map[];
      retired := [];
      dataChannel := None;
      wiredChannels := {};
      timeoutSrcId := 0;
      activeTimers := {};
      payloaderProbes := 0;
      events := [];
      trackingCalls := [];
      loss := new LossWindow();
    }

    /** get_webrtcbin_for_client: the element named after the client, if the bin holds one. */
    function EndpointFor(clientId: nat): (r: Option<Endpoint>)
      reads this
      ensures r.Some? <==> EndpointName(clientId) in endpoints
      ensures Valid() && r.Some? ==> r.value.clientId == clientId
    {
      var name := EndpointName(clientId);
      if name in endpoints then
        EndpointNameInjective(clientId, endpoints[name].clientId);
        Some(endpoints[name])
      else None
    }

    /**
     * webrtc_client_connected_cb. `createdChannel` is what create-data-channel wrote into the
     * shared slot (None when it failed; the failure is logged and its `assert(false)` is
     * taken as a release build, where it does nothing); `payloaderFound` is whether
     * the rtppay element and its src pad were found, so that one more probe is installed.
     */
    method Join(clientId: nat, createdChannel: Option<nat>, payloaderFound: bool)
      requires Valid()
      requires EndpointName(clientId) !in endpoints
      modifies this, loss
      ensures Valid()
      ensures endpoints == old(endpoints)[EndpointName(clientId) := JoinedEndpoint(clientId)]
      // The shared slot is overwritten by every join, even with a failed channel.
      ensures dataChannel == createdChannel
      ensures wiredChannels == old(wiredChannels) + (if createdChannel.Some? then {createdChannel.value} else {})
      ensures payloaderProbes == old(payloaderProbes) + (if payloaderFound then 1 else 0)
      ensures loss.haveEverSent == (if payloaderFound then false else old(loss.haveEverSent))
      ensures loss.window == old(loss.window) && loss.reports == old(loss.reports)
      ensures loss.lastPrintTime == old(loss.lastPrintTime)
      ensures retired == old(retired) && timeoutSrcId == old(timeoutSrcId) && activeTimers == old(activeTimers)
      ensures events == old(events) && trackingCalls == old(trackingCalls)
    {
      var name := EndpointName(clientId);
      JoinKeepsEndpointsValid(endpoints, clientId);
      // Created READY, then PLAYING, with the offer requested.
      var e := Endpoint(clientId, Ready, false, false, false, 0, 0, []);
      dataChannel := createdChannel;
      if createdChannel.Some? {
        wiredChannels := wiredChannels + {createdChannel.value};
      }
      e := e.(state := Playing, offerPending := true);
      endpoints := endpoints[name := e];
      if payloaderFound {
        loss.Rearm();
        payloaderProbes := payloaderProbes + 1;
      }
    }

    /**
     * on_offer_created followed by connect_webrtc_to_tee: the local description is set and the
     * offer sent to the client before the endpoint is linked to the tee.
     */
    method OnOfferCreated(clientId: nat)
      requires Valid()
      requires EndpointName(clientId) in endpoints && endpoints[EndpointName(clientId)].offerPending
      modifies this
      ensures Valid()
      ensures var name := EndpointName(clientId);
              && events == old(events) + [LocalDescriptionSet(name), OfferSent(clientId), LinkedToTee(name)]
              && endpoints == old(endpoints)[name := old(endpoints)[name].(
                   offerPending := false, localDescriptionSet := true, linkedToTee := true)]
      ensures retired == old(retired) && dataChannel == old(dataChannel) && wiredChannels == old(wiredChannels)
      ensures timeoutSrcId == old(timeoutSrcId) && activeTimers == old(activeTimers)
      ensures payloaderProbes == old(payloaderProbes) && trackingCalls == old(trackingCalls)
    {
      var name := EndpointName(clientId);
      var e := endpoints[name];
      EndpointNameInjective(clientId, e.clientId);
      e := e.(offerPending := false, localDescriptionSet := true);
      events := events + [LocalDescriptionSet(name)];
      events := events + [OfferSent(e.clientId)];
      e := e.(linkedToTee := true);
      events := events + [LinkedToTee(name)];
      endpoints := endpoints[name := e];
    }

    /**
     * webrtc_sdp_answer_cb. `sdpParses` and `descriptionCreated` are the outcomes of parsing the
     * text and wrapping it as an answer; only then, and only for a known client, is the remote
     * description applied.
     */
    method OnAnswer(clientId: nat, sdpParses: bool, descriptionCreated: bool)
      requires Valid()
      modifies this
      ensures Valid()
      ensures var name := EndpointName(clientId);
              if sdpParses && descriptionCreated && name in old(endpoints) then
                endpoints == old(endpoints)[name := old(endpoints)[name].(
                  remoteDescriptions := old(endpoints)[name].remoteDescriptions + 1)]
              else endpoints == old(endpoints)
      ensures retired == old(retired) && dataChannel == old(dataChannel) && wiredChannels == old(wiredChannels)
      ensures timeoutSrcId == old(timeoutSrcId) && activeTimers == old(activeTimers)
      ensures payloaderProbes == old(payloaderProbes) && events == old(events) && trackingCalls == old(trackingCalls)
    {
      if !sdpParses {
        return;
      }
      if descriptionCreated {
        var endpoint := EndpointFor(clientId);
        if endpoint.None? {
          return;
        }
        var name := EndpointName(clientId);
        var e := endpoints[name];
        endpoints := endpoints[name := e.(remoteDescriptions := e.remoteDescriptions + 1)];
      }
    }

    /** webrtc_candidate_cb: a non-empty candidate for a known client is added to its endpoint. */
    method OnRemoteCandidate(clientId: nat, mlineIndex: nat, candidate: string)
      requires Valid() && CString(candidate)
      modifies this
      ensures Valid()
      ensures var name := EndpointName(clientId);
              if candidate != "" && name in old(endpoints) then
                endpoints == old(endpoints)[name := old(endpoints)[name].(
                  candidates := old(endpoints)[name].candidates + [Candidate(mlineIndex, candidate)])]
              else endpoints == old(endpoints)
      ensures retired == old(retired) && dataChannel == old(dataChannel) && wiredChannels == old(wiredChannels)
      ensures timeoutSrcId == old(timeoutSrcId) && activeTimers == old(activeTimers)
      ensures payloaderProbes == old(payloaderProbes) && events == old(events) && trackingCalls == old(trackingCalls)
    {
      if |candidate| > 0 {
        var endpoint := EndpointFor(clientId);
        if endpoint.Some? {
          var name := EndpointName(clientId);
          var e := endpoints[name];
          endpoints := endpoints[name := e.(candidates := e.candidates + [Candidate(mlineIndex, candidate)])];
        }
      }
    }

    /**
     * webrtc_client_disconnected_cb: for a known client whose endpoint already has its sink pad
     * (that is, it has been linked to the tee), a downstream-blocking probe is installed on the
     * tee side. Nothing is removed yet; an unknown client, or one not yet linked, changes nothing.
     */
    method Leave(clientId: nat)
      requires Valid()
      modifies this
      ensures Valid()
      ensures var name := EndpointName(clientId);
              if name in old(endpoints) && old(endpoints)[name].linkedToTee then
                && endpoints == old(endpoints)[name := old(endpoints)[name].(
                     blockProbes := old(endpoints)[name].blockProbes + 1)]
                && events == old(events) + [BlockProbeInstalled(name)]
              else endpoints == old(endpoints) && events == old(events)
      ensures retired == old(retired) && dataChannel == old(dataChannel) && wiredChannels == old(wiredChannels)
      ensures timeoutSrcId == old(timeoutSrcId) && activeTimers == old(activeTimers)
      ensures payloaderProbes == old(payloaderProbes) && trackingCalls == old(trackingCalls)
    {
      var endpoint := EndpointFor(clientId);
      if endpoint.Some? {
        var name := EndpointName(clientId);
        var e := endpoints[name];
        if e.linkedToTee {
          endpoints := endpoints[name := e.(blockProbes := e.blockProbes + 1)];
          events := events + [BlockProbeInstalled(name)];
        }
      }
    }

    /**
     * remove_webrtcbin_probe_cb, run once the tee pad is blocked: only here is the endpoint
     * removed from the bin and set to NULL, and the probe asks to be removed.
     */
    method OnTeePadBlocked(clientId: nat) returns (r: PadProbeReturn)
      requires Valid()
      requires EndpointName(clientId) in endpoints && endpoints[EndpointName(clientId)].blockProbes > 0
      modifies this
      ensures Valid()
      ensures r == ProbeRemove
      ensures var name := EndpointName(clientId);
              && endpoints == old(endpoints) - {name}
              && retired == old(retired) + [old(endpoints)[name].(state := NullState)]
              && events == old(events) + [RemovedFromBin(name), SetToNull(name)]
      ensures dataChannel == old(dataChannel) && wiredChannels == old(wiredChannels)
      ensures timeoutSrcId == old(timeoutSrcId) && activeTimers == old(activeTimers)
      ensures payloaderProbes == old(payloaderProbes) && trackingCalls == old(trackingCalls)
    {
      var name := EndpointName(clientId);
      var e := endpoints[name];
      endpoints := endpoints - {name};
      events := events + [RemovedFromBin(name)];
      retired := retired + [e.(state := NullState)];
      events := events + [SetToNull(name)];
      r := ProbeRemove;
    }

    /**
     * data_channel_open_cb on any wired channel: a new three-second keep-alive source is added
     * and its id overwrites the shared slot; an earlier source stays installed.
     */
    method OnDataChannelOpen(channel: nat, newSourceId: nat)
      requires Valid()
      requires channel in wiredChannels
      requires newSourceId > 0 && newSourceId !in activeTimers
      modifies this
      ensures Valid()
      ensures timeoutSrcId == newSourceId && activeTimers == old(activeTimers) + {newSourceId}
      ensures endpoints == old(endpoints) && retired == old(retired)
      ensures dataChannel == old(dataChannel) && wiredChannels == old(wiredChannels)
      ensures payloaderProbes == old(payloaderProbes) && events == old(events) && trackingCalls == old(trackingCalls)
    {
      timeoutSrcId := newSourceId;
      activeTimers := activeTimers + {newSourceId};
    }

    /**
     * data_channel_close_cb on any wired channel: the source in the shared slot is removed and
     * the slot cleared, and the shared channel slot is cleared, whichever channel closed.
     */
    method OnDataChannelClose(channel: nat)
      requires Valid()
      requires channel in wiredChannels
      modifies this
      ensures Valid()
      ensures timeoutSrcId == 0
      ensures activeTimers == old(activeTimers) - (if old(timeoutSrcId) != 0 then {old(timeoutSrcId)} else {})
      ensures dataChannel.None?
      ensures endpoints == old(endpoints) && retired == old(retired) && wiredChannels == old(wiredChannels)
      ensures payloaderProbes == old(payloaderProbes) && events == old(events) && trackingCalls == old(trackingCalls)
    {
      if timeoutSrcId != 0 {
        activeTimers := activeTimers - {timeoutSrcId};
        timeoutSrcId := 0;
      }
      dataChannel := None;
    }

    /**
     * data_channel_message_data_cb: `decoded` is the protobuf decoder's outcome. A failure is
     * only logged; a decoded UpMessage makes exactly one tracking callback.
     */
    method OnDataChannelMessage(channel: nat, decoded: Option<UpMessage>)
      requires Valid()
      requires channel in wiredChannels
      modifies this
      ensures Valid()
      ensures trackingCalls == old(trackingCalls) + (if decoded.Some? then [decoded.value] else [])
      ensures endpoints == old(endpoints) && retired == old(retired)
      ensures dataChannel == old(dataChannel) && wiredChannels == old(wiredChannels)
      ensures timeoutSrcId == old(timeoutSrcId) && activeTimers == old(activeTimers)
      ensures payloaderProbes == old(payloaderProbes) && events == old(events)
    {
      if decoded.None? {
        return;
      }
      trackingCalls := trackingCalls + [decoded.value];
    }
  }

  /**
   * A peer's whole life: join, offer, leave, blocked pad. The offer precedes the link, the
   * block precedes the removal, and afterwards the name is free again while the payloader
   * probe that the join installed stays.
   */
  method PeerLifecycle(clientId: nat) returns (p: Pipeline)
    ensures fresh(p) && p.Valid()
    ensures p.endpoints == map[] && |p.retired| == 1 && p.retired[0].clientId == clientId
    ensures p.events == [LocalDescriptionSet(EndpointName(clientId)), OfferSent(clientId),
                         LinkedToTee(EndpointName(clientId)), BlockProbeInstalled(EndpointName(clientId)),
                         RemovedFromBin(EndpointName(clientId)), SetToNull(EndpointName(clientId))]
    ensures p.payloaderProbes == 1
  {
    p := new Pipeline();
    p.Join(clientId, Some(1), true);
    p.OnOfferCreated(clientId);
    p.Leave(clientId);
    var r := p.OnTeePadBlocked(clientId);
    assert p.endpoints == map[EndpointName(clientId) := p.retired[0].(state := Playing)] - {EndpointName(clientId)};
  }

  /**
   * Two peers whose channels both open: the second open overwrites the shared timer slot, so
   * the close removes only the second keep-alive source and the first keeps running.
   */
  method TwoChannelsLeakATimer() returns (p: Pipeline)
    ensures fresh(p) && p.Valid()
    ensures p.activeTimers == {1} && p.timeoutSrcId == 0 && p.dataChannel.None?
  {
    p := new Pipeline();
    p.Join(10, Some(100), true);
    p.Join(20, Some(200), true);
    p.OnDataChannelOpen(100, 1);
    p.OnDataChannelOpen(200, 2);
    p.OnDataChannelClose(200);
  }

  /** The GError domains the bus callback distinguishes. */
  datatype ErrorDomain = StreamErrorDomain | OtherErrorDomain

  /** GST_STREAM_ERROR_FAILED. */
  const StreamErrorFailed: int := 1

  datatype BusMessage =
    | ErrorMessage(domain: ErrorDomain, code: int)
    | WarningMessage
    | EndOfStream
    | OtherMessage

  /** What gst_bus_cb does with a message: keep watching, exit the process, or abort via g_error. */
  datatype BusAction = KeepWatching | ExitFailure | Abort

  function BusCallback(m: BusMessage): (a: BusAction)
    // Only a stream-domain FAILED error terminates with a failure status.
    ensures a == ExitFailure <==> m.ErrorMessage? && m.domain == StreamErrorDomain && m.code == StreamErrorFailed
    // End of stream is fatal through g_error.
    ensures a == Abort <==> m.EndOfStream?
    // Every other error, every warning and every other message keeps the watch installed.
    ensures a == KeepWatching <==>
              !m.EndOfStream? && !(m.ErrorMessage? && m.domain == StreamErrorDomain && m.code == StreamErrorFailed)
  {
    match m
    case ErrorMessage(domain, code) =>
      if domain == StreamErrorDomain && code == StreamErrorFailed then ExitFailure else KeepWatching
    case WarningMessage => KeepWatching
    case EndOfStream => Abort
    case OtherMessage => KeepWatching
  }
}
