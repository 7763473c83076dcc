/**
 * `HandshakeHandler`: the first handler a connection meets. It arms a
 * timeout when the channel becomes active, waits for a frame whose CMD is
 * INITIALIZE, answers `CMD=INITIALIZE_REP EQPID=<id>` and hands the
 * connection to the scenario runner of the EQP's profile.
 *
 * The Netty context becomes explicit state: `closed` records that
 * `ctx.close()` was called, `runner` that the pipeline replaced this
 * handler by a runner for that plan, and the scheduled timeout is a
 * `TimeoutFuture` object the event loop later fires (`Fire`) unless it was
 * cancelled first. The channel attributes (the EQP, the fault state) and
 * the random draws of the sender are arguments.
 */
module Handshake {
  import opened Wrappers
  import opened JavaText
  import opened Config
  import opened EqpRuntimes
  import opened ScenarioSteps
  import opened FaultStates
  import opened OutboundFrameSender
  import opened ScenarioCompletion
  import opened SocketFrameEncoderFactory
  import FrameTokenParser
  import LineEndingFrameDecoder
  import opened ByteBufSearch

  /** The timeout used when the EQP's handshake timeout is not positive. */
  const DEFAULT_HANDSHAKE_TIMEOUT_SEC := 60

  /** The seconds the handshake may take for a configured value. */
  function HandshakeTimeoutSec(configured: int): (r: int)
    ensures r > 0
    ensures configured > 0 ==> r == configured
    ensures configured <= 0 ==> r == DEFAULT_HANDSHAKE_TIMEOUT_SEC
  {
    if configured > 0 then configured else DEFAULT_HANDSHAKE_TIMEOUT_SEC
  }

  /** The answer to INITIALIZE. */
  function Reply(eqpId: string): string {
    "CMD=INITIALIZE_REP EQPID=" + eqpId
  }

  /** The exception a send lets escape to its caller, if any. */
  function Thrown(o: SendOutcome): (r: Option<Failure>)
    ensures r.Some? ==> o.Failed? || o.Sent?
  {
    match o
    case Failed(e) => Some(e)
    case Sent(_, t) => t
    case _ => None
  }

  /** A timeout scheduled on the event loop; `cancel(false)` keeps it from running. */
  class TimeoutFuture {
    const delaySec: int
    var cancelled: bool

    constructor(delaySec: int)
      ensures this.delaySec == delaySec && !cancelled
    {
      this.delaySec := delaySec;
      cancelled := false;
    }
  }

  class HandshakeHandler {
    /** `ScenarioRegistry.getPlanByProfileId`, as a table. */
    const plans: map<string, Plan>
    /** The completion tracker; `None` is the no-op tracker. */
    const tracker: Option<ScenarioCompletionCoordinator>
    var handshaked: bool
    var timeoutFuture: Option<TimeoutFuture>
    /** `ctx.close()` has been called. */
    var closed: bool
    /** The plan of the runner this handler was replaced by, once it was. */
    var runner: Option<Plan>

    constructor(plans: map<string, Plan>, tracker: Option<ScenarioCompletionCoordinator>)
      ensures this.plans == plans && this.tracker == tracker
      ensures !handshaked && timeoutFuture.None? && !closed && runner.None?
    {
      this.plans := plans;
      this.tracker := tracker;
      handshaked := false;
      timeoutFuture := None;
      closed := false;
      runner := None;
    }

    /** The timer object the handler holds, if any. */
    function Timer(): set<TimeoutFuture>
      reads this
    {
      if timeoutFuture.Some? then {timeoutFuture.value} else {}
    }

    function Tracked(): set<ScenarioCompletionCoordinator> {
      if tracker.Some? then {tracker.value} else {}
    }

    /**
     * `channelActive`: without an EQP the connection is closed at once, no
     * timer is armed and the event is not passed on. Otherwise a timeout
     * of `HandshakeTimeoutSec` is scheduled and the event propagates.
     */
    method ChannelActive(eqp: Option<EqpRuntime>) returns (propagated: bool)
      modifies this
      ensures eqp.None? ==> !propagated && closed && timeoutFuture == old(timeoutFuture)
      ensures eqp.Some? ==>
        && propagated && closed == old(closed)
        && timeoutFuture.Some? && fresh(timeoutFuture.value) && !timeoutFuture.value.cancelled
        && timeoutFuture.value.delaySec == HandshakeTimeoutSec(eqp.value.handshakeTimeoutSec)
      ensures handshaked == old(handshaked) && runner == old(runner)
    {
      if eqp.None? {
        closed := true;
        return false;
      }
      var f := new TimeoutFuture(HandshakeTimeoutSec(eqp.value.handshakeTimeoutSec));
      timeoutFuture := Some(f);
      return true;
    }

    /**
     * The scheduled timeout running on the event loop: a cancelled one does
     * not run; otherwise it closes the connection only if the handshake
     * has not completed.
     */
    method Fire(f: TimeoutFuture)
      modifies this
      ensures closed == (old(closed) || (!f.cancelled && !handshaked))
      ensures handshaked == old(handshaked) && timeoutFuture == old(timeoutFuture) && runner == old(runner)
    {
      if f.cancelled {
        return;
      }
      if !handshaked {
        closed := true;
      }
    }

    /** `cancelTimeout`: cancels the held timer, if any, and forgets it. */
    method CancelTimeout()
      modifies this, Timer()
      ensures timeoutFuture.None?
      ensures old(timeoutFuture).Some? ==> old(timeoutFuture).value.cancelled
      ensures handshaked == old(handshaked) && closed == old(closed) && runner == old(runner)
    {
      if timeoutFuture.Some? {
        timeoutFuture.value.cancelled := true;
        timeoutFuture := None;
      }
    }

    /** `channelInactive`: the timer is always cancelled and the event always propagates. */
    method ChannelInactive() returns (propagated: bool)
      modifies this, Timer()
      ensures propagated
      ensures timeoutFuture.None?
      ensures old(timeoutFuture).Some? ==> old(timeoutFuture).value.cancelled
      ensures handshaked == old(handshaked) && closed == old(closed) && runner == old(runner)
    {
      CancelTimeout();
      return true;
    }

    /** The tracker's open set after a completed handshake of `e`: a PASSIVE EQP is added. */
    function OpenedFor(before: set<string>, e: EqpRuntime): set<string> {
      if e.mode == PASSIVE && Usable(Some(e.eqpId)) then before + {e.eqpId} else before
    }

    /**
     * What follows a reply that did not throw: the handshake is marked
     * done, the timer cancelled, a PASSIVE EQP reported open to the
     * tracker, and the handler replaced by a runner for the EQP's profile,
     * or the connection closed when the profile has no plan. The channel,
     * named by the ghost parameter, is untouched.
     */
    method Complete(e: EqpRuntime, ghost ch: Channel)
      requires tracker.Some? ==> tracker.value.Valid()
      modifies this, Timer(), Tracked()
      ensures unchanged(ch)
      ensures handshaked && timeoutFuture.None? && (old(timeoutFuture).Some? ==> old(timeoutFuture).value.cancelled)
      ensures closed == (old(closed) || e.profileId !in plans)
      ensures runner == (if e.profileId in plans then Some(plans[e.profileId]) else old(runner))
      ensures tracker.Some? ==>
        && tracker.value.Valid()
        && tracker.value.passiveOpen == OpenedFor(old(tracker.value.passiveOpen), e)
        && tracker.value.completed == old(tracker.value.completed)
        && tracker.value.exitTriggered == old(tracker.value.exitTriggered)
    {
      handshaked := true;
      CancelTimeout();
      if e.mode == PASSIVE && tracker.Some? {
        var _ := tracker.value.MarkPassiveChannelOpened(Some(e.eqpId));
      }
      if e.profileId !in plans {
        closed := true;
        return;
      }
      runner := Some(plans[e.profileId]);
    }

    /**
     * The INITIALIZE branch: the reply goes through the outbound sender
     * (`reply` is what that send did); with no fault state installed it is
     * written and flushed once, framed for the EQP's socket type. An
     * exception the send throws escapes before anything else changes,
     * otherwise the handshake completes.
     */
    method Initialize(ch: Channel, e: EqpRuntime, fs: Option<FaultState>, nowMs: int, draws: Draws)
      returns (reply: SendOutcome, thrown: Option<Failure>)
      requires fs.Some? ==> fs.value.Valid()
      requires tracker.Some? ==> tracker.value.Valid()
      modifies this, Timer(), ch, SendCounters(fs), Tracked()
      ensures thrown == Thrown(reply)
      ensures var enc := EncodeUtf8(Some(e.socketType), Some(Reply(e.eqpId)));
        && (reply.Ignored? <==> !old(ch.active))
        && (reply.Ignored? || reply.Failed? || reply.Scheduled? ==> ChannelOf(ch) == old(ChannelOf(ch)))
        && (!reply.Ignored? && enc.Err? ==> reply == Failed(enc.error))
        && (!reply.Ignored? && enc.Ok? && fs.None? ==>
              reply == Plain && WrittenOnce(old(ChannelOf(ch)), ChannelOf(ch), enc.value))
        && (!reply.Ignored? && enc.Ok? && fs.Some? ==> reply.Sent? || reply.Scheduled? || reply == Failed(IllegalArgument))
      ensures thrown.Some? ==>
        && handshaked == old(handshaked) && closed == old(closed) && runner == old(runner)
        && timeoutFuture == old(timeoutFuture)
        && (timeoutFuture.Some? ==> timeoutFuture.value.cancelled == old(timeoutFuture.value.cancelled))
        && (tracker.Some? ==> tracker.value.passiveOpen == old(tracker.value.passiveOpen))
      ensures thrown.None? ==>
        && handshaked && timeoutFuture.None? && (old(timeoutFuture).Some? ==> old(timeoutFuture).value.cancelled)
        && closed == (old(closed) || e.profileId !in plans)
        && runner == (if e.profileId in plans then Some(plans[e.profileId]) else old(runner))
        && (tracker.Some? ==> tracker.value.passiveOpen == OpenedFor(old(tracker.value.passiveOpen), e))
      ensures tracker.Some? ==>
        && tracker.value.Valid()
        && tracker.value.completed == old(tracker.value.completed)
        && tracker.value.exitTriggered == old(tracker.value.exitTriggered)
    {
      reply := OutboundFrameSender.Send(ch, Some(e), Some(Reply(e.eqpId)), fs, nowMs, draws);
      thrown := Thrown(reply);
      if thrown.None? {
        Complete(e, ch);
      }
    }

    /**
     * `channelRead0` of a decoded frame. After the handshake every frame is
     * ignored. Without an EQP the timer is cancelled and the connection
     * closed. A frame whose CMD is missing or is not INITIALIZE leaves
     * everything as it was, timer included. INITIALIZE is answered as
     * `Initialize` says.
     */
    method ChannelRead0(ch: Channel, eqp: Option<EqpRuntime>, frame: string, fs: Option<FaultState>,
                        nowMs: int, draws: Draws) returns (reply: Option<SendOutcome>, thrown: Option<Failure>)
      requires fs.Some? ==> fs.value.Valid()
      requires tracker.Some? ==> tracker.value.Valid()
      modifies this, Timer(), ch, SendCounters(fs), Tracked()
      ensures reply.Some? <==>
        !old(handshaked) && eqp.Some? && FrameTokenParser.ExtractCmdUpper(Some(frame)) == Some("INITIALIZE")
      ensures reply.None? ==> thrown.None? && ChannelOf(ch) == old(ChannelOf(ch))
      ensures reply.None? && (old(handshaked) || eqp.Some?) ==>
        && handshaked == old(handshaked) && closed == old(closed) && runner == old(runner)
        && timeoutFuture == old(timeoutFuture)
        && (timeoutFuture.Some? ==> timeoutFuture.value.cancelled == old(timeoutFuture.value.cancelled))
      ensures !old(handshaked) && eqp.None? ==>
        && closed && timeoutFuture.None? && (old(timeoutFuture).Some? ==> old(timeoutFuture).value.cancelled)
        && !handshaked && runner == old(runner)
      ensures reply.Some? ==>
        var e := eqp.value;
        var enc := EncodeUtf8(Some(e.socketType), Some(Reply(e.eqpId)));
        && thrown == Thrown(reply.value)
        && (reply.value.Ignored? <==> !old(ch.active))
        && (reply.value.Ignored? || reply.value.Failed? || reply.value.Scheduled? ==> ChannelOf(ch) == old(ChannelOf(ch)))
        && (!reply.value.Ignored? && enc.Err? ==> reply.value == Failed(enc.error))
        && (!reply.value.Ignored? && enc.Ok? && fs.None? ==>
              reply.value == Plain && WrittenOnce(old(ChannelOf(ch)), ChannelOf(ch), enc.value))
        && (!reply.value.Ignored? && enc.Ok? && fs.Some? ==>
              reply.value.Sent? || reply.value.Scheduled? || reply.value == Failed(IllegalArgument))
      ensures reply.Some? && thrown.Some? ==>
        && handshaked == old(handshaked) && closed == old(closed) && runner == old(runner)
        && timeoutFuture == old(timeoutFuture)
        && (timeoutFuture.Some? ==> timeoutFuture.value.cancelled == old(timeoutFuture.value.cancelled))
      ensures reply.Some? && thrown.None? ==>
        var e := eqp.value;
        && handshaked && timeoutFuture.None? && (old(timeoutFuture).Some? ==> old(timeoutFuture).value.cancelled)
        && closed == (old(closed) || e.profileId !in plans)
        && runner == (if e.profileId in plans then Some(plans[e.profileId]) else old(runner))
      // The tracker hears of a PASSIVE EQP only when its handshake completes.
      ensures tracker.Some? ==>
        && tracker.value.Valid()
        && tracker.value.passiveOpen ==
             (if reply.Some? && thrown.None? then OpenedFor(old(tracker.value.passiveOpen), eqp.value)
              else old(tracker.value.passiveOpen))
        && tracker.value.completed == old(tracker.value.completed)
        && tracker.value.exitTriggered == old(tracker.value.exitTriggered)
    {
      if handshaked {
        return None, None;
      }
      if eqp.None? {
        CancelTimeout();
        closed := true;
        return None, None;
      }
      var cmd := FrameTokenParser.ExtractCmdUpperScan(Some(frame));
      if cmd != Some("INITIALIZE") {
        return None, None;
      }
      var sent;
      sent, thrown := Initialize(ch, eqp.value, fs, nowMs, draws);
      reply := Some(sent);
    }
  }

  // ---------------------------------------------------------------------
  // Properties

  /** The reply's two tokens, in the token parser's terms. */
  lemma ReplyTokens(eqpId: string)
    ensures Reply(eqpId) == FrameTokenParser.TwoTokenFrame([], "CMD", "INITIALIZE_REP", " ", "EQPID", eqpId, [])
    ensures FrameTokenParser.Plain("CMD") && FrameTokenParser.PlainValue("INITIALIZE_REP") && FrameTokenParser.Plain("EQPID")
    ensures ToUpper("CMD") == "CMD" && ToUpper("INITIALIZE_REP") == "INITIALIZE_REP" && ToUpper("EQPID") == "EQPID"
  {
    ReplyPieces();
    UpperPieces();
  }

  lemma ReplyPieces()
    ensures FrameTokenParser.Plain("CMD") && FrameTokenParser.PlainValue("INITIALIZE_REP") && FrameTokenParser.Plain("EQPID")
  {
  }

  lemma UpperPieces()
    ensures ToUpper("CMD") == "CMD" && ToUpper("INITIALIZE_REP") == "INITIALIZE_REP" && ToUpper("EQPID") == "EQPID"
  {
  }

  /** The reply reads back as an INITIALIZE_REP frame. */
  lemma ReplyCmd(eqpId: string)
    requires FrameTokenParser.PlainValue(eqpId)
    ensures FrameTokenParser.ExtractCmdUpper(Some(Reply(eqpId))) == Some("INITIALIZE_REP")
  {
    ReplyTokens(eqpId);
    FrameTokenParser.TwoTokenCmd([], "CMD", "INITIALIZE_REP", " ", "EQPID", eqpId, []);
  }

  /** The reply's tokens name the command and the EQP. */
  lemma ReplyKeys(eqpId: string)
    requires FrameTokenParser.PlainValue(eqpId)
    ensures FrameTokenParser.ToUpperKeyMap(Some(Reply(eqpId))) == map["CMD" := "INITIALIZE_REP", "EQPID" := eqpId]
  {
    ReplyTokens(eqpId);
    FrameTokenParser.TwoTokenMap([], "CMD", "INITIALIZE_REP", " ", "EQPID", eqpId, []);
  }

  /** The 32 ASCII bytes of "CMD=INITIALIZE_REP EQPID=TEST001". */
  const REPLY_TEST001: seq<byte> :=
    [0x43, 0x4D, 0x44, 0x3D, 0x49, 0x4E, 0x49, 0x54, 0x49, 0x41, 0x4C, 0x49, 0x5A, 0x45, 0x5F, 0x52,
     0x45, 0x50, 0x20, 0x45, 0x51, 0x50, 0x49, 0x44, 0x3D, 0x54, 0x45, 0x53, 0x54, 0x30, 0x30, 0x31]

  lemma ReplyTest001Bytes()
    ensures Utf8(Reply("TEST001")) == REPLY_TEST001
  {
    var s := Reply("TEST001");
    assert |s| == 32;
    forall i | 0 <= i < |s|
      ensures s[i] as int < 0x80 && s[i] as int == REPLY_TEST001[i] as int
    {
    }
    Utf8Ascii(s);
  }

  /** With LF framing, the reply to TEST001 is the text "CMD=INITIALIZE_REP EQPID=TEST001" and one 0A. */
  lemma ReplyWithLf(st: SocketType, eqpId: string)
    requires st.kind == Some(LINE_END) && st.lineEnding == Some(LF) && eqpId == "TEST001"
    ensures EncodeUtf8(Some(st), Some(Reply(eqpId))) ==
      Ok([0x43, 0x4D, 0x44, 0x3D, 0x49, 0x4E, 0x49, 0x54, 0x49, 0x41, 0x4C, 0x49, 0x5A, 0x45, 0x5F, 0x52,
          0x45, 0x50, 0x20, 0x45, 0x51, 0x50, 0x49, 0x44, 0x3D, 0x54, 0x45, 0x53, 0x54, 0x30, 0x30, 0x31, 0x0A])
  {
    ReplyTest001Bytes();
    assert LineEndingFrameDecoder.Delimiter(LF) == [0x0A];
    LineEndEncoding(st, Reply(eqpId));
    assert REPLY_TEST001 + [0x0A] ==
      [0x43, 0x4D, 0x44, 0x3D, 0x49, 0x4E, 0x49, 0x54, 0x49, 0x41, 0x4C, 0x49, 0x5A, 0x45, 0x5F, 0x52,
       0x45, 0x50, 0x20, 0x45, 0x51, 0x50, 0x49, 0x44, 0x3D, 0x54, 0x45, 0x53, 0x54, 0x30, 0x30, 0x31, 0x0A];
  }
}
