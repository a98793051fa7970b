/** The usage reports of TrackMgr (trackmgr.cpp): messages are posted one by one from the front of
    a queue, and every reply, good or bad, arms a one-second timer for the next attempt.  Unlike
    the balance queue, a submission sends at once, so several timers may be pending. */
module TrackQueue {
  import opened Wrappers

  datatype TrackData = TrackData(kind: string, uid: string, mac: string, platform: string)

  /** `reply` is the message of the post TrackMgr waits for, `outstanding` the posts the network has
      not answered, oldest first; `submitted`, `acknowledged` and `posts` are history. */
  datatype State = State(
    queue: seq<TrackData>,
    sending: bool,
    reply: Option<TrackData>,
    outstanding: seq<TrackData>,
    timers: nat,
    submitted: seq<TrackData>,
    acknowledged: seq<TrackData>)

  /** A failed post emits `error` and then `finished`. */
  datatype Event = Submit(message: TrackData) | PostFinished | PostFailed | TimerFired

  predicate Enabled(s: State, e: Event) {
    match e
    case Submit(_) => true
    case TimerFired => s.timers > 0
    case _ => s.outstanding != []
  }

  /** sendTrackDataToServer. */
  function Send(s: State): State {
    if s.sending || s.queue == [] then s
    else s.(reply := Some(s.queue[0]), outstanding := s.outstanding + [s.queue[0]], sending := true)
  }

  /** requestTrackFinished. */
  function Finish(s: State): State {
    if s.reply.None? || s.queue == [] then s
    else s.(queue := s.queue[1..], acknowledged := s.acknowledged + [s.reply.value],
            reply := None, sending := false, timers := s.timers + 1)
  }

  /** requestTrackError. */
  function Fail(s: State): State {
    s.(reply := None, sending := false, timers := s.timers + 1)
  }

  function Step(s: State, e: Event): State
    requires Enabled(s, e)
  {
    match e
    case Submit(message) => Send(s.(queue := s.queue + [message], submitted := s.submitted + [message]))
    case PostFinished => Finish(s.(outstanding := s.outstanding[1..]))
    case PostFailed => Fail(s.(outstanding := s.outstanding[1..]))
    case TimerFired => Send(s.(timers := s.timers - 1))
  }

  function Initial(): State { State([], false, None, [], 0, [], []) }

  // ---------- the code ----------

  class Reply {
    const posted: TrackData

    constructor (posted: TrackData)
      ensures this.posted == posted
    {
      this.posted := posted;
    }
  }

  class TrackMgr {
    const uid: string
    const macAddr: string
    const platform: string
    var trackMsgVec: seq<TrackData>
    var isSendingTrackData: bool
    var netReplyTrack: Reply?
    var singleShotTimers: nat
    ghost var outstanding: seq<TrackData>
    ghost var submitted: seq<TrackData>
    ghost var acknowledged: seq<TrackData>

    ghost function Now(): State
      reads this
    {
      State(trackMsgVec, isSendingTrackData, if netReplyTrack == null then None else Some(netReplyTrack.posted),
            outstanding, singleShotTimers, submitted, acknowledged)
    }

    constructor (uid: string, macAddr: string, platform: string)
      ensures Now() == Initial()
      ensures this.uid == uid && this.macAddr == macAddr && this.platform == platform
    {
      this.uid, this.macAddr, this.platform := uid, macAddr, platform;
      trackMsgVec, isSendingTrackData, netReplyTrack, singleShotTimers := [], false, null, 0;
      outstanding, submitted, acknowledged := [], [], [];
    }

    method SendTrackDataToServer()
      modifies this
      ensures Now() == Send(old(Now()))
    {
      if isSendingTrackData || |trackMsgVec| == 0 {
        return;
      }
      var tData := trackMsgVec[0];
      netReplyTrack := new Reply(tData);
      outstanding := outstanding + [tData];
      isSendingTrackData := true;
    }

    /** sendTrackData, called by login and by every heartbeat with their kinds; it completes the message. */
    method SendTrackData(kind: string)
      modifies this
      ensures Now() == Step(old(Now()), Submit(TrackData(kind, uid, macAddr, platform)))
    {
      var tData := TrackData(kind, uid, macAddr, platform);
      trackMsgVec := trackMsgVec + [tData];
      submitted := submitted + [tData];
      SendTrackDataToServer();
    }

    method RequestTrackFinished()
      requires netReplyTrack != null ==> trackMsgVec != []
      modifies this
      ensures Now() == Finish(old(Now()))
    {
      if netReplyTrack == null {
        return;
      }
      trackMsgVec := trackMsgVec[1..];
      acknowledged := acknowledged + [netReplyTrack.posted];
      netReplyTrack := null;
      isSendingTrackData := false;
      singleShotTimers := singleShotTimers + 1;
    }

    /** The slot uses the reply without a check, so there must be one. */
    method RequestTrackError()
      requires netReplyTrack != null
      modifies this
      ensures netReplyTrack == null && Now() == Fail(old(Now()))
    {
      netReplyTrack := null;
      isSendingTrackData := false;
      singleShotTimers := singleShotTimers + 1;
    }

    method DeliverAnswer()
      requires outstanding != [] && (netReplyTrack != null ==> trackMsgVec != [])
      modifies this
      ensures Now() == Step(old(Now()), PostFinished)
    {
      outstanding := outstanding[1..];
      RequestTrackFinished();
    }

    /** `error`, then `finished`, which finds no reply any more. */
    method DeliverFailure()
      requires outstanding != [] && netReplyTrack != null
      modifies this
      ensures Now() == Step(old(Now()), PostFailed)
    {
      outstanding := outstanding[1..];
      RequestTrackError();
      RequestTrackFinished();
    }

    /** A single-shot timer fires and is used up. */
    method FireTimer()
      requires singleShotTimers > 0
      modifies this
      ensures Now() == Step(old(Now()), TimerFired)
    {
      singleShotTimers := singleShotTimers - 1;
      SendTrackDataToServer();
    }
  }

  // ---------- every run ----------

  predicate Possible(s: State, es: seq<Event>)
    decreases |es|
  {
    es == [] || (Enabled(s, es[0]) && Possible(Step(s, es[0]), es[1..]))
  }

  function Run(s: State, es: seq<Event>): State
    requires Possible(s, es)
    decreases |es|
  {
    if es == [] then s else Run(Step(s, es[0]), es[1..])
  }

  /** At most one message is on the network, and it is the head of the queue; acknowledged messages
      followed by the queue are the messages submitted, in order; and while messages wait, a post is
      under way or a timer is pending. */
  ghost predicate Inv(s: State) {
    && (s.sending <==> s.reply.Some?)
    && s.outstanding == (if s.reply.Some? then [s.reply.value] else [])
    && (s.reply.Some? ==> s.queue != [] && s.queue[0] == s.reply.value)
    && s.acknowledged + s.queue == s.submitted
    && (s.queue != [] ==> s.sending || s.timers > 0)
  }

  lemma StepKeepsInv(s: State, e: Event)
    requires Inv(s) && Enabled(s, e)
    ensures Inv(Step(s, e))
  {
    match e
    case Submit(message) =>
      assert s.acknowledged + (s.queue + [message]) == (s.acknowledged + s.queue) + [message];
    case PostFinished =>
      assert (s.acknowledged + [s.queue[0]]) + s.queue[1..] == s.acknowledged + s.queue;
    case PostFailed =>
    case TimerFired =>
  }

  lemma {:induction false} RunFromKeepsInv(s: State, es: seq<Event>)
    requires Inv(s) && Possible(s, es)
    ensures Inv(Run(s, es))
    decreases |es|
  {
    if es != [] {
      StepKeepsInv(s, es[0]);
      RunFromKeepsInv(Step(s, es[0]), es[1..]);
    }
  }

  lemma EveryRun(es: seq<Event>)
    requires Possible(Initial(), es)
    ensures Inv(Run(Initial(), es))
  {
    RunFromKeepsInv(Initial(), es);
  }

  /** What each event does to the whole state: a submission is queued whether a post is under way
      or not, a good reply acknowledges the head, every reply arms a timer, and an idle manager
      posts the head whenever a message comes in or a timer fires. */
  lemma StepIs(s: State, e: Event)
    requires Inv(s) && Enabled(s, e)
    ensures var queued := match e
                          case Submit(m) => s.(queue := s.queue + [m], submitted := s.submitted + [m])
                          case TimerFired => s.(timers := s.timers - 1)
                          case _ => s;
            var idle := s.(reply := None, outstanding := [], sending := false, timers := s.timers + 1);
            Step(s, e) ==
            if e.PostFinished? then idle.(queue := s.queue[1..], acknowledged := s.acknowledged + [s.queue[0]])
            else if e.PostFailed? then idle
            else if s.sending || queued.queue == [] then queued
            else queued.(sending := true, reply := Some(queued.queue[0]), outstanding := [queued.queue[0]])
  {
  }

  /** The messages submitted by an event, and in a run. */
  function Message(e: Event): seq<TrackData> { if e.Submit? then [e.message] else [] }

  function Messages(es: seq<Event>): seq<TrackData> {
    if es == [] then [] else Message(es[0]) + Messages(es[1..])
  }

  lemma StepSubmits(s: State, e: Event)
    requires Inv(s) && Enabled(s, e)
    ensures Step(s, e).submitted == s.submitted + Message(e)
  {
    hide Inv, Step;
    StepIs(s, e);
    assert s.submitted + [] == s.submitted;
  }

  lemma {:induction false} RunSubmits(s: State, es: seq<Event>)
    requires Inv(s) && Possible(s, es)
    ensures Run(s, es).submitted == s.submitted + Messages(es)
    decreases |es|
  {
    hide Step, Enabled, Inv, Message;
    if es == [] {
      assert s.submitted + [] == s.submitted;
    } else {
      StepSubmits(s, es[0]);
      StepKeepsInv(s, es[0]);
      RunSubmits(Step(s, es[0]), es[1..]);
      Regroup(s.submitted, Message(es[0]), Messages(es[1..]));
    }
  }

  lemma Regroup(a: seq<TrackData>, b: seq<TrackData>, c: seq<TrackData>)
    ensures (a + b) + c == a + (b + c)
  {
  }

  /** In every run the messages acknowledged, followed by the queue, are the messages its events
      submitted, in order. */
  lemma EveryMessageKept(es: seq<Event>)
    requires Possible(Initial(), es)
    ensures var t := Run(Initial(), es); t.acknowledged + t.queue == Messages(es)
  {
    hide Possible, Run, Messages;
    EveryRun(es);
    RunSubmits(Initial(), es);
    assert [] + Messages(es) == Messages(es);
  }

  /** Only a good reply takes a message off the queue, and it takes the one that was posted. */
  lemma OnlySuccessRemoves(s: State, e: Event)
    requires Inv(s) && Enabled(s, e)
    ensures var t := Step(s, e);
            && (e.PostFinished? ==> t.acknowledged == s.acknowledged + [s.outstanding[0]] && t.queue == s.queue[1..])
            && (!e.PostFinished? ==> t.acknowledged == s.acknowledged && s.queue <= t.queue)
  {
  }

  /** From any reachable state the waiting messages all get through: fire a timer if nothing is
      under way, answer the post, and so on. */
  function DrainingRun(s: State): (es: seq<Event>)
    requires Inv(s)
    decreases |s.queue|, if s.sending then 0 else 1
  {
    if s.queue == [] then []
    else
      var e := if s.sending then PostFinished else TimerFired;
      StepKeepsInv(s, e);
      [e] + DrainingRun(Step(s, e))
  }

  lemma {:induction false} NeverStuck(s: State)
    requires Inv(s)
    ensures var es := DrainingRun(s);
            && Possible(s, es) && |es| == (if s.queue == [] then 0 else 2 * |s.queue| - if s.sending then 1 else 0)
            && Run(s, es).queue == [] && Run(s, es).acknowledged == s.submitted
    decreases |s.queue|, if s.sending then 0 else 1
  {
    if s.queue == [] {
      assert s.acknowledged + [] == s.acknowledged;
    } else {
      var e := if s.sending then PostFinished else TimerFired;
      StepKeepsInv(s, e);
      NeverStuck(Step(s, e));
      assert ([e] + DrainingRun(Step(s, e)))[1..] == DrainingRun(Step(s, e));
    }
  }
}
