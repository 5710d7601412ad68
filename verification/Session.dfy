/**
  One reverse session: many callers, one loop, and an agent that answers each frame once, in order
  (go/panel/reverse/session.go, go/agent/reverse.go).

  Every interleaving is a sequence of events; an event that is not possible in a state leaves it
  unchanged.  Frames carry their owner so that results can be compared with it, but no step of the
  panel ever looks at the owner: replies are matched by nothing but their order.
  */
module Session {
  import opened Wrappers

  type Caller = nat
  /** What a request asks, as text. */
  type Params = string

  /** A frame on the wire: whose request it carries (None for a status refresh) and the request. */
  datatype Frame = Frame(owner: Option<Caller>, params: Params)

  /** What the agent answers a frame with. */
  datatype Reply = Reply(frame: Frame, text: string)

  datatype Outcome = Answered(reply: Reply) | TimedOut | SessionClosed | ExchangeFailed

  /** A caller of Submit: offering its request to the loop, waiting on its result channel, or back. */
  datatype CallerState =
    | Offering(params: Params)
    | Waiting(params: Params)
    | Returned(params: Params, outcome: Outcome)

  /** The session goroutine. */
  datatype Phase =
    | Idle
    | Received(caller: Caller)
    | Writing(frame: Frame)
    | Reading(who: Option<Caller>)
    | Ended

  datatype State = State(
    callers: map<Caller, CallerState>,
    results: map<Caller, Outcome>,
    abandoned: set<Caller>,
    phase: Phase,
    closed: bool,
    toAgent: seq<Frame>,
    toPanel: seq<Reply>,
    settings: Option<Reply>,
    sent: seq<Frame>)

  datatype Event =
    | Submit(caller: Caller, params: Params)
    | Receive(caller: Caller)
    | CheckAbandoned
    | StartRefresh(params: Params)
    | WriteFrame(ok: bool)
    | AgentAnswers(text: string)
    | ReadReply(ok: bool)
    | TakeResult(caller: Caller)
    | Timeout(caller: Caller)
    | Close
    | SeeClosed(caller: Caller)
    | LoopStops

  const START := State(map[], map[], {}, Idle, false, [], [], None, [])

  /** The end of an exchange: the outcome goes to the waiting caller's channel, if there is one. */
  function Deliver(s: State, who: Option<Caller>, outcome: Outcome): State {
    if who.Some? then s.(results := s.results[who.value := outcome])
    else if outcome.Answered? then s.(settings := Some(outcome.reply))
    else s
  }

  function Apply(s: State, e: Event): State {
    match e
    case Submit(c, params) =>
      if c in s.callers then s else s.(callers := s.callers[c := Offering(params)])
    case Receive(c) =>
      // the channel is unbuffered: the request changes hands, and the caller starts waiting
      if s.phase != Idle || c !in s.callers || !s.callers[c].Offering? then s
      else s.(phase := Received(c), callers := s.callers[c := Waiting(s.callers[c].params)])
    case CheckAbandoned =>
      if !s.phase.Received? || s.phase.caller !in s.callers then s
      else if s.phase.caller in s.abandoned then s.(phase := Idle)
      else s.(phase := Writing(Frame(Some(s.phase.caller), s.callers[s.phase.caller].params)))
    case StartRefresh(params) =>
      if s.phase != Idle then s else s.(phase := Writing(Frame(None, params)))
    case WriteFrame(ok) =>
      if !s.phase.Writing? then s
      else if !ok then Deliver(s, s.phase.frame.owner, ExchangeFailed).(phase := Ended)
      else
        s.(phase := Reading(s.phase.frame.owner), toAgent := s.toAgent + [s.phase.frame], sent := s.sent + [s.phase.frame])
    case AgentAnswers(text) =>
      if s.toAgent == [] then s
      else s.(toAgent := s.toAgent[1..], toPanel := s.toPanel + [Reply(s.toAgent[0], text)])
    case ReadReply(ok) =>
      if !s.phase.Reading? || (ok && s.toPanel == []) then s
      else if !ok then Deliver(s, s.phase.who, ExchangeFailed).(phase := Ended)
      else Deliver(s, s.phase.who, Answered(s.toPanel[0])).(phase := Idle, toPanel := s.toPanel[1..])
    case TakeResult(c) =>
      if c !in s.callers || !s.callers[c].Waiting? || c !in s.results then s
      else s.(callers := s.callers[c := Returned(s.callers[c].params, s.results[c])])
    case Timeout(c) =>
      if c !in s.callers || s.callers[c].Returned? then s
      else
        s.(callers := s.callers[c := Returned(s.callers[c].params, TimedOut)],
           abandoned := if s.callers[c].Waiting? then s.abandoned + {c} else s.abandoned)
    case Close => s.(closed := true)
    case SeeClosed(c) =>
      // a caller that sees the session end still takes a result that is already there
      if !s.closed || c !in s.callers || s.callers[c].Returned? then s
      else
        var outcome := if s.callers[c].Waiting? && c in s.results then s.results[c] else SessionClosed;
        s.(callers := s.callers[c := Returned(s.callers[c].params, outcome)])
    case LoopStops =>
      if s.phase == Idle then s.(phase := Ended) else s
  }

  function Run(s: State, events: seq<Event>): State
    decreases |events|
  {
    if events == [] then s else Run(Apply(s, events[0]), events[1..])
  }

  // ------------------------------------------------------------------------------------------
  // The invariant
  // ------------------------------------------------------------------------------------------

  predicate OwnFrame(s: State, c: Caller, f: Frame) {
    c in s.callers && f == Frame(Some(c), s.callers[c].params)
  }

  /** The frames on their way to the agent and the replies on their way back. */
  function InFlight(s: State): (n: nat) {
    |s.toAgent| + |s.toPanel|
  }

  /** The frame belongs to the exchange that who started. */
  predicate Mine(s: State, who: Option<Caller>, f: Frame) {
    f.owner == who && (who.Some? ==> OwnFrame(s, who.value, f))
  }

  /** Exactly one frame is in flight while the loop waits for a reply, and it is the one it wrote;
      none is otherwise, until the session has ended. */
  predicate WireHolds(s: State) {
    if s.phase.Reading? then
      && InFlight(s) == 1
      && (s.toAgent != [] ==> Mine(s, s.phase.who, s.toAgent[0]))
      && (s.toPanel != [] ==> Mine(s, s.phase.who, s.toPanel[0].frame))
    else if s.phase.Ended? then InFlight(s) <= 1
    else InFlight(s) == 0
  }

  predicate PhaseHolds(s: State) {
    && (s.phase.Received? ==> s.phase.caller in s.callers && !s.callers[s.phase.caller].Offering?)
    && (s.phase.Writing? ==> Mine(s, s.phase.frame.owner, s.phase.frame))
    && (s.phase.Writing? && s.phase.frame.owner.Some? ==> !s.callers[s.phase.frame.owner.value].Offering?)
  }

  ghost predicate OutcomesHold(s: State) {
    && (forall c :: c in s.results && s.results[c].Answered? ==> OwnFrame(s, c, s.results[c].reply.frame))
    && (forall c :: c in s.callers && s.callers[c].Returned? && s.callers[c].outcome.Answered? ==>
          OwnFrame(s, c, s.callers[c].outcome.reply.frame))
    && (s.settings.Some? ==> s.settings.value.frame.owner == None)
  }

  predicate SentOwner(s: State, i: int) {
    0 <= i < |s.sent| && s.sent[i].owner.Some?
  }

  /** No caller's request goes out twice. */
  ghost predicate SentHolds(s: State) {
    && (forall i :: SentOwner(s, i) ==> OwnFrame(s, s.sent[i].owner.value, s.sent[i]) && !s.callers[s.sent[i].owner.value].Offering?)
    && (forall i, j :: i < j && SentOwner(s, i) && SentOwner(s, j) ==> s.sent[i].owner != s.sent[j].owner)
    && (s.phase.Received? ==> forall i :: SentOwner(s, i) ==> s.sent[i].owner.value != s.phase.caller)
    && (s.phase.Writing? && s.phase.frame.owner.Some? ==> forall i :: SentOwner(s, i) ==> s.sent[i].owner != s.phase.frame.owner)
  }

  ghost predicate Holds(s: State) {
    WireHolds(s) && PhaseHolds(s) && OutcomesHold(s) && SentHolds(s)
  }

  // ------------------------------------------------------------------------------------------
  // Every event keeps it
  // ------------------------------------------------------------------------------------------

  lemma StartHolds()
    ensures Holds(START)
  {}

  /** Callers only ever move forward, and keep their request. */
  lemma CallersKept(s: State, e: Event)
    ensures forall c :: c in s.callers ==>
              && c in Apply(s, e).callers
              && Apply(s, e).callers[c].params == s.callers[c].params
              && (!s.callers[c].Offering? ==> !Apply(s, e).callers[c].Offering?)
  {}

  lemma MineKept(s: State, e: Event, who: Option<Caller>, f: Frame)
    requires Mine(s, who, f)
    ensures Mine(Apply(s, e), who, f)
  {
    hide Apply;
    CallersKept(s, e);
  }

  lemma WireKept(s: State, e: Event)
    requires WireHolds(s) && PhaseHolds(s)
    ensures WireHolds(Apply(s, e))
  {
    hide Mine;
    forall who, f | Mine(s, who, f) ensures Mine(Apply(s, e), who, f) { MineKept(s, e, who, f); }
  }

  lemma PhaseKept(s: State, e: Event)
    requires PhaseHolds(s)
    ensures PhaseHolds(Apply(s, e))
  {
    CallersKept(s, e);
  }

  /** Where the outcomes after an event come from. */
  lemma OutcomeSources(s: State, e: Event)
    ensures var t := Apply(s, e);
            && (forall c :: c in t.results && t.results[c].Answered? ==>
                  || (c in s.results && t.results[c] == s.results[c])
                  || (s.phase == Reading(Some(c)) && s.toPanel != [] && t.results[c] == Answered(s.toPanel[0])))
            && (t.settings == s.settings
                || (s.phase == Reading(None) && s.toPanel != [] && t.settings == Some(s.toPanel[0])))
  {}

  lemma ReturnSources(s: State, e: Event)
    ensures var t := Apply(s, e);
            forall c :: c in t.callers && t.callers[c].Returned? && t.callers[c].outcome.Answered? ==>
              && c in s.callers
              && (s.callers[c] == t.callers[c] || (c in s.results && t.callers[c].outcome == s.results[c]))
  {}

  lemma OutcomesKept(s: State, e: Event)
    requires WireHolds(s) && OutcomesHold(s)
    ensures OutcomesHold(Apply(s, e))
  {
    hide Apply;
    CallersKept(s, e);
    OutcomeSources(s, e);
    ReturnSources(s, e);
  }

  /** Only the frame being written is sent; the loop takes only a request still on offer, and writes
      only the request it took. */
  lemma SentSources(s: State, e: Event)
    ensures var t := Apply(s, e);
            && (t.sent == s.sent || (s.phase.Writing? && t.sent == s.sent + [s.phase.frame] && t.phase.Reading?))
            && (t.phase.Received? && t.phase != s.phase ==>
                  t.phase.caller in s.callers && s.callers[t.phase.caller].Offering?)
            && (t.phase.Writing? && t.phase != s.phase && t.phase.frame.owner.Some? ==>
                  s.phase == Received(t.phase.frame.owner.value))
            && (!t.phase.Reading? ==> t.sent == s.sent)
  {}

  lemma SentKept(s: State, e: Event)
    requires PhaseHolds(s) && SentHolds(s)
    ensures SentHolds(Apply(s, e))
  {
    hide Apply;
    CallersKept(s, e);
    SentSources(s, e);
    var t := Apply(s, e);
    assert forall i :: 0 <= i < |s.sent| ==> SentOwner(t, i) == SentOwner(s, i) && t.sent[i] == s.sent[i];
  }

  lemma {:induction false} RunHolds(s: State, events: seq<Event>)
    requires Holds(s)
    ensures Holds(Run(s, events))
    decreases |events|
  {
    hide WireHolds, PhaseHolds, OutcomesHold, SentHolds, Apply;
    if events != [] {
      WireKept(s, events[0]);
      PhaseKept(s, events[0]);
      OutcomesKept(s, events[0]);
      SentKept(s, events[0]);
      RunHolds(Apply(s, events[0]), events[1..]);
    }
  }

  // ------------------------------------------------------------------------------------------
  // Main results
  // ------------------------------------------------------------------------------------------

  /** In every interleaving a caller that gets a reply gets the agent's reply to its own request, and
      status only ever comes from a refresh, although nothing matches replies to requests. */
  lemma RepliesReachTheirCallers(events: seq<Event>, c: Caller)
    ensures var s := Run(START, events);
            && (c in s.callers && s.callers[c].Returned? && s.callers[c].outcome.Answered? ==>
                  s.callers[c].outcome.reply.frame == Frame(Some(c), s.callers[c].params))
            && (s.settings.Some? ==> s.settings.value.frame.owner == None)
  {
    hide WireHolds, PhaseHolds, SentHolds, Run;
    StartHolds();
    RunHolds(START, events);
  }

  /** At most one frame is ever in flight, and none at all between exchanges. */
  lemma OneInFlight(events: seq<Event>)
    ensures var s := Run(START, events);
            InFlight(s) <= 1 && (!s.phase.Reading? && !s.phase.Ended? ==> InFlight(s) == 0)
  {
    hide PhaseHolds, OutcomesHold, SentHolds, Run;
    StartHolds();
    RunHolds(START, events);
  }

  /** No request is sent twice. */
  lemma SentAtMostOnce(events: seq<Event>, i: nat, j: nat)
    ensures var s := Run(START, events);
            i < j < |s.sent| && s.sent[i].owner.Some? ==> s.sent[i].owner != s.sent[j].owner
  {
    hide WireHolds, PhaseHolds, OutcomesHold, Run;
    StartHolds();
    RunHolds(START, events);
    var s := Run(START, events);
    assert i < |s.sent| && s.sent[i].owner.Some? ==> SentOwner(s, i);
    assert j < |s.sent| && s.sent[j].owner.Some? ==> SentOwner(s, j);
  }

  ghost predicate Sent(s: State, c: Caller) {
    exists i :: 0 <= i < |s.sent| && s.sent[i].owner == Some(c)
  }

  /** Nothing of caller c has been written, and nothing of it is about to be. */
  ghost predicate Unwritten(s: State, c: Caller) {
    !Sent(s, c) && !(s.phase.Writing? && s.phase.frame.owner == Some(c))
  }

  /** A caller that has gone, and whose request the loop will not write. */
  ghost predicate Dropped(s: State, c: Caller) {
    Unwritten(s, c) && c in s.callers && s.callers[c].Returned? && (s.phase == Received(c) ==> c in s.abandoned)
  }

  lemma AbandonedStays(s: State, e: Event, c: Caller)
    requires c in s.callers && s.callers[c].Returned?
    ensures var t := Apply(s, e);
            && c in t.callers && t.callers[c].Returned?
            && (c in s.abandoned ==> c in t.abandoned && !(s.phase == Received(c) && t.phase.Writing?))
  {}

  lemma DroppedStays(s: State, e: Event, c: Caller)
    requires Dropped(s, c)
    ensures Dropped(Apply(s, e), c)
  {
    hide Apply;
    AbandonedStays(s, e, c);
    SentSources(s, e);
    var t := Apply(s, e);
    assert forall i :: 0 <= i < |t.sent| ==> t.sent[i] in s.sent || t.sent[i].owner != Some(c);
  }

  lemma {:induction false} DroppedForever(s: State, events: seq<Event>, c: Caller)
    requires Dropped(s, c)
    ensures Dropped(Run(s, events), c)
    decreases |events|
  {
    hide Dropped, Apply;
    if events != [] {
      DroppedStays(s, events[0], c);
      DroppedForever(Apply(s, events[0]), events[1..], c);
    }
  }

  /** A request whose caller gives up before the loop starts to write it is never sent, whatever happens
      afterwards: not when the loop had not taken it yet, and not when the loop already held it. */
  lemma AbandonedIsNeverSent(before: seq<Event>, c: Caller, after: seq<Event>)
    requires var s := Run(START, before);
             c in s.callers && !s.callers[c].Returned? && Unwritten(s, c)
    ensures !Sent(Run(Apply(Run(START, before), Timeout(c)), after), c)
  {
    hide WireHolds, OutcomesHold, SentHolds, Run;
    StartHolds();
    RunHolds(START, before);
    var s := Run(START, before);
    assert Dropped(Apply(s, Timeout(c)), c);
    DroppedForever(Apply(s, Timeout(c)), after, c);
  }

  // ------------------------------------------------------------------------------------------
  // Nobody is forgotten
  // ------------------------------------------------------------------------------------------

  /** The loop is busy with the request of c. */
  predicate Serves(s: State, c: Caller) {
    s.phase == Received(c) || (s.phase.Writing? && s.phase.frame.owner == Some(c)) || s.phase == Reading(Some(c))
  }

  predicate HasComing(s: State, c: Caller) {
    c in s.callers && s.callers[c].Waiting? ==> c in s.results || Serves(s, c)
  }

  predicate Gone(s: State, c: Caller) {
    c in s.callers && s.callers[c].Returned?
  }

  /** Whoever waits has a result coming: it is there already, or the loop is busy with that very request,
      which it drops only for those who have gone. */
  ghost predicate WaitersHold(s: State) {
    (forall c :: HasComing(s, c)) && (forall c :: c in s.abandoned ==> Gone(s, c))
  }

  lemma WaiterKept(s: State, e: Event, c: Caller)
    requires HasComing(s, c) && (c in s.abandoned ==> Gone(s, c))
    ensures HasComing(Apply(s, e), c) && (c in Apply(s, e).abandoned ==> Gone(Apply(s, e), c))
  {}

  lemma WaitersKept(s: State, e: Event)
    requires WaitersHold(s)
    ensures WaitersHold(Apply(s, e))
  {
    hide Apply, HasComing, Gone;
    forall c ensures HasComing(Apply(s, e), c) && (c in Apply(s, e).abandoned ==> Gone(Apply(s, e), c)) {
      WaiterKept(s, e, c);
    }
  }

  lemma {:induction false} WaitersRun(s: State, events: seq<Event>)
    requires WaitersHold(s)
    ensures WaitersHold(Run(s, events))
    decreases |events|
  {
    hide Apply, WaitersHold;
    if events != [] {
      WaitersKept(s, events[0]);
      WaitersRun(Apply(s, events[0]), events[1..]);
    }
  }

  /** In every interleaving a caller that waits has its result, or is the one being served; so between
      exchanges and after the session has ended nobody waits for nothing. */
  lemma NobodyIsForgotten(events: seq<Event>, c: Caller)
    ensures var s := Run(START, events);
            c in s.callers && s.callers[c].Waiting? ==> c in s.results || Serves(s, c)
    ensures var s := Run(START, events);
            c in s.callers && s.callers[c].Waiting? && (s.phase.Idle? || s.phase.Ended?) ==> c in s.results
  {
    hide Run;
    WaitersRun(START, events);
    assert HasComing(Run(START, events), c);
  }

  /** And whenever the loop is between exchanges it can serve any request on offer: if the agent answers and
      nothing fails, the caller gets that answer. */
  lemma CanServe(events: seq<Event>, c: Caller, text: string)
    requires var s := Run(START, events);
             s.phase.Idle? && c in s.callers && s.callers[c].Offering?
    ensures var s := Run(START, events);
            var t := Run(s, [Receive(c), CheckAbandoned, WriteFrame(true), AgentAnswers(text), ReadReply(true), TakeResult(c)]);
            var own := Frame(Some(c), s.callers[c].params);
            && t.phase.Idle? && t.sent == s.sent + [own]
            && c in t.callers && t.callers[c] == Returned(s.callers[c].params, Answered(Reply(own, text)))
  {
    hide PhaseHolds, OutcomesHold, SentHolds, Run, Apply;
    StartHolds();
    RunHolds(START, events);
    WaitersRun(START, events);
    var s := Run(START, events);
    var own := Frame(Some(c), s.callers[c].params);
    Taken(s, c);
    var taken := s.(phase := Writing(own), callers := s.callers[c := Waiting(own.params)]);
    Exchanged(taken, own, text);
    RunSix(s, Receive(c), CheckAbandoned, WriteFrame(true), AgentAnswers(text), ReadReply(true), TakeResult(c));
  }

  lemma Taken(s: State, c: Caller)
    requires s.phase.Idle? && c in s.callers && s.callers[c].Offering? && c !in s.abandoned
    ensures Apply(Apply(s, Receive(c)), CheckAbandoned)
         == s.(phase := Writing(Frame(Some(c), s.callers[c].params)), callers := s.callers[c := Waiting(s.callers[c].params)])
  {}

  lemma Exchanged(s: State, own: Frame, text: string)
    requires s.phase == Writing(own) && own.owner.Some? && s.toAgent == [] && s.toPanel == []
    requires own.owner.value in s.callers && s.callers[own.owner.value] == Waiting(own.params)
    ensures var c := own.owner.value;
            var t := Apply(Apply(Apply(Apply(s, WriteFrame(true)), AgentAnswers(text)), ReadReply(true)), TakeResult(c));
            && t.phase.Idle? && t.sent == s.sent + [own]
            && c in t.callers && t.callers[c] == Returned(own.params, Answered(Reply(own, text)))
  {
    hide Apply;
    var c := own.owner.value;
    var written := s.(phase := Reading(own.owner), toAgent := [own], sent := s.sent + [own]);
    Written(s, own);
    var answered := written.(toAgent := [], toPanel := [Reply(own, text)]);
    AgentReplies(written, own, text);
    var read := answered.(phase := Idle, toPanel := [], results := s.results[c := Answered(Reply(own, text))]);
    ReplyRead(answered, c, Reply(own, text));
    ResultTaken(read, c);
  }

  lemma Written(s: State, own: Frame)
    requires s.phase == Writing(own) && s.toAgent == []
    ensures Apply(s, WriteFrame(true)) == s.(phase := Reading(own.owner), toAgent := [own], sent := s.sent + [own])
  {}

  lemma AgentReplies(s: State, own: Frame, text: string)
    requires s.toAgent == [own] && s.toPanel == []
    ensures Apply(s, AgentAnswers(text)) == s.(toAgent := [], toPanel := [Reply(own, text)])
  {}

  lemma ReplyRead(s: State, c: Caller, r: Reply)
    requires s.phase == Reading(Some(c)) && s.toPanel == [r]
    ensures Apply(s, ReadReply(true)) == s.(phase := Idle, toPanel := [], results := s.results[c := Answered(r)])
  {}

  lemma ResultTaken(s: State, c: Caller)
    requires c in s.callers && s.callers[c].Waiting? && c in s.results
    ensures Apply(s, TakeResult(c)) == s.(callers := s.callers[c := Returned(s.callers[c].params, s.results[c])])
  {}

  lemma RunSix(s: State, a: Event, b: Event, c: Event, d: Event, e: Event, f: Event)
    ensures Run(s, [a, b, c, d, e, f]) == Apply(Apply(Apply(Apply(Apply(Apply(s, a), b), c), d), e), f)
  {
    hide Apply;
    RunOne(s, a, [b, c, d, e, f]);
    RunOne(Apply(s, a), b, [c, d, e, f]);
    RunOne(Apply(Apply(s, a), b), c, [d, e, f]);
    RunOne(Apply(Apply(Apply(s, a), b), c), d, [e, f]);
    RunOne(Apply(Apply(Apply(Apply(s, a), b), c), d), e, [f]);
    RunOne(Apply(Apply(Apply(Apply(Apply(s, a), b), c), d), e), f, []);
    assert [a] + [b, c, d, e, f] == [a, b, c, d, e, f];
    assert [b] + [c, d, e, f] == [b, c, d, e, f] && [c] + [d, e, f] == [c, d, e, f];
    assert [d] + [e, f] == [d, e, f] && [e] + [f] == [e, f] && [f] + [] == [f];
  }

  lemma RunOne(s: State, e: Event, rest: seq<Event>)
    ensures Run(s, [e] + rest) == Run(Apply(s, e), rest)
  {
    assert ([e] + rest)[1..] == rest;
  }

  // ------------------------------------------------------------------------------------------
  // What a failure means
  // ------------------------------------------------------------------------------------------

  predicate FailureHolds(s: State, c: Caller) {
    && (c in s.results && s.results[c].ExchangeFailed? ==> s.phase.Ended?)
    && (c in s.results ==> s.results[c].Answered? || s.results[c].ExchangeFailed?)
    && (c in s.callers && s.callers[c].Returned? && s.callers[c].outcome.ExchangeFailed? ==> s.phase.Ended?)
    && (c in s.callers && s.callers[c].Returned? && s.callers[c].outcome.SessionClosed? ==> s.closed)
  }

  lemma FailureKept(s: State, e: Event, c: Caller)
    requires FailureHolds(s, c)
    ensures FailureHolds(Apply(s, e), c)
  {}

  lemma {:induction false} FailureRun(s: State, events: seq<Event>, c: Caller)
    requires FailureHolds(s, c)
    ensures FailureHolds(Run(s, events), c)
    decreases |events|
  {
    hide Apply, FailureHolds;
    if events != [] {
      FailureKept(s, events[0], c);
      FailureRun(Apply(s, events[0]), events[1..], c);
    }
  }

  /** In every interleaving a caller is told that the exchange failed only if that ended the loop, and that
      the session is closed only if it is; and one that sees it closed still takes an answer that has come,
      which is then the answer to its own request. */
  lemma FailuresAreReal(events: seq<Event>, c: Caller)
    ensures var s := Run(START, events);
            c in s.callers && s.callers[c].Returned? ==>
              && (s.callers[c].outcome.ExchangeFailed? ==> s.phase.Ended?)
              && (s.callers[c].outcome.SessionClosed? ==> s.closed)
    ensures var s := Run(START, events);
            c in s.callers && s.callers[c].Waiting? && c in s.results && s.results[c].Answered? && s.closed ==>
              && Apply(s, SeeClosed(c)).callers[c] == Returned(s.callers[c].params, s.results[c])
              && s.results[c].reply.frame == Frame(Some(c), s.callers[c].params)
  {
    hide WireHolds, PhaseHolds, SentHolds, Run;
    FailureRun(START, events, c);
    StartHolds();
    RunHolds(START, events);
  }
}
