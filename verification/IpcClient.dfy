/** Correlated calls to a sidecar: calls register a promise under a fresh correlation id, replies
    arrive on another thread, and each call ends by reply, send failure or timeout. A method below
    is one section that is atomic in the program; any interleaving of them is a schedule. */
module IpcClientModule {
  import opened Common

  /** The correlation counter is a 64-bit unsigned integer. */
  const ID_LIMIT: nat := 0x1_0000_0000_0000_0000

  datatype Kind = StatusReport | PluginAnnounce | HeartbeatAck | ToolResponse | PreprocessResponse | Other

  /** A parsed message; the correlation key has a legacy spelling. */
  datatype Envelope = Envelope(kind: Kind, cid: Option<nat>, correlationId: Option<nat>, error: int, payload: string)
  {
    function Key(): nat {
      match (cid, correlationId)
      case (Some(c), _) => c
      case (None, Some(c)) => c
      case (None, None) => 0
    }
  }

  datatype Raw = Garbage | Json(msg: Envelope)

  /** A call returns by send failure, timeout or reply; it throws when its id is taken, or when its
      promise has been destroyed unset. */
  datatype Outcome = SendFailed | TimedOut | Replied(msg: Envelope) | Threw

  /** The state a call's future shares with its promise. */
  datatype Promise = Unset | Set(msg: Envelope) | Broken

  /** Where a call is between two atomic sections. */
  datatype Phase =
    | Numbered                       // has its id, not yet registered
    | Sending                        // registered
    | SendRefused                    // send returned false, entry not yet erased
    | Waiting
    | Expired                        // wait_for gave up, entry not yet erased
    | Returned(outcome: Outcome)

  predicate Open(p: Phase) {
    p.Sending? || p.SendRefused? || p.Waiting? || p.Expired?
  }

  /** next_id: the counter starts at 1 and wraps round. */
  function IdOf(call: nat): nat {
    (call + 1) % ID_LIMIT
  }

  /** Two calls share an id only when the counter has come round between them. */
  lemma SharedId(c: nat, d: nat)
    ensures IdOf(c) == IdOf(d) && c != d ==> c >= ID_LIMIT || d >= ID_LIMIT
  {
  }

  /** Which messages reach the pending map, and for which id. */
  predicate Answers(statusCallback: bool, raw: Raw, id: nat) {
    && raw.Json? && raw.msg.Key() == id
    && raw.msg.kind != PluginAnnounce
    && !(raw.msg.kind == StatusReport && statusCallback)
  }

  /** The id of a message, by its fields: the legacy spelling counts when the other is missing, and
      without either the id is 0. */
  ghost predicate Carries(msg: Envelope, id: nat) {
    || msg.cid == Some(id)
    || (msg.cid == None && msg.correlationId == Some(id))
    || (msg.cid == None && msg.correlationId == None && id == 0)
  }

  /** A reply, by its kind: an acknowledgement or a response always, a status report without a callback. */
  ghost predicate Replies(statusCallback: bool, msg: Envelope) {
    match msg.kind
    case HeartbeatAck | ToolResponse | PreprocessResponse | Other => true
    case StatusReport => !statusCallback
    case PluginAnnounce => false
  }

  /** Those are the messages that reach the pending map. */
  lemma AnswersMeans(cb: bool, raw: Raw, id: nat)
    ensures Answers(cb, raw, id) <==> raw.Json? && Carries(raw.msg, id) && Replies(cb, raw.msg)
  {
  }

  /** The reply a call with this id ought to get out of the messages `raws`. */
  function FirstReply(statusCallback: bool, raws: seq<Raw>, id: nat): (m: Option<Envelope>)
    ensures m.Some? ==> m.value.Key() == id
  {
    if raws == [] then None
    else
      var before := FirstReply(statusCallback, raws[..|raws| - 1], id);
      var last := raws[|raws| - 1];
      if before.None? && Answers(statusCallback, last, id) then Some(last.msg) else before
  }

  /** It is the message at the earliest place that answers. */
  lemma {:induction false} FirstReplyIsEarliest(cb: bool, raws: seq<Raw>, id: nat, m: Envelope)
    ensures FirstReply(cb, raws, id) == Some(m) <==>
      exists k :: 0 <= k < |raws| && raws[k] == Json(m) && Answers(cb, raws[k], id)
               && forall j :: 0 <= j < k ==> !Answers(cb, raws[j], id)
    ensures FirstReply(cb, raws, id) == None <==> forall j :: 0 <= j < |raws| ==> !Answers(cb, raws[j], id)
  {
    if raws != [] {
      var front, last := raws[..|raws| - 1], |raws| - 1;
      FirstReplyIsEarliest(cb, front, id, m);
      if FirstReply(cb, front, id).None? {
        assert forall j :: 0 <= j < last ==> raws[j] == front[j];
      } else {
        var before := FirstReply(cb, front, id).value;
        FirstReplyIsEarliest(cb, front, id, before);
        var k :| 0 <= k < |front| && front[k] == Json(before) && Answers(cb, front[k], id)
               && forall j :: 0 <= j < k ==> !Answers(cb, front[j], id);
        assert raws[k] == front[k] && forall j :: 0 <= j < k ==> raws[j] == front[j];
      }
    }
  }

  /** The first reply among the messages from..to, on their fields. */
  lemma ReplyMeans(cb: bool, raws: seq<Raw>, from: nat, to: nat, id: nat, m: Envelope)
    requires from <= to <= |raws|
    ensures FirstReply(cb, raws[from..to], id) == Some(m) ==>
      exists k :: from <= k < to && raws[k] == Json(m) && Carries(raws[k].msg, id) && Replies(cb, raws[k].msg)
        && forall j :: from <= j < k && raws[j].Json? && Carries(raws[j].msg, id) ==> !Replies(cb, raws[j].msg)
    ensures FirstReply(cb, raws[from..to], id) == None ==>
      forall j :: from <= j < to && raws[j].Json? && Carries(raws[j].msg, id) ==> !Replies(cb, raws[j].msg)
  {
    var some := raws[from..to];
    FirstReplyIsEarliest(cb, some, id, m);
    hide FirstReply, Answers, Carries, Replies;
    forall j | from <= j < to
      ensures Answers(cb, raws[j], id) <==> raws[j].Json? && Carries(raws[j].msg, id) && Replies(cb, raws[j].msg)
    {
      AnswersMeans(cb, raws[j], id);
    }
    if FirstReply(cb, some, id) == Some(m) {
      var k :| 0 <= k < |some| && some[k] == Json(m) && Answers(cb, some[k], id)
               && forall j :: 0 <= j < k ==> !Answers(cb, some[j], id);
      assert raws[from + k] == some[k];
      forall j | from <= j < from + k ensures !Answers(cb, raws[j], id) {
        assert some[j - from] == raws[j];
      }
    } else if FirstReply(cb, some, id) == None {
      forall j | from <= j < to ensures !Answers(cb, raws[j], id) {
        assert some[j - from] == raws[j];
      }
    }
  }

  /** A status report can end a call exactly when no status callback was set. */
  lemma StatusReportsNeverAnswerIff(cb: bool)
    ensures (forall raws: seq<Raw>, id: nat :: !EndedByReport(cb, raws, id)) <==> cb
  {
    if cb {
      forall raws: seq<Raw>, id: nat ensures !EndedByReport(cb, raws, id) {
        if FirstReply(cb, raws, id).Some? {
          FirstReplyIsEarliest(cb, raws, id, FirstReply(cb, raws, id).value);
        }
      }
    } else {
      ReportAnswers(Envelope(StatusReport, Some(1), None, 0, ""));
    }
  }

  predicate EndedByReport(cb: bool, raws: seq<Raw>, id: nat) {
    FirstReply(cb, raws, id).Some? && FirstReply(cb, raws, id).value.kind == StatusReport
  }

  lemma ReportAnswers(m: Envelope)
    requires m.kind == StatusReport
    ensures EndedByReport(false, [Json(m)], m.Key())
  {
    var raws := [Json(m)];
    assert raws[..0] == [];
    assert FirstReply(false, raws[..0], m.Key()) == None;
    assert FirstReply(false, raws, m.Key()) == Some(m);
  }

  datatype Step =
    | Begin
    | Register(call: nat)
    | Send(call: nat, accepted: bool)
    | EraseRefused(call: nat)
    | Receive(raw: Raw)
    | Wait(call: nat, elapsed: bool)
    | EraseExpired(call: nat)

  /** The client between two atomic sections. */
  datatype State = State(pending: map<nat, nat>, promises: seq<Promise>, calls: seq<Phase>)

  /** What a message does to a client: a reply sets the promise that is registered under its id and takes
      the entry away; nothing else changes, and other messages change nothing. */
  ghost predicate Received(cb: bool, before: State, raw: Raw, after: State) {
    && after.calls == before.calls && |after.promises| == |before.promises|
    && (forall id :: id in after.pending ==> id in before.pending && after.pending[id] == before.pending[id])
    && (forall id :: id in before.pending ==>
          if raw.Json? && Carries(raw.msg, id) && Replies(cb, raw.msg) then
            && id !in after.pending && before.pending[id] < |after.promises|
            && after.promises[before.pending[id]] == Set(raw.msg)
          else id in after.pending)
    && (forall c :: 0 <= c < |after.promises| ==>
          after.promises[c] == before.promises[c] || AnswersCall(cb, before.pending, raw, c))
  }

  ghost predicate AnswersCall(cb: bool, pending: map<nat, nat>, raw: Raw, c: nat) {
    raw.Json? && Replies(cb, raw.msg) && exists id :: id in pending && pending[id] == c && Carries(raw.msg, id)
  }

  /** What a step does to a client; a step whose call is not at that point does nothing. */
  ghost predicate Stepped(cb: bool, before: State, step: Step, after: State) {
    var calls := before.calls;
    match step
    case Begin => after == before.(calls := calls + [Numbered], promises := before.promises + [Unset])
    case Register(c) =>
      after ==
      if !At(calls, c, Numbered) then before
      else if IdOf(c) in before.pending then before.(calls := calls[c := Returned(Threw)])
      else before.(calls := calls[c := Sending], pending := before.pending[IdOf(c) := c])
    case Send(c, accepted) =>
      after ==
      if !At(calls, c, Sending) then before
      else before.(calls := calls[c := if accepted then Waiting else SendRefused])
    case EraseRefused(c) =>
      if At(calls, c, SendRefused) then ErasedBy(before, c, SendFailed, after) else after == before
    case Receive(raw) => Received(cb, before, raw, after)
    case Wait(c, elapsed) =>
      after ==
      if !At(calls, c, Waiting) || c >= |before.promises| then before
      else (
        match before.promises[c]
        case Set(m) => before.(calls := calls[c := Returned(Replied(m))])
        case Broken => before.(calls := calls[c := Returned(Threw)])
        case Unset => if elapsed then before.(calls := calls[c := Expired]) else before)
    case EraseExpired(c) =>
      if At(calls, c, Expired) then ErasedBy(before, c, TimedOut, after) else after == before
  }

  predicate At(calls: seq<Phase>, call: nat, p: Phase) {
    call < |calls| && calls[call] == p
  }

  /** A call takes the entry under its id away, whosever it is, and returns. */
  ghost predicate ErasedBy(before: State, c: nat, outcome: Outcome, after: State) {
    && c < |before.calls| && after.calls == before.calls[c := Returned(outcome)]
    && after.pending == before.pending - {IdOf(c)} && |after.promises| == |before.promises|
    && forall d :: 0 <= d < |after.promises| ==>
         after.promises[d] ==
         if IdOf(c) in before.pending && before.pending[IdOf(c)] == d then Broken else before.promises[d]
  }

  /** A run: the client before, between and after the steps of a schedule. */
  ghost predicate IsRun(cb: bool, schedule: seq<Step>, states: seq<State>) {
    && |states| == |schedule| + 1
    && forall i :: 0 <= i < |schedule| ==> Stepped(cb, states[i], schedule[i], states[i + 1])
  }

  lemma RunGoesOn(cb: bool, schedule: seq<Step>, n: nat, states: seq<State>, after: State)
    requires n < |schedule| && IsRun(cb, schedule[..n], states) && Stepped(cb, states[n], schedule[n], after)
    ensures IsRun(cb, schedule[..n + 1], states + [after])
  {
    hide Stepped;
    assert forall i :: 0 <= i < n ==> schedule[..n + 1][i] == schedule[..n][i];
  }

  /** How far a call has come. */
  function Stage(p: Phase): nat {
    match p
    case Numbered => 0
    case Sending => 1
    case SendRefused => 2
    case Waiting => 3
    case Expired => 4
    case Returned(_) => 5
  }

  /** No step of any call or message sets a call back. */
  lemma StageKept(cb: bool, before: State, step: Step, after: State, c: nat)
    requires Stepped(cb, before, step, after) && c < |before.calls|
    ensures c < |after.calls| && Stage(before.calls[c]) <= Stage(after.calls[c])
  {
  }

  lemma {:induction false} StagesGrow(cb: bool, schedule: seq<Step>, states: seq<State>, i: nat, j: nat, c: nat)
    requires IsRun(cb, schedule, states) && i <= j <= |schedule| && c < |states[i].calls|
    ensures c < |states[j].calls| && Stage(states[i].calls[c]) <= Stage(states[j].calls[c])
    decreases j - i
  {
    hide Stepped, Stage;
    if i < j {
      StagesGrow(cb, schedule, states, i, j - 1, c);
      StageKept(cb, states[j - 1], schedule[j - 1], states[j], c);
    }
  }

  /** No call hangs: whatever other calls and messages do in between, it has returned once it has been
      given its own steps in order, the last wait with its time elapsed. */
  lemma EveryCallReturns(cb: bool, schedule: seq<Step>, states: seq<State>, c: nat, at: seq<nat>, accepted: bool)
    requires IsRun(cb, schedule, states) && |at| == 5 && at[0] < at[1] < at[2] < at[3] < at[4] < |schedule|
    requires c < |states[at[0]].calls| && forall i :: 0 <= i < |states| ==> |states[i].promises| == |states[i].calls|
    requires schedule[at[0]] == Register(c) && schedule[at[1]] == Send(c, accepted)
    requires schedule[at[2]] == EraseRefused(c) && schedule[at[3]] == Wait(c, true)
    requires schedule[at[4]] == EraseExpired(c)
    ensures c < |states[|schedule|].calls| && states[|schedule|].calls[c].Returned?
  {
    StepAdvances(cb, schedule, states, at[0], at[1], c);
    StepAdvances(cb, schedule, states, at[1], at[2], c);
    StepAdvances(cb, schedule, states, at[2], at[3], c);
    StepAdvances(cb, schedule, states, at[3], at[4], c);
    StepAdvances(cb, schedule, states, at[4], |schedule|, c);
  }

  /** A step of the call leaves its own stage behind for good. */
  lemma StepAdvances(cb: bool, schedule: seq<Step>, states: seq<State>, i: nat, j: nat, c: nat)
    requires IsRun(cb, schedule, states) && i < j <= |schedule| && c < |states[i].calls| == |states[i].promises|
    ensures c < |states[j].calls|
    ensures schedule[i] == Register(c) ==> Stage(states[j].calls[c]) > 0
    ensures schedule[i].Send? && schedule[i].call == c && Stage(states[i].calls[c]) > 0 ==>
      Stage(states[j].calls[c]) > 1
    ensures schedule[i] == EraseRefused(c) && Stage(states[i].calls[c]) > 1 ==> Stage(states[j].calls[c]) > 2
    ensures schedule[i] == Wait(c, true) && Stage(states[i].calls[c]) > 2 ==> Stage(states[j].calls[c]) > 3
    ensures schedule[i] == EraseExpired(c) && Stage(states[i].calls[c]) > 3 ==> Stage(states[j].calls[c]) > 4
  {
    assert Stepped(cb, states[i], schedule[i], states[i + 1]);
    StageKept(cb, states[i], schedule[i], states[i + 1], c);
    StagesGrow(cb, schedule, states, i + 1, j, c);
  }

  /** What a call has to show for itself: `at` is the number of messages processed when it
      registered, `until` the number when its wait gave up.  A broken promise has lost its entry to an
      erase. */
  predicate CallOk(cb: bool, id: nat, p: Phase, promise: Promise, received: seq<Raw>, at: nat, until: nat) {
    && at <= |received| && until <= |received|
    && (p.Numbered? ==> promise == Unset)
    && (p == Returned(Threw) ==> !promise.Set?)
    && (Open(p) && !promise.Broken? ==>
          FirstReply(cb, received[at..], id) == if promise.Set? then Some(promise.msg) else None)
    && (p.Returned? && p.outcome.Replied? ==>
          promise == Set(p.outcome.msg) && FirstReply(cb, received[at..], id) == Some(p.outcome.msg))
    && (p.Expired? || p == Returned(TimedOut) ==>
          at <= until && FirstReply(cb, received[at..until], id) == None)
  }

  /** One more message: what was the first reply stays the first reply. */
  lemma CallOkReceives(cb: bool, id: nat, p: Phase, promise: Promise, received: seq<Raw>, at: nat, until: nat, raw: Raw)
    requires CallOk(cb, id, p, promise, received, at, until)
    ensures CallOk(cb, id, p, if Open(p) && promise.Unset? && Answers(cb, raw, id) then Set(raw.msg) else promise,
                   received + [raw], at, until)
  {
    var now := received + [raw];
    assert now[at..] == received[at..] + [raw];
    assert now[at..][..|now[at..]| - 1] == received[at..];
    if at <= until {
      assert now[at..until] == received[at..until];
    }
  }

  /** The other steps of a call, on what it has to show for itself. */
  lemma CallOkSteps(cb: bool, id: nat, p: Phase, promise: Promise, received: seq<Raw>, at: nat, until: nat)
    requires CallOk(cb, id, p, promise, received, at, until)
    ensures p == Numbered ==> CallOk(cb, id, Sending, promise, received, |received|, until)
                              && CallOk(cb, id, Returned(Threw), promise, received, at, until)
    ensures p == Sending ==> CallOk(cb, id, Waiting, promise, received, at, until)
                             && CallOk(cb, id, SendRefused, promise, received, at, until)
    ensures p == SendRefused ==> CallOk(cb, id, Returned(SendFailed), promise, received, at, until)
    ensures p == Expired ==> CallOk(cb, id, Returned(TimedOut), promise, received, at, until)
    ensures p == Waiting && promise.Set? ==>
      CallOk(cb, id, Returned(Replied(promise.msg)), promise, received, at, until)
      && FirstReply(cb, received[at..], id) == Some(promise.msg)
    ensures p == Waiting && promise.Unset? ==>
      CallOk(cb, id, Expired, promise, received, at, |received|) && FirstReply(cb, received[at..], id) == None
    ensures p == Waiting && promise.Broken? ==> CallOk(cb, id, Returned(Threw), promise, received, at, until)
    ensures promise.Unset? && !p.Numbered? ==> CallOk(cb, id, p, Broken, received, at, until)
  {
    assert received[|received|..] == [] && received[at..|received|] == received[at..];
    assert FirstReply(cb, [], id) == None;
  }

  lemma NewCallOk(cb: bool, id: nat, received: seq<Raw>)
    ensures CallOk(cb, id, Numbered, Unset, received, |received|, 0)
  {
  }

  /** The pending map has exactly the unset promises of the calls that are under way, and a call has
      thrown or has its promise broken under it only if the counter has come round. */
  ghost predicate PendingOk(pending: map<nat, nat>, calls: seq<Phase>, promises: seq<Promise>) {
    && |promises| == |calls|
    && (forall id :: id in pending ==>
          pending[id] < |calls| && IdOf(pending[id]) == id && Open(calls[pending[id]]) && promises[pending[id]].Unset?)
    && (forall c :: 0 <= c < |calls| && Open(calls[c]) && promises[c].Unset? ==>
          IdOf(c) in pending && pending[IdOf(c)] == c)
    && (forall c :: 0 <= c < |calls| && Mishap(calls[c], promises[c]) ==> |calls| > ID_LIMIT)
  }

  predicate Mishap(p: Phase, promise: Promise) {
    p == Returned(Threw) || (Open(p) && promise.Broken?)
  }

  /** No message has answered two calls. */
  ghost predicate RepliesOk(promises: seq<Promise>, received: seq<Raw>, replyAt: seq<nat>) {
    && |replyAt| == |promises|
    && (forall c :: 0 <= c < |promises| && promises[c].Set? ==>
          replyAt[c] < |received| && received[replyAt[c]] == Json(promises[c].msg))
    && (forall c, d :: 0 <= c < d < |promises| && promises[c].Set? && promises[d].Set? ==> replyAt[c] != replyAt[d])
  }

  lemma PendingDistinct(pending: map<nat, nat>, calls: seq<Phase>, promises: seq<Promise>)
    requires PendingOk(pending, calls, promises)
    ensures forall id :: id in pending ==> pending[id] < |promises|
    ensures forall id, other :: id in pending && other in pending && pending[id] == pending[other] ==> id == other
  {
  }

  lemma PendingBegin(pending: map<nat, nat>, calls: seq<Phase>, promises: seq<Promise>)
    requires PendingOk(pending, calls, promises)
    ensures PendingOk(pending, calls + [Numbered], promises + [Unset])
  {
  }

  /** A call whose id is free registers; one whose id is taken throws, and then the counter has come
      round. */
  lemma PendingRegister(pending: map<nat, nat>, calls: seq<Phase>, promises: seq<Promise>, call: nat)
    requires PendingOk(pending, calls, promises) && call < |calls| && calls[call] == Numbered && promises[call] == Unset
    ensures IdOf(call) !in pending ==> PendingOk(pending[IdOf(call) := call], calls[call := Sending], promises)
    ensures IdOf(call) in pending ==> PendingOk(pending, calls[call := Returned(Threw)], promises)
  {
    if IdOf(call) in pending {
      SharedId(call, pending[IdOf(call)]);
    } else {
      forall c | 0 <= c < |calls| && c != call && Open(calls[c]) && promises[c].Unset?
        ensures IdOf(c) != IdOf(call)
      {
      }
    }
  }

  /** A call moves on without touching the map: still under way, with its promise set, or thrown for
      a broken promise. */
  lemma PendingMove(pending: map<nat, nat>, calls: seq<Phase>, promises: seq<Promise>, call: nat, p: Phase)
    requires PendingOk(pending, calls, promises) && call < |calls| && Open(calls[call])
    requires Open(p) || (p.Returned? && promises[call].Set? && !p.outcome.Threw?)
             || (p == Returned(Threw) && promises[call].Broken?)
    ensures PendingOk(pending, calls[call := p], promises)
  {
  }

  /** The promises after an erase: the one registered under the id is destroyed unset, whosever it is. */
  function Erased(pending: map<nat, nat>, promises: seq<Promise>, id: nat): seq<Promise>
    requires forall k :: k in pending ==> pending[k] < |promises|
  {
    if id in pending then promises[pending[id] := Broken] else promises
  }

  lemma PendingErase(pending: map<nat, nat>, calls: seq<Phase>, promises: seq<Promise>, call: nat, p: Phase)
    requires PendingOk(pending, calls, promises) && call < |calls| && Open(calls[call])
    requires p == Returned(SendFailed) || p == Returned(TimedOut)
    ensures PendingOk(pending - {IdOf(call)}, calls[call := p], Erased(pending, promises, IdOf(call)))
  {
    if IdOf(call) in pending {
      SharedId(call, pending[IdOf(call)]);
    }
  }

  lemma PendingResolve(pending: map<nat, nat>, calls: seq<Phase>, promises: seq<Promise>, id: nat, m: Envelope)
    requires PendingOk(pending, calls, promises)
    ensures id in pending ==>
      pending[id] < |promises| && PendingOk(pending - {id}, calls, promises[pending[id] := Set(m)])
  {
  }

  ghost predicate CallsFit(cb: bool, calls: seq<Phase>, promises: seq<Promise>, received: seq<Raw>,
                           at: seq<nat>, until: seq<nat>) {
    && |calls| == |promises| == |at| == |until|
    && forall c :: 0 <= c < |calls| ==> CallOk(cb, IdOf(c), calls[c], promises[c], received, at[c], until[c])
  }

  lemma CallsBegin(cb: bool, calls: seq<Phase>, promises: seq<Promise>, received: seq<Raw>, at: seq<nat>,
                   until: seq<nat>)
    requires CallsFit(cb, calls, promises, received, at, until)
    ensures CallsFit(cb, calls + [Numbered], promises + [Unset], received, at + [|received|], until + [0])
  {
    hide CallOk;
    NewCallOk(cb, IdOf(|calls|), received);
    var calls', promises', at', until' := calls + [Numbered], promises + [Unset], at + [|received|], until + [0];
    forall c | 0 <= c < |calls'| ensures CallOk(cb, IdOf(c), calls'[c], promises'[c], received, at'[c], until'[c]) {
      if c < |calls| {
        assert CallOk(cb, IdOf(c), calls[c], promises[c], received, at[c], until[c]);
      }
    }
  }

  /** An erase breaks only an unset promise, and its call moves on. */
  lemma CallsErase(cb: bool, calls: seq<Phase>, promises: seq<Promise>, received: seq<Raw>, at: seq<nat>,
                   until: seq<nat>, pending: map<nat, nat>, call: nat, p: Phase)
    requires CallsFit(cb, calls, promises, received, at, until) && PendingOk(pending, calls, promises)
    requires call < |calls| && (calls[call] == SendRefused || calls[call] == Expired)
    requires p == Returned(if calls[call] == SendRefused then SendFailed else TimedOut)
    ensures CallsFit(cb, calls[call := p], Erased(pending, promises, IdOf(call)), received, at, until)
  {
    hide CallOk, FirstReply, IdOf;
    var after := Erased(pending, promises, IdOf(call));
    forall c | 0 <= c < |calls|
      ensures CallOk(cb, IdOf(c), calls[call := p][c], after[c], received, at[c], until[c])
    {
      CallOkSteps(cb, IdOf(c), calls[c], promises[c], received, at[c], until[c]);
      if c == call {
        CallOkSteps(cb, IdOf(c), p, promises[c], received, at[c], until[c]);
      }
    }
  }

  /** Resolving a message sets the promise that is registered under its id. */
  function Settled(cb: bool, pending: map<nat, nat>, promises: seq<Promise>, raw: Raw): (after: seq<Promise>)
    requires forall id :: id in pending ==> pending[id] < |promises|
    ensures |after| == |promises|
  {
    if raw.Json? && Answers(cb, raw, raw.msg.Key()) && raw.msg.Key() in pending
    then promises[pending[raw.msg.Key()] := Set(raw.msg)] else promises
  }

  /** After a message every call still has what it must show. */
  lemma CallsReceive(cb: bool, calls: seq<Phase>, promises: seq<Promise>, received: seq<Raw>,
                     at: seq<nat>, until: seq<nat>, pending: map<nat, nat>, raw: Raw)
    requires CallsFit(cb, calls, promises, received, at, until) && PendingOk(pending, calls, promises)
    ensures CallsFit(cb, calls, Settled(cb, pending, promises, raw), received + [raw], at, until)
  {
    hide CallOk, FirstReply;
    var after := Settled(cb, pending, promises, raw);
    forall c | 0 <= c < |calls|
      ensures CallOk(cb, IdOf(c), calls[c], after[c], received + [raw], at[c], until[c])
    {
      CallOkReceives(cb, IdOf(c), calls[c], promises[c], received, at[c], until[c], raw);
    }
  }

  lemma RepliesReceive(cb: bool, calls: seq<Phase>, promises: seq<Promise>, received: seq<Raw>, replyAt: seq<nat>,
                       pending: map<nat, nat>, raw: Raw)
    requires RepliesOk(promises, received, replyAt) && PendingOk(pending, calls, promises)
    ensures |replyAt| == |promises| == |calls| && forall id :: id in pending ==> pending[id] < |promises|
    ensures RepliesOk(promises, received + [raw], replyAt)
    ensures raw.Json? && raw.msg.Key() in pending ==>
      var c := pending[raw.msg.Key()];
      RepliesOk(promises[c := Set(raw.msg)], received + [raw], replyAt[c := |received|])
  {
  }

  lemma RepliesErase(calls: seq<Phase>, promises: seq<Promise>, received: seq<Raw>, replyAt: seq<nat>,
                     pending: map<nat, nat>, id: nat)
    requires RepliesOk(promises, received, replyAt) && PendingOk(pending, calls, promises)
    ensures RepliesOk(Erased(pending, promises, id), received, replyAt)
  {
  }

  class IpcClient {
    const statusCallback: bool
    var nextCorrelationId: nat
    /** Correlation id to the promise (the index of its call). */
    var pending: map<nat, nat>
    /** The shared states of the promises, by call. */
    var promises: seq<Promise>
    var calls: seq<Phase>
    ghost var received: seq<Raw>
    ghost var registeredAt: seq<nat>
    ghost var expiredAt: seq<nat>
    /** Which message set a promise. */
    ghost var replyAt: seq<nat>

    ghost predicate CallsOk()
      reads this
    {
      CallsFit(statusCallback, calls, promises, received, registeredAt, expiredAt)
    }

    ghost predicate Valid()
      reads this
    {
      && nextCorrelationId == IdOf(|calls|)
      && PendingOk(pending, calls, promises) && RepliesOk(promises, received, replyAt) && CallsOk()
    }

    /** What no step changes: an outcome, once returned, and the messages already processed. */
    twostate predicate Keeps()
      reads this
    {
      && |old(calls)| <= |calls|
      && (forall c :: 0 <= c < |old(calls)| && old(calls)[c].Returned? ==> calls[c] == old(calls)[c])
      && old(received) <= received
    }

    ghost function Now(): State
      reads this
    {
      State(pending, promises, calls)
    }

    constructor (statusCallback: bool)
      ensures nextCorrelationId == 1
      ensures Valid() && calls == [] && pending == map[] && this.statusCallback == statusCallback
    {
      this.statusCallback := statusCallback;
      nextCorrelationId, pending, promises, calls := 1, map[], [], [];
      received, registeredAt, expiredAt, replyAt := [], [], [], [];
    }

    /** What a call has to show for itself, and what its next step makes of it. */
    lemma CallSteps(call: nat)
      requires CallsOk() && call < |calls|
      ensures CallOk(statusCallback, IdOf(call), calls[call], promises[call], received, registeredAt[call],
                     expiredAt[call])
    {
    }

    /** next_id. */
    method BeginCall() returns (call: nat)
      requires Valid()
      modifies this
      ensures Valid() && Keeps() && received == old(received)
      ensures call == |old(calls)| && calls == old(calls) + [Numbered] && pending == old(pending)
      ensures promises == old(promises) + [Unset]
      ensures IdOf(call) == old(nextCorrelationId)
      ensures nextCorrelationId == (old(nextCorrelationId) + 1) % 0x1_0000_0000_0000_0000
    {
      hide CallOk, FirstReply, PendingOk, CallsFit;
      PendingBegin(pending, calls, promises);
      CallsBegin(statusCallback, calls, promises, received, registeredAt, expiredAt);
      call := |calls|;
      nextCorrelationId := (nextCorrelationId + 1) % ID_LIMIT;
      calls, promises := calls + [Numbered], promises + [Unset];
      registeredAt, expiredAt, replyAt := registeredAt + [|received|], expiredAt + [0], replyAt + [0];
    }

    /** emplace and get_future: an id that is taken makes the call throw. */
    method RegisterCall(call: nat)
      requires Valid() && call < |calls| && calls[call] == Numbered
      modifies this
      ensures Valid() && Keeps() && received == old(received) && promises == old(promises)
      ensures IdOf(call) !in old(pending) ==>
        calls == old(calls)[call := Sending] && pending == old(pending)[IdOf(call) := call]
      ensures IdOf(call) in old(pending) ==>
        calls == old(calls)[call := Returned(Threw)] && pending == old(pending) && |calls| > ID_LIMIT
    {
      hide CallOk, FirstReply, PendingOk, RepliesOk;
      CallSteps(call);
      CallOkSteps(statusCallback, IdOf(call), calls[call], promises[call], received, registeredAt[call],
                  expiredAt[call]);
      NumberedHasNoReply(call);
      PendingRegister(pending, calls, promises, call);
      if IdOf(call) in pending {
        TakenMeansWrapped(call);
        calls := calls[call := Returned(Threw)];
      } else {
        pending := pending[IdOf(call) := call];
        calls := calls[call := Sending];
        registeredAt := registeredAt[call := |received|];
      }
    }

    lemma NumberedHasNoReply(call: nat)
      requires Valid() && call < |calls| && calls[call] == Numbered
      ensures promises[call] == Unset
    {
      CallSteps(call);
    }

    lemma TakenMeansWrapped(call: nat)
      requires Valid() && call < |calls| && calls[call] == Numbered && IdOf(call) in pending
      ensures |calls| > ID_LIMIT
    {
      hide CallOk, FirstReply;
      SharedId(call, pending[IdOf(call)]);
    }

    method SendReturns(call: nat, accepted: bool)
      requires Valid() && call < |calls| && calls[call] == Sending
      modifies this
      ensures Valid() && Keeps() && received == old(received) && pending == old(pending) && promises == old(promises)
      ensures calls == old(calls)[call := if accepted then Waiting else SendRefused]
    {
      hide CallOk, FirstReply, PendingOk, RepliesOk;
      CallSteps(call);
      CallOkSteps(statusCallback, IdOf(call), calls[call], promises[call], received, registeredAt[call],
                  expiredAt[call]);
      var p := if accepted then Waiting else SendRefused;
      PendingMove(pending, calls, promises, call, p);
      calls := calls[call := p];
    }

    /** The erase of a call that will not read its promise any more: by id, whosever entry it is.  It
        destroys that promise. */
    method EraseAndReturn(call: nat)
      requires Valid() && call < |calls| && (calls[call] == SendRefused || calls[call] == Expired)
      modifies this
      ensures Valid() && Keeps() && received == old(received) && pending == old(pending) - {IdOf(call)}
      ensures calls == old(calls)[call := Returned(if old(calls)[call] == SendRefused then SendFailed else TimedOut)]
      ensures |promises| == |old(promises)| && forall c :: 0 <= c < |promises| ==>
        promises[c] ==
        if IdOf(call) in old(pending) && old(pending)[IdOf(call)] == c then Broken else old(promises)[c]
    {
      hide CallOk, FirstReply, RepliesOk, IdOf;
      var p := Returned(if calls[call] == SendRefused then SendFailed else TimedOut);
      PendingErase(pending, calls, promises, call, p);
      CallsErase(statusCallback, calls, promises, received, registeredAt, expiredAt, pending, call, p);
      RepliesErase(calls, promises, received, replyAt, pending, IdOf(call));
      if IdOf(call) in pending {
        promises := promises[pending[IdOf(call)] := Broken];
      }
      pending := pending - {IdOf(call)};
      calls := calls[call := p];
    }

    /** wait_for and get: the reply if the promise is set, an exception if it is broken, else nothing
        once the time has elapsed. */
    method WaitReturns(call: nat, elapsed: bool)
      requires Valid() && call < |calls| && calls[call] == Waiting
      modifies this
      ensures Valid() && Keeps() && received == old(received) && pending == old(pending) && promises == old(promises)
      ensures calls ==
        match promises[call]
        case Set(m) => old(calls)[call := Returned(Replied(m))]
        case Broken => old(calls)[call := Returned(Threw)]
        case Unset => if elapsed then old(calls)[call := Expired] else old(calls)
      ensures !promises[call].Broken? ==>
        FirstReply(statusCallback, received[registeredAt[call]..], IdOf(call))
        == if promises[call].Set? then Some(promises[call].msg) else None
      ensures promises[call].Broken? ==> |calls| > ID_LIMIT
    {
      hide CallOk, FirstReply, RepliesOk;
      CallSteps(call);
      CallOkSteps(statusCallback, IdOf(call), calls[call], promises[call], received, registeredAt[call],
                  expiredAt[call]);
      var p :=
        match promises[call]
        case Set(m) => Returned(Replied(m))
        case Broken => Returned(Threw)
        case Unset => if elapsed then Expired else Waiting;
      PendingMove(pending, calls, promises, call, p);
      if p == Expired {
        expiredAt := expiredAt[call := |received|];
      }
      calls := calls[call := p];
    }

    /** resolve. */
    method Resolve(id: nat, body: Envelope)
      requires id in pending ==> pending[id] < |promises|
      modifies `pending, `promises
      ensures pending == old(pending) - {id}
      ensures promises == if id in old(pending) then old(promises)[old(pending)[id] := Set(body)] else old(promises)
    {
      if id !in pending {
        return;
      }
      promises := promises[pending[id] := Set(body)];
      pending := pending - {id};
    }

    /** on_message. */
    method OnMessage(raw: Raw)
      requires Valid()
      modifies this
      ensures Valid() && Keeps() && calls == old(calls)
      ensures received == old(received) + [raw]
      ensures forall id :: id in pending <==> id in old(pending) && !Answers(statusCallback, raw, id)
      ensures |promises| == |old(promises)|
      ensures forall id :: id in old(pending) ==>
        && old(pending)[id] < |promises|
        && if && raw.Json? && Carries(raw.msg, id)
              && (raw.msg.kind in {HeartbeatAck, ToolResponse, PreprocessResponse, Other}
                  || (raw.msg.kind == StatusReport && !statusCallback))
           then id !in pending && promises[old(pending)[id]] == Set(raw.msg)
           else
             && id in pending && pending[id] == old(pending)[id]
             && promises[old(pending)[id]] == old(promises)[old(pending)[id]]
      ensures forall c :: 0 <= c < |promises| && c !in old(pending).Values ==> promises[c] == old(promises)[c]
    {
      hide CallOk, FirstReply, PendingOk, RepliesOk, CallsFit;
      PendingDistinct(pending, calls, promises);
      CallsReceive(statusCallback, calls, promises, received, registeredAt, expiredAt, pending, raw);
      RepliesReceive(statusCallback, calls, promises, received, replyAt, pending, raw);
      received := received + [raw];
      if raw.Garbage? {
        return;
      }
      if raw.msg.kind == StatusReport && statusCallback {
        return;
      }
      if raw.msg.kind == PluginAnnounce {
        return;
      }
      var id := raw.msg.Key();
      PendingResolve(pending, calls, promises, id, raw.msg);
      if id in pending {
        replyAt := replyAt[pending[id] := |received| - 1];
      }
      assert pending - {id} == if id in pending then pending - {id} else pending;
      Resolve(id, raw.msg);
    }

    /** One atomic section; a step whose call is not at that point is skipped. */
    method Take(step: Step)
      requires Valid()
      modifies this
      ensures Valid() && Keeps() && Stepped(statusCallback, old(Now()), step, Now())
      ensures received == if step.Receive? then old(received) + [step.raw] else old(received)
    {
      hide PendingOk, RepliesOk, IpcClient.CallsOk, IdOf, Answers, FirstReply;
      PromiseEach();
      match step {
        case Begin =>
          var _ := BeginCall();
        case Register(c) =>
          if c < |calls| && calls[c] == Numbered {
            RegisterCall(c);
          }
        case Send(c, accepted) =>
          if c < |calls| && calls[c] == Sending {
            SendReturns(c, accepted);
          }
        case EraseRefused(c) =>
          if c < |calls| && calls[c] == SendRefused {
            EraseAndReturn(c);
          }
        case Receive(raw) =>
          OnMessage(raw);
        case Wait(c, elapsed) =>
          if c < |calls| && calls[c] == Waiting {
            WaitReturns(c, elapsed);
          }
        case EraseExpired(c) =>
          if c < |calls| && calls[c] == Expired {
            EraseAndReturn(c);
          }
      }
    }

    lemma PromiseEach()
      requires Valid()
      ensures |promises| == |calls|
    {
    }

    /** Any schedule of the atomic sections. */
    method Run(schedule: seq<Step>) returns (ghost states: seq<State>)
      requires Valid()
      modifies this
      ensures Valid() && Keeps()
      ensures IsRun(statusCallback, schedule, states) && states[0] == old(Now()) && states[|schedule|] == Now()
      ensures forall i :: 0 <= i < |states| ==> |states[i].promises| == |states[i].calls|
    {
      hide PendingOk, RepliesOk, IpcClient.CallsOk, Stepped;
      states := [Now()];
      PromiseEach();
      for i := 0 to |schedule|
        invariant Valid() && Keeps()
        invariant IsRun(statusCallback, schedule[..i], states) && states[0] == old(Now()) && states[i] == Now()
        invariant forall k :: 0 <= k < |states| ==> |states[k].promises| == |states[k].calls|
      {
        Take(schedule[i]);
        PromiseEach();
        RunGoesOn(statusCallback, schedule, i, states, Now());
        states := states + [Now()];
      }
      assert schedule[..|schedule|] == schedule;
    }

    /** What a valid client says about a returned call: it has no entry left, a reply is the first
        message with its id since it registered, a timeout means none had come, and only after the
        counter has come round does a call throw. */
    lemma ReturnedCall(c: nat)
      requires Valid() && c < |calls| && calls[c].Returned?
      ensures IdOf(c) in pending ==> pending[IdOf(c)] != c
      ensures calls[c].outcome.Replied? ==>
        FirstReply(statusCallback, received[registeredAt[c]..], IdOf(c)) == Some(calls[c].outcome.msg)
      ensures calls[c].outcome.Replied? ==> calls[c].outcome.msg.Key() == IdOf(c)
      ensures calls[c].outcome.TimedOut? ==>
        registeredAt[c] <= expiredAt[c] <= |received|
        && FirstReply(statusCallback, received[registeredAt[c]..expiredAt[c]], IdOf(c)) == None
      ensures calls[c].outcome.Replied? ==>
        exists k :: registeredAt[c] <= k < |received| && received[k] == Json(calls[c].outcome.msg)
          && Carries(received[k].msg, IdOf(c)) && Replies(statusCallback, received[k].msg)
          && forall j :: registeredAt[c] <= j < k && received[j].Json? && Carries(received[j].msg, IdOf(c)) ==>
               !Replies(statusCallback, received[j].msg)
      ensures calls[c].outcome.TimedOut? ==>
        forall j :: registeredAt[c] <= j < expiredAt[c] && received[j].Json? && Carries(received[j].msg, IdOf(c)) ==>
          !Replies(statusCallback, received[j].msg)
      ensures calls[c].outcome.Threw? ==> |calls| > 0x1_0000_0000_0000_0000
    {
      CallSteps(c);
      assert calls[c].outcome.Threw? ==> Mishap(calls[c], promises[c]);
      hide PendingOk, RepliesOk, FirstReply, Carries, Replies, CallsFit, Answers;
      if calls[c].outcome.Replied? {
        ReplyMeans(statusCallback, received, registeredAt[c], |received|, IdOf(c), calls[c].outcome.msg);
        assert received[registeredAt[c]..|received|] == received[registeredAt[c]..];
      } else if calls[c].outcome.TimedOut? {
        var none := Envelope(Other, None, None, 0, "");
        ReplyMeans(statusCallback, received, registeredAt[c], expiredAt[c], IdOf(c), none);
      }
    }

    /** Until the counter has come round no call throws, no call under way loses its promise, and every
        call has its own id. */
    lemma IdsAreUnique()
      requires Valid() && |calls| <= 0x1_0000_0000_0000_0000
      ensures forall c :: 0 <= c < |calls| ==> calls[c] != Returned(Threw) && !(Open(calls[c]) && promises[c].Broken?)
      ensures forall c, d :: 0 <= c < d < |calls| ==> IdOf(c) != IdOf(d)
    {
      forall c | 0 <= c < |calls| ensures !Mishap(calls[c], promises[c]) {
      }
      forall c, d | 0 <= c < d < |calls| ensures IdOf(c) != IdOf(d) {
        SharedId(c, d);
      }
    }

    /** Two calls never return the same message, whatever their ids. */
    lemma RepliesAreNotShared(c: nat, d: nat)
      requires Valid() && c < |calls| && d < |calls| && c != d
      requires calls[c].Returned? && calls[c].outcome.Replied? && calls[d].Returned? && calls[d].outcome.Replied?
      ensures replyAt[c] < |received| && received[replyAt[c]] == Json(calls[c].outcome.msg) && replyAt[c] != replyAt[d]
    {
      CallSteps(c);
      CallSteps(d);
    }

    /** Nothing leaks: when no call is under way the map is empty. */
    lemma IdleMeansEmpty()
      requires Valid()
      ensures (forall c :: 0 <= c < |calls| ==> !Open(calls[c])) ==> pending == map[]
    {
      if forall c :: 0 <= c < |calls| ==> !Open(calls[c]) {
        assert forall id :: id !in pending;
      }
    }
  }
}
