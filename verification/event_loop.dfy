/**
 The connection as steps of the event loop: reading the wire (tydomio/client.py), the
 bootstrap routine and the push handlers (tydomio/mcp_server/sync.py), and the cache.

 asyncio is a FIFO queue of actions run one at a time, each up to its next await. The
 messages read are numbered in the order of the wire.
 */
module EventLoop {
  import opened Collections
  import opened Model
  import R = Responses
  import C = Client
  import opened CacheState

  datatype Message =
    | DevicesPush(devices: DevicesData)
    | AreasPush(areas: AreasData)
    | Answer(response: R.Response)
    | Ignored  // malformed, or a request of another type

  predicate IsPush(m: Message) {
    m.DevicesPush? || m.AreasPush?
  }

  /** What a message does to the cache once accepted. */
  function OpOf(m: Message): Option<Op> {
    match m
    case DevicesPush(devices) => Some(MergeDevices(devices))
    case AreasPush(areas) => Some(MergeAreas(areas))
    case Answer(response) =>
      if R.ReadConfig(response).Some? then Some(ApplyConfig(R.ReadConfig(response).value))
      else if R.ReadDevices(response).Some? then
        var raw := R.ReadDevices(response).value;
        Some(ReplaceDevices(R.ValidDevices(raw), R.InvalidKeys(raw)))
      else if R.ReadAreas(response).Some? then
        var raw := R.ReadAreas(response).value;
        Some(ReplaceAreas(R.ValidEndpoints(raw), R.InvalidIds(raw)))
      else None
    case Ignored => None
  }

  /** The ready queue: tasks not started, and tasks to resume. */
  datatype Action =
    | Begin                          // the first step of the routine
    | Handle(message: nat)           // the handler of a push
    | WriteDone                      // websocket.send of the routine's request returns
    | Wake(answer: Option<nat>)      // the await of the routine's response ends; None: with no response

  /**
   Where the routine is. An attempt draws the ids `first`, `first + 1` and `first + 2`;
   `marks` are the positions in `applied` of the answers it has applied so far.
   */
  datatype Routine =
    | Absent
    | Queued
    | Fetching(first: int, marks: seq<nat>, call: nat, held: Option<nat>)  // held: answered while still writing
    | Sleeping
    | Refreshing(first: int, marks: seq<nat>, call: nat)
    | Resting(first: int, marks: seq<nat>)
    | Escaped  // an error other than CommunicationError

  datatype Link = Down | Up | Closing

  datatype Loop = Loop(
    net: C.Net,
    nextTid: int,
    link: Link,
    ready: seq<Action>,
    routine: Routine,
    cache: State,
    wire: seq<Message>,    // every message read
    applied: seq<nat>,     // the messages applied to the cache, in order of effect
    unused: set<nat>,      // read without effect: unexpected, late, refused by its request, timed out
    lost: set<nat>)        // accepted, then lost with their connection
  {
    predicate HasCall() {
      (routine.Fetching? || routine.Refreshing?) && routine.call < |net.calls| && net.Sized()
    }

    function Call(): C.Call
      requires HasCall()
    {
      net.calls[routine.call]
    }

    predicate Unsettled()
      requires HasCall()
    {
      net.table.futures[routine.call].Waiting?
    }

    /** The answer in hand while its request is still written. */
    function Held(): Option<nat> {
      if routine.Fetching? then routine.held else None
    }

    /** No task of the routine is in the queue. */
    predicate Unpoked() {
      forall a :: a in ready ==> a.Handle?
    }
  }

  const START := Loop(C.START, 1, Down, [], Absent, INITIAL, [], [], {}, {})

  datatype Step =
    | Open
    | ReadMessage(message: Message)
    | Run(now: int)           // the head of the ready queue
    | WriteAtOnce             // websocket.send did not suspend
    | FinishWrite             // websocket.send suspended, and may now return
    | FailWrite
    | ExpireAnswer            // the deadline of the routine's request
    | EndSleep
    | Foreign(event: C.Event) // the ping, a write of the MCP server
    | EndConnection           // closed, or failed by any task
    | Unwind                  // the cancelled routine ends
    | Close

  // ---- the routine ----

  function KindOf(stage: nat): C.Kind {
    if stage == 0 then C.ConfigGet else if stage == 1 then C.DevicesGet else C.AreasGet
  }

  ghost function SendFetch(s: Loop, first: int, marks: seq<nat>): Loop
    requires s.net.table.Valid() && s.net.Sized()
  {
    var tid := Some(first + |marks|);
    if C.Admits(s.net, tid)
    then s.(net := C.Next(s.net, C.Send(tid, KindOf(|marks|))), routine := Fetching(first, marks, |s.net.calls|, None))
    else s.(routine := Escaped)
  }

  ghost function SendRefresh(s: Loop, first: int, marks: seq<nat>): Loop
    requires s.net.table.Valid() && s.net.Sized()
  {
    var t := s.(nextTid := s.nextTid + 1);
    if C.Admits(t.net, Some(s.nextTid))
    then t.(net := C.Next(t.net, C.Send(Some(s.nextTid), C.Plain)), routine := Refreshing(first, marks, |s.net.calls|))
    else t.(routine := Escaped)
  }

  /** `_bootstrap` up to its first await: the three requests take their ids at once. */
  ghost function Bootstrap(s: Loop): Loop
    requires s.net.table.Valid() && s.net.Sized()
  {
    SendFetch(s.(cache := s.cache.MarkConnected(), nextTid := s.nextTid + 3), s.nextTid, [])
  }

  function Unusable(message: Option<nat>): set<nat> {
    if message.Some? then {message.value} else {}
  }

  /** The routine goes on after its request ended, `message` being the answer it waited for, if any. */
  ghost function Proceed(s: Loop, message: Option<nat>, now: int): Loop
    requires s.net.table.Valid() && s.HasCall() && s.Call().phase.Ended?
  {
    var outcome := s.Call().phase.outcome;
    match s.routine
    case Fetching(first, marks, call, _) =>
      if outcome.Answered? && message.Some? && OpOf(Answer(outcome.response)).Some? then
        var op := OpOf(Answer(outcome.response)).value;
        var taken := marks + [|s.applied|];
        var t := s.(cache := s.cache.(content := Apply(s.cache.content, op)), applied := s.applied + [message.value]);
        if |taken| < 3 then SendFetch(t, first, taken)
        else SendRefresh(t.(cache := t.cache.MarkSynced(now)), first, taken)
      else s.(routine := Sleeping, unused := s.unused + Unusable(message))
    case Refreshing(first, marks, call) => s.(routine := Resting(first, marks))
    case _ => s
  }

  // ---- steps ----

  /** The routine's own call is touched by no other task. */
  predicate IsForeign(s: Loop, e: C.Event) {
    match e
    case Send(tid, kind) => tid == Some(s.nextTid)
    case Written(c) => !s.HasCall() || c != s.routine.call
    case WriteFailed(c) => !s.HasCall() || c != s.routine.call
    case WriteCancelled(c) => !s.HasCall() || c != s.routine.call
    case Expire(c) => !s.HasCall() || c != s.routine.call
    case Cancel(c) => !s.HasCall() || c != s.routine.call
    case Resume(c) => !s.HasCall() || c != s.routine.call
    case _ => false
  }

  ghost predicate Possible(s: Loop, step: Step) {
    match step
    case Open => s.link.Down?
    case ReadMessage(m) => s.link.Up?
    case Run(now) =>
      s.link.Up? && s.ready != [] &&
      (match s.ready[0]
       case Begin => s.routine.Queued?
       case Handle(i) => i < |s.wire| && IsPush(s.wire[i])
       case WriteDone => s.HasCall() && C.Enabled(s.net, C.Written(s.routine.call))
       case Wake(_) => s.HasCall() && C.Enabled(s.net, C.Resume(s.routine.call)))
    case WriteAtOnce =>
      s.link.Up? && s.HasCall() && s.Unsettled() && s.Unpoked() && C.Enabled(s.net, C.Written(s.routine.call))
    case FinishWrite => s.link.Up? && s.HasCall() && s.Unpoked() && C.Enabled(s.net, C.Written(s.routine.call))
    case FailWrite => s.link.Up? && s.HasCall() && s.Unpoked() && C.Enabled(s.net, C.WriteFailed(s.routine.call))
    case ExpireAnswer => s.link.Up? && s.HasCall() && C.Enabled(s.net, C.Expire(s.routine.call))
    case EndSleep => s.link.Up? && s.routine.Sleeping?
    case Foreign(e) => C.Enabled(s.net, e) && IsForeign(s, e)
    case EndConnection => s.link.Up?
    case Unwind => s.link.Closing? && !s.routine.Absent?
    case Close => s.link.Closing? && s.routine.Absent?
  }

  /** Whether the response settles the routine's request. */
  ghost predicate SettlesRoutine(s: Loop, response: R.Response)
    requires s.net.table.Valid() && s.net.Sized()
  {
    s.HasCall() && s.net.table.Expects(response) && s.net.table.entries[response.transacId.value] == s.routine.call
  }

  /** Whether the response settles the routine's request and is one to apply to the cache. */
  ghost predicate AnswersRoutine(s: Loop, response: R.Response)
    requires s.net.table.Valid() && s.net.Sized()
  {
    SettlesRoutine(s, response) && s.routine.Fetching? && C.Accepts(s.Call().kind, response)
  }

  /** `_read_messages`: one message. A response settles its request at once, and resumes it if it waits. */
  ghost function ReadOne(s: Loop, m: Message): Loop
    requires s.net.table.Valid() && s.net.Sized()
  {
    var i := |s.wire|;
    var t := s.(wire := s.wire + [m]);
    match m
    case Ignored => t.(unused := s.unused + {i})
    case Answer(response) =>
      var u := t.(net := C.Next(s.net, C.Read(response)));
      if AnswersRoutine(s, response) then
        if s.Call().phase.Writing? then u.(routine := s.routine.(held := Some(i)))
        else u.(ready := s.ready + [Wake(Some(i))])
      else
        u.(unused := s.unused + {i},
           ready := s.ready + if SettlesRoutine(s, response) && !s.Call().phase.Writing? then [Wake(None)] else [])
    case _ => t.(ready := s.ready + [Handle(i)])
  }

  ghost function RunHead(s: Loop, now: int): Loop
    requires Possible(s, Run(now)) && s.net.table.Valid() && s.net.Sized()
  {
    var t := s.(ready := s.ready[1..]);
    match s.ready[0]
    case Begin => Bootstrap(t)
    case Handle(i) =>
      t.(cache := s.cache.(content := Apply(s.cache.content, OpOf(s.wire[i]).value)), applied := s.applied + [i])
    case WriteDone =>
      var u := t.(net := C.Next(s.net, C.Written(s.routine.call)));
      if s.Unsettled() then u
      else Proceed(u, s.Held(), now)
    case Wake(answer) => Proceed(t.(net := C.Next(s.net, C.Resume(s.routine.call))), answer, now)
  }

  /** The wake-up of the routine now brings no response. */
  function Muted(ready: seq<Action>): seq<Action> {
    seq(|ready|, i requires 0 <= i < |ready| => if ready[i].Wake? then Wake(None) else ready[i])
  }

  function WakeAnswers(ready: seq<Action>): set<nat> {
    set i | 0 <= i < |ready| && ready[i].Wake? && ready[i].answer.Some? :: ready[i].answer.value
  }

  /** The message the action is to apply, if any. */
  function MessageOf(a: Action): seq<nat> {
    match a
    case Handle(i) => [i]
    case Wake(answer) => Listed(answer)
    case _ => []
  }

  function Listed(message: Option<nat>): seq<nat> {
    if message.Some? then [message.value] else []
  }

  /** The messages the queue is to apply, in order, `held` when the routine's write returns. */
  function DueIn(ready: seq<Action>, held: Option<nat>): seq<nat> {
    if ready == [] then []
    else (if ready[0].WriteDone? then Listed(held) else MessageOf(ready[0])) + DueIn(ready[1..], held)
  }

  /** The messages accepted and not applied yet, in the order they are to take effect. */
  function Due(s: Loop): seq<nat> {
    DueIn(s.ready, s.Held()) + if WriteDone in s.ready then [] else Listed(s.Held())
  }

  function DueSet(s: Loop): set<nat> {
    set i | i in Due(s)
  }

  /** Every task of the connection is cancelled; those not started never run. */
  ghost function Cut(s: Loop): Loop
    requires s.net.table.Valid() && s.net.Sized()
  {
    s.(link := Closing,
       ready := [],
       lost := s.lost + DueSet(s),
       routine := if s.routine.Queued? then Absent
                  else if s.routine.Fetching? then s.routine.(held := None) else s.routine,
       net := if s.HasCall() && C.Enabled(s.net, C.Cancel(s.routine.call))
              then C.Next(s.net, C.Cancel(s.routine.call)) else s.net)
  }

  ghost function Ending(s: Loop): C.Net
    requires s.net.table.Valid() && s.net.Sized()
  {
    if !s.HasCall() then s.net
    else if C.Enabled(s.net, C.WriteCancelled(s.routine.call)) then C.Next(s.net, C.WriteCancelled(s.routine.call))
    else if C.Enabled(s.net, C.Resume(s.routine.call)) then C.Next(s.net, C.Resume(s.routine.call))
    else s.net
  }

  ghost function After(s: Loop, step: Step): Loop
    requires Possible(s, step) && s.net.table.Valid() && s.net.Sized()
  {
    match step
    case Open => s.(net := C.Next(s.net, C.Connect), link := Up, ready := [Begin], routine := Queued)
    case ReadMessage(m) => ReadOne(s, m)
    case Run(now) => RunHead(s, now)
    case WriteAtOnce => s.(net := C.Next(s.net, C.Written(s.routine.call)))
    case FinishWrite => s.(ready := s.ready + [WriteDone])
    case FailWrite => Proceed(s.(net := C.Next(s.net, C.WriteFailed(s.routine.call))), s.Held(), 0)
    case ExpireAnswer =>
      var t := s.(net := C.Next(s.net, C.Expire(s.routine.call)));
      if s.Unsettled() then t.(ready := s.ready + [Wake(None)])
      else t.(ready := Muted(s.ready), unused := s.unused + WakeAnswers(s.ready))
    case EndSleep => Bootstrap(s)
    case Foreign(e) => s.(net := C.Next(s.net, e), nextTid := if e.Send? then s.nextTid + 1 else s.nextTid)
    case EndConnection => Cut(s)
    case Unwind => s.(net := Ending(s), cache := s.cache.MarkDisconnected(), routine := Absent)
    case Close =>
      var flushed := C.Next(s.net, C.Flush);
      s.(net := flushed.(connected := false), link := Down)
  }
}
