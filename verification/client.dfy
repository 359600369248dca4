/**
 `AsyncTydomClient.send` (tydomio/client.py) run by any number of tasks at once: every
 interleaving of registrations, writes, responses, deadlines, cancellations and flushes.
 Calls are numbered as their futures are.
 */
module Client {
  import opened Collections
  import opened Responses
  import opened Pending

  /** What the request parses its response into. */
  datatype Kind = ConfigGet | DevicesGet | AreasGet | Plain

  predicate Accepts(kind: Kind, response: Response) {
    match kind
    case ConfigGet => ReadConfig(response).Some?
    case DevicesGet => ReadDevices(response).Some?
    case AreasGet => ReadAreas(response).Some?
    case Plain => IsOk(response)
  }

  /** How a send ended; all but `Answered` and `TaskCancelled` raise a `CommunicationError`. */
  datatype Outcome =
    | Answered(response: Response)
    | Rejected(invalid: Response)
    | TimedOut
    | ConnectionLost
    | TaskCancelled

  /** Writing: inside `websocket.send`. Awaiting: at the await of the future. */
  datatype Phase = Writing | Awaiting | Ended(outcome: Outcome)

  datatype Interrupt = Uninterrupted | Deadline | Cancellation

  datatype Call = Call(tid: int, kind: Kind, phase: Phase, interrupt: Interrupt)

  datatype Net = Net(table: Table, calls: seq<Call>, connected: bool) {
    predicate Sized() {
      |table.futures| == |calls|
    }

    predicate Live(c: nat) {
      c < |calls| && !calls[c].phase.Ended?
    }

    function End(c: nat, outcome: Outcome): Net
      requires c < |calls|
    {
      Net(table.Abandon(calls[c].tid, c), calls[c := calls[c].(phase := Ended(outcome))], connected)
    }

    /** What the await of the future gives once the coroutine resumes. */
    function Result(c: nat): Outcome
      requires Sized() && c < |calls|
    {
      match calls[c].interrupt
      case Cancellation => TaskCancelled
      case Deadline => TimedOut
      case Uninterrupted =>
        match table.futures[c]
        case Settled(response) =>
          if Accepts(calls[c].kind, response) then Answered(response) else Rejected(response)
        case Cancelled => TaskCancelled
        case _ => ConnectionLost
    }
  }

  datatype Event =
    | Send(tid: Option<int>, kind: Kind)
    | Written(call: nat)          // websocket.send returns
    | WriteFailed(call: nat)      // websocket.send raises ConnectionClosed
    | WriteCancelled(call: nat)   // the coroutine is cancelled inside websocket.send
    | Read(response: Response)
    | Expire(call: nat)           // the deadline passes
    | Cancel(call: nat)           // the coroutine is cancelled at the await of the future
    | Resume(call: nat)
    | Flush
    | Connect
    | Disconnect

  predicate Enabled(n: Net, e: Event) {
    n.Sized() &&
    match e
    case Written(c) => n.Live(c) && n.calls[c].phase.Writing?
    case WriteFailed(c) => n.Live(c) && n.calls[c].phase.Writing?
    case WriteCancelled(c) => n.Live(c) && n.calls[c].phase.Writing?
    case Expire(c) => n.Live(c) && n.calls[c].phase.Awaiting? && n.calls[c].interrupt.Uninterrupted?
    case Cancel(c) => n.Live(c) && n.calls[c].phase.Awaiting?
    case Resume(c) => n.Live(c) && n.calls[c].phase.Awaiting? && !n.table.futures[c].Waiting?
    case _ => true
  }

  /** Whether `send` registers the request; otherwise it raises and nothing changes. */
  predicate Admits(n: Net, tid: Option<int>) {
    tid.Some? && tid.value !in n.table.entries && n.connected
  }

  ghost function Next(n: Net, e: Event): Net
    requires n.table.Valid() && Enabled(n, e)
  {
    match e
    case Send(tid, kind) =>
      if Admits(n, tid)
      then n.(table := n.table.Register(tid.value), calls := n.calls + [Call(tid.value, kind, Writing, Uninterrupted)])
      else n
    case Written(c) =>
      if n.table.futures[c].Waiting? then n.(calls := n.calls[c := n.calls[c].(phase := Awaiting)])
      else n.End(c, n.Result(c))
    case WriteFailed(c) => n.End(c, ConnectionLost)
    case WriteCancelled(c) => n.End(c, TaskCancelled)
    case Read(response) => n.(table := n.table.Resolve(response))
    case Expire(c) => n.(table := n.table.Cancel(c), calls := n.calls[c := n.calls[c].(interrupt := Deadline)])
    case Cancel(c) => n.(table := n.table.Cancel(c), calls := n.calls[c := n.calls[c].(interrupt := Cancellation)])
    case Resume(c) => n.End(c, n.Result(c))
    case Flush => n.(table := n.table.Flush())
    case Connect => n.(connected := true)
    case Disconnect => n.(connected := false)
  }

  // ---- what every reachable state satisfies ----

  /** An entry belongs to a live call of that id whose future is not settled. */
  ghost predicate EntryOk(n: Net, tid: int)
    requires n.Sized() && tid in n.table.entries
  {
    var c := n.table.entries[tid];
    n.Live(c) && n.calls[c].tid == tid && (n.table.futures[c].Waiting? || n.table.futures[c].Cancelled?)
  }

  ghost predicate CallOk(n: Net, c: nat)
    requires n.Sized() && c < |n.calls|
  {
    var call, future := n.calls[c], n.table.futures[c];
    && (n.Live(c) && future.Waiting? ==> call.tid in n.table.entries && n.table.entries[call.tid] == c)
    && (future.Settled? ==> future.response.transacId == Some(call.tid))
    && (call.phase.Writing? ==> call.interrupt.Uninterrupted?)
    && (call.phase.Awaiting? && !call.interrupt.Uninterrupted? ==> !future.Waiting?)
    && (future.Cancelled? ==> !call.interrupt.Uninterrupted?)
    && (call.phase.Ended? && call.phase.outcome.Answered? ==>
          call.phase.outcome.response.transacId == Some(call.tid) && Accepts(call.kind, call.phase.outcome.response))
    && (call.phase.Ended? && call.phase.outcome.Rejected? ==> !Accepts(call.kind, call.phase.outcome.invalid))
  }

  ghost predicate Inv(n: Net) {
    && n.Sized()
    && (forall tid :: tid in n.table.entries ==> n.table.entries[tid] < |n.calls|)
    && (forall tid :: tid in n.table.entries ==> EntryOk(n, tid))
    && (forall c: nat :: c < |n.calls| ==> CallOk(n, c))
  }

  const START := Net(Table(map[], []), [], false)

  lemma EndKeepsInv(n: Net, c: nat, outcome: Outcome)
    requires Inv(n) && n.Live(c)
    requires outcome.Answered? ==>
               outcome.response.transacId == Some(n.calls[c].tid) && Accepts(n.calls[c].kind, outcome.response)
    requires outcome.Rejected? ==> !Accepts(n.calls[c].kind, outcome.invalid)
    ensures Inv(n.End(c, outcome))
  {
    var m := n.End(c, outcome);
    assert CallOk(n, c);
    forall tid | tid in m.table.entries
      ensures m.table.entries[tid] < |m.calls| && EntryOk(m, tid)
    {
      assert EntryOk(n, tid);
    }
    forall d: nat | d < |m.calls|
      ensures CallOk(m, d)
    {
      assert CallOk(n, d);
    }
  }

  lemma ResultIsSound(n: Net, c: nat)
    requires Inv(n) && n.Live(c)
    ensures n.Result(c).Answered? ==>
              n.Result(c).response.transacId == Some(n.calls[c].tid) && Accepts(n.calls[c].kind, n.Result(c).response)
    ensures n.Result(c).Rejected? ==> !Accepts(n.calls[c].kind, n.Result(c).invalid)
  {
    assert CallOk(n, c);
  }

  lemma ReadKeepsInv(n: Net, response: Response)
    requires Inv(n) && n.table.Valid()
    ensures Inv(n.(table := n.table.Resolve(response)))
  {
    var m := n.(table := n.table.Resolve(response));
    if m != n {
      assert EntryOk(n, response.transacId.value);
      forall tid | tid in m.table.entries
        ensures m.table.entries[tid] < |m.calls| && EntryOk(m, tid)
      {
        assert EntryOk(n, tid);
      }
      forall d: nat | d < |m.calls|
        ensures CallOk(m, d)
      {
        assert CallOk(n, d);
      }
    }
  }

  lemma InterruptKeepsInv(n: Net, c: nat, interrupt: Interrupt)
    requires Inv(n) && n.Live(c) && n.calls[c].phase.Awaiting? && !interrupt.Uninterrupted?
    ensures Inv(n.(table := n.table.Cancel(c), calls := n.calls[c := n.calls[c].(interrupt := interrupt)]))
  {
    var m := n.(table := n.table.Cancel(c), calls := n.calls[c := n.calls[c].(interrupt := interrupt)]);
    assert CallOk(n, c);
    forall tid | tid in m.table.entries
      ensures m.table.entries[tid] < |m.calls| && EntryOk(m, tid)
    {
      assert EntryOk(n, tid);
    }
    forall d: nat | d < |m.calls|
      ensures CallOk(m, d)
    {
      assert CallOk(n, d);
    }
  }

  lemma SendKeepsInv(n: Net, tid: int, kind: Kind)
    requires Inv(n) && Admits(n, Some(tid))
    ensures Inv(Next(n, Send(Some(tid), kind)))
  {
    var m := Next(n, Send(Some(tid), kind));
    forall other | other in m.table.entries
      ensures m.table.entries[other] < |m.calls| && EntryOk(m, other)
    {
      if other != tid {
        assert EntryOk(n, other);
      }
    }
    forall d: nat | d < |m.calls|
      ensures CallOk(m, d)
    {
      if d < |n.calls| {
        assert CallOk(n, d);
      }
    }
  }

  lemma AwaitKeepsInv(n: Net, c: nat)
    requires Inv(n) && n.Live(c) && n.calls[c].phase.Writing?
    ensures Inv(n.(calls := n.calls[c := n.calls[c].(phase := Awaiting)]))
  {
    var m := n.(calls := n.calls[c := n.calls[c].(phase := Awaiting)]);
    forall tid | tid in m.table.entries
      ensures m.table.entries[tid] < |m.calls| && EntryOk(m, tid)
    {
      assert EntryOk(n, tid);
    }
    forall d: nat | d < |m.calls|
      ensures CallOk(m, d)
    {
      assert CallOk(n, d);
    }
  }

  lemma FlushKeepsInv(n: Net)
    requires Inv(n)
    ensures Inv(n.(table := n.table.Flush()))
  {
    var m := n.(table := n.table.Flush());
    forall d: nat | d < |m.calls|
      ensures CallOk(m, d)
    {
      assert CallOk(n, d);
      if n.Live(d) && n.table.futures[d].Waiting? {
        assert n.table.Holds(n.table.entries.Keys, d);
      }
    }
  }

  lemma NextKeepsInv(n: Net, e: Event)
    requires Inv(n) && n.table.Valid() && Enabled(n, e)
    ensures Inv(Next(n, e)) && Next(n, e).table.Valid()
  {
    match e
    case Send(tid, kind) =>
      if Admits(n, tid) {
        SendKeepsInv(n, tid.value, kind);
      }
    case Written(c) =>
      if n.table.futures[c].Waiting? {
        AwaitKeepsInv(n, c);
      } else {
        ResultIsSound(n, c);
        EndKeepsInv(n, c, n.Result(c));
      }
    case WriteFailed(c) => EndKeepsInv(n, c, ConnectionLost);
    case WriteCancelled(c) => EndKeepsInv(n, c, TaskCancelled);
    case Read(response) => ReadKeepsInv(n, response);
    case Expire(c) => InterruptKeepsInv(n, c, Deadline);
    case Cancel(c) => InterruptKeepsInv(n, c, Cancellation);
    case Resume(c) =>
      ResultIsSound(n, c);
      EndKeepsInv(n, c, n.Result(c));
    case Flush => FlushKeepsInv(n);
    case Connect =>
      KeepsInvWhateverConnected(n, true);
    case Disconnect =>
      KeepsInvWhateverConnected(n, false);
  }

  lemma KeepsInvWhateverConnected(n: Net, connected: bool)
    requires Inv(n)
    ensures Inv(n.(connected := connected))
  {
    var m := n.(connected := connected);
    forall tid | tid in m.table.entries
      ensures m.table.entries[tid] < |m.calls| && EntryOk(m, tid)
    {
      assert EntryOk(n, tid);
    }
    forall d: nat | d < |m.calls|
      ensures CallOk(m, d)
    {
      assert CallOk(n, d);
    }
  }

  /** What one step may do to the calls and entries that were there. */
  ghost predicate Evolves(n: Net, m: Net)
    requires n.Sized() && m.Sized()
  {
    && |n.calls| <= |m.calls|
    && (forall c: nat :: c < |n.calls| ==>
          && m.calls[c].tid == n.calls[c].tid
          && (!n.table.futures[c].Waiting? ==> m.table.futures[c] == n.table.futures[c])
          && (n.calls[c].phase.Ended? ==> m.calls[c] == n.calls[c]))
    && (forall tid :: tid in m.table.entries ==>
          if tid in n.table.entries then m.table.entries[tid] == n.table.entries[tid]
          else m.table.entries[tid] >= |n.calls|)
  }

  /** A future is settled at most once, an ended call stays as it ended, a live entry is never overwritten. */
  lemma StepEvolves(n: Net, e: Event)
    requires Inv(n) && n.table.Valid() && Enabled(n, e)
    ensures Next(n, e).Sized() && Evolves(n, Next(n, e))
  {
    var m := Next(n, e);
    forall c: nat | c < |n.calls|
      ensures m.calls[c].tid == n.calls[c].tid
      ensures !n.table.futures[c].Waiting? ==> m.table.futures[c] == n.table.futures[c]
      ensures n.calls[c].phase.Ended? ==> m.calls[c] == n.calls[c]
    {
    }
  }

  /** A send that ends by any path takes its own future out of the map, and no other entry. */
  lemma EndTakesOnlyItsOwn(n: Net, e: Event, c: nat)
    requires Inv(n) && n.table.Valid() && Enabled(n, e)
    requires n.Live(c) && !Next(n, e).Live(c)
    ensures forall tid :: tid in Next(n, e).table.entries <==> tid in n.table.entries && n.table.entries[tid] != c
    ensures forall tid :: tid in Next(n, e).table.entries ==> Next(n, e).table.entries[tid] == n.table.entries[tid]
  {
    assert CallOk(n, c);
    forall tid | tid in n.table.entries
      ensures n.table.entries[tid] == c ==> tid == n.calls[c].tid
    {
      assert EntryOk(n, tid);
    }
  }

  // ---- runs ----

  ghost predicate Legal(events: seq<Event>)
    decreases |events|, 0
  {
    events != [] ==>
      Legal(events[..|events| - 1])
      && RunOf(events[..|events| - 1]).table.Valid()
      && Enabled(RunOf(events[..|events| - 1]), events[|events| - 1])
  }

  ghost function RunOf(events: seq<Event>): Net
    requires Legal(events)
    decreases |events|, 1
  {
    if events == [] then START else Next(RunOf(events[..|events| - 1]), events[|events| - 1])
  }

  /** Whatever the interleaving, the invariant holds. */
  lemma {:induction false} RunsKeepInv(events: seq<Event>)
    requires Legal(events)
    ensures Inv(RunOf(events)) && RunOf(events).table.Valid()
    decreases |events|
  {
    if events != [] {
      RunsKeepInv(events[..|events| - 1]);
      NextKeepsInv(RunOf(events[..|events| - 1]), events[|events| - 1]);
    }
  }

  /**
   In every run: a response is delivered only to the request of its id, and only if that
   request accepts it; a future still in the map holds neither a response nor an error;
   and no ended call is left in the map.
   */
  lemma ResponsesReachTheirRequest(events: seq<Event>, c: nat)
    requires Legal(events)
    requires c < |RunOf(events).calls|
    ensures forall response :: RunOf(events).calls[c].phase == Ended(Answered(response)) ==>
              response.transacId == Some(RunOf(events).calls[c].tid) && Accepts(RunOf(events).calls[c].kind, response)
    ensures forall tid :: tid in RunOf(events).table.entries ==>
              var at := RunOf(events).table.entries[tid];
              at < |RunOf(events).table.futures|
              && !RunOf(events).table.futures[at].Settled? && !RunOf(events).table.futures[at].Failed?
    ensures RunOf(events).calls[c].phase.Ended? ==> c !in RunOf(events).table.entries.Values
  {
    RunsKeepInv(events);
    var n := RunOf(events);
    assert CallOk(n, c);
    forall tid | tid in n.table.entries
      ensures n.table.entries[tid] < |n.table.futures|
      ensures n.Live(n.table.entries[tid])
      ensures !n.table.futures[n.table.entries[tid]].Settled? && !n.table.futures[n.table.entries[tid]].Failed?
    {
      assert EntryOk(n, tid);
    }
  }

  // ---- what is accepted, and when ----

  /** The kinds of answers, by their fields. */
  lemma AcceptsIff(kind: Kind, r: Response)
    ensures Accepts(kind, r) <==>
            r.status == 200 &&
            match kind
            case ConfigGet => r.uriOrigin == Some("/configs/file") && r.content.Some? && r.content.value.config.Some?
            case DevicesGet => r.uriOrigin == Some("/devices/data") && r.content.Some? && r.content.value.devices.Some?
            case AreasGet => r.uriOrigin == Some("/areas/data") && r.content.Some? && r.content.value.areas.Some?
            case Plain => r.content.None?
  {
  }

  /** A request is sent exactly when it has an id no pending one has, while connected. */
  lemma SendsIff(n: Net, e: Event)
    requires n.table.Valid() && Enabled(n, e)
    ensures |Next(n, e).calls| > |n.calls| <==>
            e.Send? && e.tid.Some? && n.connected && e.tid.value !in n.table.entries
    ensures |Next(n, e).calls| > |n.calls| ==>
              var call := Next(n, e).calls[|n.calls|];
              call.tid == e.tid.value && call.kind == e.kind && call.phase.Writing?
  {
  }

  /** A response settles the waiting request of its id, and no other. */
  lemma ReadSettles(n: Net, r: Response, c: nat)
    requires Inv(n) && n.table.Valid() && c < |n.calls|
    ensures var m := Next(n, Read(r));
            && m.Sized()
            && m.table.futures[c] ==
               (if n.table.futures[c].Waiting? && n.Live(c) && r.transacId == Some(n.calls[c].tid)
                then Settled(r) else n.table.futures[c])
            && (forall tid :: tid in m.table.entries <==> tid in n.table.entries && r.transacId != Some(tid))
  {
    assert CallOk(n, c);
    if r.transacId.Some? && r.transacId.value in n.table.entries {
      assert EntryOk(n, r.transacId.value);
    }
  }

  /** A flush fails every request still waiting, whose send then reports a lost connection, and none is pending. */
  lemma FlushFailsWaiting(n: Net, c: nat)
    requires Inv(n) && n.table.Valid() && c < |n.calls|
    ensures var m := Next(n, Flush);
            && m.Sized() && m.table.Valid() && m.table.entries == map[] && m.calls == n.calls
            && m.table.futures[c] ==
               if n.Live(c) && n.table.futures[c].Waiting? then Failed else n.table.futures[c]
    ensures n.Live(c) && n.table.futures[c].Waiting? ==>
              var m, e := Next(n, Flush), if n.calls[c].phase.Writing? then Written(c) else Resume(c);
              Enabled(m, e) && Next(m, e).calls[c].phase == Ended(ConnectionLost)
  {
    var m, entries := Next(n, Flush), n.table.entries;
    assert CallOk(n, c);
    forall tid | tid in entries
      ensures n.Live(entries[tid])
    {
      assert EntryOk(n, tid);
    }
    if n.Live(c) && n.table.futures[c].Waiting? {
      assert entries[n.calls[c].tid] == c;
      assert n.table.Holds(entries.Keys, c);
      assert m.table.futures[c] == Failed;
    }
  }

  /** Requests may be sent from the opening of a connection to its end. */
  lemma {:induction false} ConnectedSinceConnect(events: seq<Event>)
    requires Legal(events)
    ensures RunOf(events).connected <==>
            exists i :: 0 <= i < |events| && events[i] == Connect
              && forall j :: i < j < |events| ==> events[j] != Disconnect
    decreases |events|
  {
    if events != [] {
      var n := |events| - 1;
      var init, e := events[..n], events[n];
      ConnectedSinceConnect(init);
      StepConnects(RunOf(init), e);
      assert forall i :: 0 <= i < n ==> init[i] == events[i];
    }
  }

  lemma StepConnects(n: Net, e: Event)
    requires n.table.Valid() && Enabled(n, e)
    ensures Next(n, e).connected == if e == Connect then true else if e == Disconnect then false else n.connected
  {
  }

  // ---- why a send ends as it does ----

  /** What happened to a call for it to end so. */
  predicate HasCause(events: seq<Event>, c: nat, outcome: Outcome) {
    match outcome
    case Answered(r) => Read(r) in events
    case Rejected(r) => Read(r) in events
    case TimedOut => Expire(c) in events
    case ConnectionLost => WriteFailed(c) in events || Flush in events
    case TaskCancelled => WriteCancelled(c) in events || Cancel(c) in events
  }

  /** What is recorded of a call until it ends has happened. */
  ghost predicate Caused(events: seq<Event>, n: Net, c: nat)
    requires n.Sized() && c < |n.calls|
  {
    var call, future := n.calls[c], n.table.futures[c];
    && (call.interrupt.Deadline? ==> Expire(c) in events)
    && (call.interrupt.Cancellation? ==> Cancel(c) in events)
    && (future.Settled? ==> Read(future.response) in events)
    && (future.Failed? ==> Flush in events)
    && (call.phase.Ended? ==> HasCause(events, c, call.phase.outcome))
  }

  lemma CausedLater(events: seq<Event>, e: Event, n: Net, c: nat)
    requires n.Sized() && c < |n.calls| && Caused(events, n, c)
    ensures Caused(events + [e], n, c)
  {
    assert forall x :: x in events ==> x in events + [e];
  }

  lemma {:induction false} StepCauses(events: seq<Event>, n: Net, e: Event, c: nat)
    requires Inv(n) && n.table.Valid() && Enabled(n, e) && Next(n, e).Sized() && c < |Next(n, e).calls|
    requires c < |n.calls| ==> Caused(events + [e], n, c)
    ensures Caused(events + [e], Next(n, e), c)
  {
    assert e in events + [e];
    if c < |n.calls| {
      assert CallOk(n, c);
    }
  }

  /**
   In every run: a send returns or rejects only a response that was read, times out only after its
   deadline, reports a lost connection only after its write failed or the connection ended, and is
   cancelled only when it was.
   */
  lemma {:induction false} EndsHaveCauses(events: seq<Event>, c: nat)
    requires Legal(events) && c < |RunOf(events).calls|
    ensures RunOf(events).Sized() && Caused(events, RunOf(events), c)
    decreases |events|
  {
    hide Next, Enabled, Caused, Inv;
    RunsKeepInv(events);
    InvSized(RunOf(events));
    if events != [] {
      var init, e := events[..|events| - 1], events[|events| - 1];
      RunsKeepInv(init);
      InvSized(RunOf(init));
      assert events == init + [e];
      if c < |RunOf(init).calls| {
        EndsHaveCauses(init, c);
        CausedLater(init, e, RunOf(init), c);
      }
      StepCauses(init, RunOf(init), e, c);
    }
  }

  lemma InvSized(n: Net)
    requires Inv(n)
    ensures n.Sized()
  {
  }
}
