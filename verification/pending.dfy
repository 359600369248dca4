/** Correlation of the responses with the requests waiting for them (tydomio/pending_requests.py). */
module Pending {
  import opened Collections
  import opened Responses

  datatype FutureState = Waiting | Settled(response: Response) | Failed | Cancelled

  /** The futures ever registered, in order, and the one each pending transaction id maps to. */
  datatype Table = Table(entries: map<int, nat>, futures: seq<FutureState>) {
    ghost predicate Valid() {
      forall tid :: tid in entries ==> entries[tid] < |futures|
    }

    function Register(tid: int): Table {
      Table(entries[tid := |futures|], futures + [Waiting])
    }

    /** Whether `resolve` gives the response to a waiting request. */
    predicate Expects(response: Response)
      requires Valid()
    {
      response.transacId.Some? &&
      var tid := response.transacId.value;
      tid in entries && futures[entries[tid]].Waiting?
    }

    function Resolve(response: Response): Table
      requires Valid()
    {
      if response.transacId.None? || response.transacId.value !in entries then this
      else
        var tid := response.transacId.value;
        Table(
          entries - {tid},
          if futures[entries[tid]].Waiting? then futures[entries[tid] := Settled(response)] else futures)
    }

    function Abandon(tid: int, future: nat): Table {
      if tid in entries && entries[tid] == future then Table(entries - {tid}, futures) else this
    }

    ghost predicate Holds(tids: set<int>, future: nat) {
      exists tid :: tid in tids && tid in entries && entries[tid] == future
    }

    /** The futures once those registered under `tids` and still waiting have failed. */
    ghost function FailedAmong(tids: set<int>): seq<FutureState> {
      seq(|futures|, i requires 0 <= i < |futures| =>
        if Holds(tids, i) && futures[i].Waiting? then Failed else futures[i])
    }

    /** Every entry still waiting fails; a future already done is left as is. */
    ghost function Flush(): Table {
      Table(map[], FailedAmong(entries.Keys))
    }

    /** The cancellation of the waiting task reaches its future, unless it is already done. */
    function Cancel(future: nat): Table
      requires future < |futures|
    {
      if futures[future].Waiting? then Table(entries, futures[future := Cancelled]) else this
    }
  }

  lemma HasMember(s: set<int>)
    requires s != {}
    ensures exists tid :: tid in s
  {
    assert (forall tid :: tid !in s) ==> s == {};
  }

  lemma FailedGrows(t: Table, reached: set<int>, tid: int)
    requires t.Valid() && tid in t.entries
    ensures var before, at := t.FailedAmong(reached), t.entries[tid];
            t.FailedAmong(reached + {tid}) == if before[at].Waiting? then before[at := Failed] else before
  {
    assert forall i :: t.Holds(reached + {tid}, i) <==> t.Holds(reached, i) || t.entries[tid] == i;
  }

  class Future {
    var state: FutureState

    constructor ()
      ensures state == Waiting
    {
      state := Waiting;
    }
  }

  class PendingRequests {
    var futures: map<int, Future>
    ghost var created: seq<Future>  // every future registered, identity by position
    ghost var entries: map<int, nat>

    ghost predicate Valid()
      reads this
    {
      && (forall i, j :: 0 <= i < j < |created| ==> created[i] != created[j])
      && entries.Keys == futures.Keys
      && forall tid :: tid in entries ==> entries[tid] < |created| && created[entries[tid]] == futures[tid]
    }

    ghost function View(): Table
      reads this, created
    {
      Table(entries, seq(|created|, i requires 0 <= i < |created| reads this, created => created[i].state))
    }

    constructor ()
      ensures Valid()
      ensures View() == Table(map[], [])
    {
      futures, created, entries := map[], [], map[];
    }

    method Contains(tid: int) returns (pending: bool)
      requires Valid()
      ensures pending <==> tid in View().entries
    {
      pending := tid in futures;
    }

    method Len() returns (count: nat)
      requires Valid()
      ensures count == |View().entries|
    {
      count := |futures|;
      assert |futures| == |futures.Keys| == |entries.Keys| == |entries|;
    }

    method Register(tid: int) returns (future: Future)
      requires Valid()
      modifies this
      ensures Valid() && fresh(future)
      ensures created == old(created) + [future]
      ensures View() == old(View()).Register(tid)
    {
      future := new Future();
      futures := futures[tid := future];
      entries := entries[tid := |created|];
      created := created + [future];
    }

    method Resolve(response: Response) returns (given: bool)
      requires Valid()
      modifies this, created
      ensures Valid() && created == old(created)
      ensures given == old(View().Expects(response))
      ensures View() == old(View()).Resolve(response)
    {
      if response.transacId.None? || response.transacId.value !in futures {
        return false;
      }
      var tid := response.transacId.value;
      var future := futures[tid];
      futures := futures - {tid};
      entries := entries - {tid};
      if future.state != Waiting {
        return false;
      }
      future.state := Settled(response);
      return true;
    }

    /** `future` is compared by identity, whatever was registered under its id since. */
    method Abandon(tid: int, future: Future, ghost at: nat)
      requires Valid() && at < |created| && created[at] == future
      modifies this
      ensures Valid() && created == old(created)
      ensures View() == old(View()).Abandon(tid, at)
    {
      if tid in futures && futures[tid] == future {
        futures := futures - {tid};
        entries := entries - {tid};
      }
    }

    method Flush()
      requires Valid()
      modifies this, created
      ensures Valid() && created == old(created)
      ensures View() == old(View()).Flush()
    {
      var rest := futures.Keys;
      ghost var before := View();
      while rest != {}
        invariant rest <= futures.Keys && unchanged(this)
        invariant forall i :: 0 <= i < |created| ==> created[i].state == before.FailedAmong(futures.Keys - rest)[i]
        decreases rest
      {
        HasMember(rest);
        var tid :| tid in rest;
        var future := futures[tid];
        ghost var reached, at := futures.Keys - rest, before.entries[tid];
        FailedGrows(before, reached, tid);
        assert created[at] == future && future.state == before.FailedAmong(reached)[at];
        if future.state == Waiting {
          future.state := Failed;
        }
        rest := rest - {tid};
        assert futures.Keys - rest == reached + {tid};
      }
      assert futures.Keys - rest == before.entries.Keys;
      futures, entries := map[], map[];
    }
  }
}
