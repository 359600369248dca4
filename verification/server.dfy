/** The MCP server as a whole: the writes that leave, over the cache the event loop keeps. */
module Server {
  import opened Collections
  import opened EventLoop
  import EventLoopInv
  import EventLoopRuns
  import EventLoopTheorems
  import Writes
  import WritesGate

  /**
   In every reachable state of the event loop, a write that may leave is decided by the
   config of the cache alone, for a target of that config, and the cache was resynced by the
   attempt of the routine now running.
   */
  lemma WritesSeeAResyncedCache(s: Loop, call: Writes.Call, now: real)
    requires EventLoopRuns.Reachable(s) && Writes.Prepare(s.cache, call).Ready?
    ensures s.routine.Refreshing? || s.routine.Resting?
    ensures EventLoopTheorems.ResyncedBy(s, s.routine.first, s.routine.marks)
    ensures s.cache.content.config.Some?
    ensures Writes.Prepare(s.cache, call) == WritesGate.Decision(s.cache.content.config.value, call)
    ensures WritesGate.Checked(Writes.Sent(now, Writes.Prepare(s.cache, call).request, s.cache, call))
  {
    EventLoopRuns.ReachableInv(s);
    EventLoopTheorems.FreshMeansResynced(s);
    WritesGate.ReadyIsChecked(s.cache, call, now);
    WritesGate.InstallationNeverDisagrees(EventLoopInv.OpsAt(s.wire, s.applied), s.cache, call);
  }
}
