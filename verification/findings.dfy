/**
 * A dangling handler's recovery timer can fire after its collaboration was
 * cleaned up by another client and its id opened afresh. `cleanup_closed`
 * as written then unregisters the newer collaboration; the corrected
 * cleanup leaves it registered.
 */
module Findings {
  import opened Wire
  import opened Datastore

  /**
   * The state a stale recovery timer of `first` finds: its collaboration on a
   * file-backed store has no clients left and its id now names the newer
   * collaboration `latecomer` is connected to.
   */
  ghost predicate StaleTimer(first: Handler, latecomer: Handler)
    reads first, latecomer, first.collaboration, latecomer.collaboration, first.registry
  {
    && first.collaboration != null && latecomer.collaboration != null
    && first.datastoreFile != MemoryStore && first.collaboration.handlers == {}
    && first.collaborationId.Some? && first.collaborationId.value != ""
    && latecomer.registry == first.registry && latecomer.collaborationId == first.collaborationId
    && latecomer.collaboration != first.collaboration && latecomer in latecomer.collaboration.handlers
    && first.collaborationId.value in first.registry.collaborations
    && first.registry.collaborations[first.collaborationId.value] == latecomer.collaboration
  }

  /**
   * Two clients join "x" on a file-backed store; the first drops uncleanly
   * and dangles, the second closes cleanly and "x" is cleaned up, while the
   * first client's recovery timer is still pending.
   */
  method CleanedUpWhileDangling() returns (first: Handler, stale: Collaboration)
    ensures fresh(first.registry) && fresh(stale)
    ensures first.registry.collaborations == map[]
    ensures first.collaboration == stale && stale.handlers == {} && first in stale.dangling
    ensures first.collaborationId == Some("x") && first.datastoreFile == "collab.db"
  {
    var registry := new Registry();
    first := new Handler(registry, Some("collab.db"), None);
    var second := new Handler(registry, Some("collab.db"), None);
    first.Open(Some("x"), "fresh-1");
    stale := first.collaboration;
    second.Open(Some("x"), "fresh-2");
    var s := first.OnClose(Some(1006), 0, 1);
    s := second.OnClose(Some(1000), 10, 2);
  }

  /**
   * The stale state is reachable: after the cleanup above, a third client
   * opens "x" again and gets a new collaboration before the first client's
   * recovery timer fires.
   */
  method ReachStaleTimer() returns (first: Handler, latecomer: Handler)
    ensures StaleTimer(first, latecomer)
    ensures latecomer.collaborationId == Some("x")
  {
    var stale;
    first, stale := CleanedUpWhileDangling();
    latecomer := new Handler(first.registry, Some("collab.db"), None);
    latecomer.Open(Some("x"), "fresh-3");
  }

  /**
   * When the stale timer runs `cleanup_closed` as written, the registry loses
   * the id although the latecomer is still connected under it, so the next
   * client to open that id is put in a different collaboration.
   */
  method StaleCleanupAsWritten(first: Handler, latecomer: Handler) returns (status: Status)
    requires StaleTimer(first, latecomer)
    modifies first`collaboration, first.collaboration, first.registry
    ensures status == Ok
    ensures latecomer.collaboration != null && latecomer in latecomer.collaboration.handlers
    ensures latecomer.collaborationId.value !in latecomer.registry.collaborations
  {
    status := first.CleanupClosedAsWritten();
  }

  /** With the corrected cleanup the id still names the latecomer's collaboration. */
  method StaleCleanupCorrected(first: Handler, latecomer: Handler) returns (status: Status)
    requires StaleTimer(first, latecomer)
    modifies first`collaboration, first.collaboration, first.registry
    ensures status == Ok
    ensures latecomer.collaboration != null && latecomer in latecomer.collaboration.handlers
    ensures latecomer.collaborationId.value in latecomer.registry.collaborations
    ensures latecomer.registry.collaborations[latecomer.collaborationId.value] == latecomer.collaboration
  {
    status := first.CleanupClosed();
  }
}
