/** The connection watchdog: the host's reaction to application-state changes
    (`onAppStateChangedEvent`), the navigation guard installed once the client
    is ready (`framenavigated`), and the bounded wait of `logout`. */
module Watchdog {
  import opened Common
  import opened Events

  // The WAState values the watchdog names.
  const Connected := "CONNECTED"
  const Opening := "OPENING"
  const Pairing := "PAIRING"
  const Timeout := "TIMEOUT"
  const Conflict := "CONFLICT"
  const NavigationReason := "NAVIGATION"
  /** The bound on `maxDelay` in the wait loop of `logout`. */
  const MaxLogoutPolls := 10

  /** `ACCEPTED_STATES`, built afresh on every call: the four base states, and
      `CONFLICT` too when takeover on conflict is enabled. */
  function AcceptedStates(takeoverOnConflict: bool): (r: set<string>)
    ensures {Connected, Opening, Pairing, Timeout} <= r
    ensures Conflict in r <==> takeoverOnConflict
    ensures |r| == if takeoverOnConflict then 5 else 4
  {
    var base := {Connected, Opening, Pairing, Timeout};
    if takeoverOnConflict then base + {Conflict} else base
  }

  /** `onAppStateChangedEvent`: `change_state` first; a takeover timer when
      takeover is enabled and the state is `CONFLICT`; then, for a state outside
      the accepted set, disconnect the strategy, emit `disconnected` with the
      state, and destroy. */
  function AppStateChangedEffects(state: string, takeoverOnConflict: bool, takeoverTimeoutMs: int): seq<Effect> {
    [ChangeState(state)] +
    (if takeoverOnConflict && state == Conflict then [TakeoverScheduled(takeoverTimeoutMs)] else []) +
    (if state !in AcceptedStates(takeoverOnConflict) then DisconnectSequence(state) else [])
  }

  /** Every state change is reported first; a disconnect happens exactly for
      the states outside the accepted set and is then the last three effects;
      a takeover is scheduled exactly on `CONFLICT` with takeover enabled, and
      then never together with a disconnect. */
  lemma AppStateChangeOutcome(state: string, takeoverOnConflict: bool, ms: int)
    ensures var e := AppStateChangedEffects(state, takeoverOnConflict, ms);
      e[0] == ChangeState(state) &&
      (!NoDisconnect(e) <==> state !in AcceptedStates(takeoverOnConflict)) &&
      (!NoDisconnect(e) ==> e[|e| - 3..] == DisconnectSequence(state) && e[|e| - 2] == Disconnected(state)) &&
      (TakeoverScheduled(ms) in e <==> takeoverOnConflict && state == Conflict) &&
      (TakeoverScheduled(ms) in e ==> e == [ChangeState(state), TakeoverScheduled(ms)])
  {
    var e := AppStateChangedEffects(state, takeoverOnConflict, ms);
    var head := [ChangeState(state)] + (if takeoverOnConflict && state == Conflict then [TakeoverScheduled(ms)] else []);
    assert NoDisconnect(head);
    if state !in AcceptedStates(takeoverOnConflict) {
      assert e == head + DisconnectSequence(state);
      assert IsDisconnect(e[|e| - 2]);
    } else {
      assert e == head;
    }
  }

  /** The accepted set depends on the current option only: a `CONFLICT` is
      fatal without takeover and never fatal with it, however often it recurs. */
  lemma ConflictIsFatalIffNoTakeover(takeoverOnConflict: bool, ms: int)
    ensures NoDisconnect(AppStateChangedEffects(Conflict, takeoverOnConflict, ms)) <==> takeoverOnConflict
  {
    AppStateChangeOutcome(Conflict, takeoverOnConflict, ms);
  }

  /** The `framenavigated` guard: when `getState()` is falsy (no store, or no
      state) or `PAIRING`, disconnect with the reason `NAVIGATION`. */
  function FrameNavigatedEffects(appState: Option<string>): (r: seq<Effect>)
    ensures r == [] || r == DisconnectSequence(NavigationReason)
  {
    if !Truthy(appState) || appState.value == Pairing then DisconnectSequence(NavigationReason) else []
  }

  lemma NavigationDisconnectsIffUnpairedOrMissing(appState: Option<string>)
    ensures FrameNavigatedEffects(appState) != [] <==>
              appState == None || appState == Some("") || appState == Some(Pairing)
  {
  }

  /** The wait loop of `logout`: `isConnected(k)` is the browser's answer at
      the k-th check. The loop stops at the first disconnected answer or after
      ten 100 ms waits, whichever comes first. */
  method LogoutPoll(isConnected: nat -> bool) returns (polls: nat)
    ensures polls <= MaxLogoutPolls
    ensures forall k :: 0 <= k < polls ==> isConnected(k)
    ensures polls < MaxLogoutPolls ==> !isConnected(polls)
  {
    polls := 0;
    while isConnected(polls) && polls < MaxLogoutPolls
      invariant polls <= MaxLogoutPolls
      invariant forall k :: 0 <= k < polls ==> isConnected(k)
      decreases MaxLogoutPolls - polls
    {
      polls := polls + 1;
    }
  }

  /** The effects of `logout`, in order: the page's own logout, closing the
      browser, then (after the wait) the strategy's logout. */
  const LogoutEffects: seq<Effect> := [AppStateLogout, BrowserClose, StrategyLogout]
}
