/** The state the client keeps across page callbacks, and the handlers that
    update it. `log` is what the client has done so far: the events it emitted
    and the calls it made to its collaborators, in order. */
module ClientSession {
  import opened Common
  import opened Events
  import opened Auth
  import opened Relay
  import opened Watchdog

  /** Every shown code as a `code` event, in order. */
  function CodeEvents(codes: seq<string>): (r: seq<Effect>)
    ensures |r| == |codes| && forall i :: 0 <= i < |codes| ==> r[i] == Code(codes[i])
  {
    seq(|codes|, i requires 0 <= i < |codes| => Code(codes[i]))
  }

  class Client {
    var log: seq<Effect>
    // `options.linkingMethod.qr.maxRetries` and the retry counter of the QR flow.
    var maxQrRetries: int
    var qrRetries: int
    // The pairing code the page last passed to `codeChanged`.
    var code: string
    // The `last_message` cell shared by the change handlers.
    var lastMessage: Option<MsgModel>
    // One-shot `change:type` listeners left by new ciphertext messages.
    var pending: multiset<string>
    var takeoverOnConflict: bool
    var takeoverTimeoutMs: int

    constructor (maxQrRetries: int, takeoverOnConflict: bool, takeoverTimeoutMs: int)
      ensures log == [] && qrRetries == 0 && code == "" && lastMessage == None && pending == multiset{}
      ensures this.maxQrRetries == maxQrRetries
      ensures this.takeoverOnConflict == takeoverOnConflict && this.takeoverTimeoutMs == takeoverTimeoutMs
    {
      log := [];
      this.maxQrRetries := maxQrRetries;
      qrRetries := 0;
      code := "";
      lastMessage := None;
      pending := multiset{};
      this.takeoverOnConflict := takeoverOnConflict;
      this.takeoverTimeoutMs := takeoverTimeoutMs;
    }

    /** The exposed `qrChanged(qr)`. */
    method OnQrChanged(token: string)
      modifies this
      ensures log == old(log) + QrStep(maxQrRetries, old(qrRetries), token).effects
      ensures qrRetries == QrStep(maxQrRetries, old(qrRetries), token).retries
      ensures maxQrRetries == old(maxQrRetries) && code == old(code) && lastMessage == old(lastMessage)
      ensures pending == old(pending)
      ensures takeoverOnConflict == old(takeoverOnConflict) && takeoverTimeoutMs == old(takeoverTimeoutMs)
    {
      log := log + [Qr(token)];
      if maxQrRetries > 0 {
        qrRetries := qrRetries + 1;
        if qrRetries > maxQrRetries {
          log := log + [Disconnected(MaxQrRetriesReason), Destroy];
        }
      }
    }

    /** The first `getCode()` of the phone-linking flow, always passed on. */
    method OnCodeShown(initial: string)
      modifies this
      ensures log == old(log) + CodeEvents(CodeRun(initial, []).emitted)
      ensures code == CodeRun(initial, []).current
      ensures maxQrRetries == old(maxQrRetries) && qrRetries == old(qrRetries) && lastMessage == old(lastMessage)
      ensures pending == old(pending)
      ensures takeoverOnConflict == old(takeoverOnConflict) && takeoverTimeoutMs == old(takeoverTimeoutMs)
    {
      log := log + [Code(initial)];
      code := initial;
    }

    /** The observer on the phone-link view: a code differing from the last one
        is passed to `codeChanged` and becomes the current code. */
    method OnCodeObserved(newCode: string)
      modifies this
      ensures log == old(log) + CodeEvents(CodeStep(CodeState([], old(code)), newCode).emitted)
      ensures code == CodeStep(CodeState([], old(code)), newCode).current
      ensures maxQrRetries == old(maxQrRetries) && qrRetries == old(qrRetries) && lastMessage == old(lastMessage)
      ensures pending == old(pending)
      ensures takeoverOnConflict == old(takeoverOnConflict) && takeoverTimeoutMs == old(takeoverTimeoutMs)
    {
      if newCode != code {
        log := log + [Code(newCode)];
        code := newCode;
      }
    }

    /** A store event: the page-side listener decides which host functions run,
        and each of them emits its events and may move `last_message`. */
    method OnStoreEvent(e: StoreEvent)
      modifies this
      ensures log == old(log) + HandleAll(old(lastMessage), Route(old(pending), e).calls).effects
      ensures lastMessage == HandleAll(old(lastMessage), Route(old(pending), e).calls).last
      ensures pending == Route(old(pending), e).pending
      ensures maxQrRetries == old(maxQrRetries) && qrRetries == old(qrRetries) && code == old(code)
      ensures takeoverOnConflict == old(takeoverOnConflict) && takeoverTimeoutMs == old(takeoverTimeoutMs)
    {
      var routed := Route(pending, e);
      var handled := HandleAll(lastMessage, routed.calls);
      log := log + handled.effects;
      lastMessage := handled.last;
      pending := routed.pending;
    }

    /** `onAppStateChangedEvent(state)`. */
    method OnAppStateChanged(state: string)
      modifies this
      ensures log == old(log) + AppStateChangedEffects(state, takeoverOnConflict, takeoverTimeoutMs)
      ensures maxQrRetries == old(maxQrRetries) && qrRetries == old(qrRetries) && code == old(code)
      ensures lastMessage == old(lastMessage) && pending == old(pending)
      ensures takeoverOnConflict == old(takeoverOnConflict) && takeoverTimeoutMs == old(takeoverTimeoutMs)
    {
      log := log + [ChangeState(state)];
      if takeoverOnConflict && state == Conflict {
        log := log + [TakeoverScheduled(takeoverTimeoutMs)];
      }
      var accepted := AcceptedStates(takeoverOnConflict);
      if state !in accepted {
        log := log + DisconnectSequence(state);
      }
    }

    /** The `framenavigated` guard, given the page's `getState()`. */
    method OnFrameNavigated(appState: Option<string>)
      modifies this
      ensures log == old(log) + FrameNavigatedEffects(appState)
      ensures maxQrRetries == old(maxQrRetries) && qrRetries == old(qrRetries) && code == old(code)
      ensures lastMessage == old(lastMessage) && pending == old(pending)
      ensures takeoverOnConflict == old(takeoverOnConflict) && takeoverTimeoutMs == old(takeoverTimeoutMs)
    {
      if !Truthy(appState) || appState.value == Pairing {
        log := log + DisconnectSequence(NavigationReason);
      }
    }

    /** `logout()`: `isConnected(k)` is the browser's answer at the k-th check
        of the wait loop; `polls` is how many 100 ms waits were made. */
    method Logout(isConnected: nat -> bool) returns (polls: nat)
      modifies this
      ensures log == old(log) + LogoutEffects
      ensures polls <= MaxLogoutPolls && (forall k :: 0 <= k < polls ==> isConnected(k))
      ensures polls < MaxLogoutPolls ==> !isConnected(polls)
      ensures maxQrRetries == old(maxQrRetries) && qrRetries == old(qrRetries) && code == old(code)
      ensures lastMessage == old(lastMessage) && pending == old(pending)
      ensures takeoverOnConflict == old(takeoverOnConflict) && takeoverTimeoutMs == old(takeoverTimeoutMs)
    {
      log := log + [AppStateLogout, BrowserClose];
      polls := LogoutPoll(isConnected);
      log := log + [StrategyLogout];
    }
  }
}
