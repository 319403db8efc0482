/** The authentication part of `Client.initialize`: the race between the main
    UI landmark and the pairing landmark, the auth-failure path with its
    optional restart, the QR retry counter and the de-duplication of phone
    linking codes. The stateful parts are driven by `ClientSession.Client`;
    this module gives the functions that specify them. */
module Auth {
  import opened Common
  import opened Events

  // ---- detection race ----

  datatype Landmark = MainUi | PairingUi

  /** How one of the two `waitForSelector` calls settled. */
  datatype Settlement = Appeared(landmark: Landmark) | WaitFailed(landmark: Landmark, error: string)

  /** The value the race promise holds: still pending, or settled with the
      first wait's outcome (`false`, `true`, or the error). */
  datatype RaceCell = Pending | Settled(first: Settlement)

  /** One settlement reaching the race promise: a promise settles once, later
      settlements are discarded. */
  function Settle(cell: RaceCell, s: Settlement): RaceCell {
    if cell.Pending? then Settled(s) else cell
  }

  /** The race promise after the settlements arrived in the order given. */
  function RaceAfter(settlements: seq<Settlement>): RaceCell
    decreases |settlements|
  {
    if settlements == [] then Pending
    else Settle(RaceAfter(settlements[..|settlements| - 1]), settlements[|settlements| - 1])
  }

  /** The first settlement decides the race; everything after it is ignored. */
  lemma {:induction false} FirstSettlementWins(settlements: seq<Settlement>)
    ensures settlements == [] ==> RaceAfter(settlements) == Pending
    ensures settlements != [] ==> RaceAfter(settlements) == Settled(settlements[0])
    decreases |settlements|
  {
    if |settlements| > 1 {
      var init := settlements[..|settlements| - 1];
      FirstSettlementWins(init);
      assert init[0] == settlements[0];
    }
  }

  datatype Detection = AlreadyAuthenticated | NeedsPairing | DetectionFailed(error: string) | Undecided

  /** `needAuthentication instanceof Error` throws; otherwise `false` (main UI)
      means the session is authenticated and `true` (pairing UI) that pairing
      is needed. */
  function Detect(settlements: seq<Settlement>): (d: Detection)
    ensures settlements == [] <==> d == Undecided
  {
    match RaceAfter(settlements)
    case Pending => FirstSettlementWins(settlements); Undecided
    case Settled(s) =>
      match s
      case WaitFailed(_, e) => DetectionFailed(e)
      case Appeared(MainUi) => AlreadyAuthenticated
      case Appeared(PairingUi) => NeedsPairing
  }

  /** The race is exclusive: in either order of two landmark events, the one
      that fired first decides and the other is ignored. */
  lemma DetectionIsExclusive(a: Settlement, b: Settlement)
    ensures Detect([a, b]) == Detect([a])
    ensures Detect([Appeared(PairingUi), Appeared(MainUi)]) == NeedsPairing
    ensures Detect([Appeared(MainUi), Appeared(PairingUi)]) == AlreadyAuthenticated
    ensures Detect([WaitFailed(MainUi, "timeout"), Appeared(PairingUi)]) == DetectionFailed("timeout")
  {
    FirstSettlementWins([a, b]);
    FirstSettlementWins([a]);
    FirstSettlementWins([Appeared(PairingUi), Appeared(MainUi)]);
    FirstSettlementWins([Appeared(MainUi), Appeared(PairingUi)]);
    FirstSettlementWins([WaitFailed(MainUi, "timeout"), Appeared(PairingUi)]);
  }

  // ---- linking method, auth failure and restart ----

  /** The configured linking method: a QR login with its retry bound, or a
      phone-number linking. `isQR()` tells them apart. */
  datatype LinkingMethod = QrLinking(maxRetries: int) | PhoneLinking(number: string)

  /** `authStrategy.onAuthenticationNeeded()`. */
  datatype AuthNeeded = AuthNeeded(failed: bool, failureEventPayload: string, restart: bool)

  /** How the final unbounded `waitForSelector(INTRO_IMG_SELECTOR)` after the
      pairing flow ended. */
  datatype ScanWait = MainUiShown | TargetClosed | ScanWaitError(error: string)

  /** What the world answers during one run of `initialize`. */
  datatype Attempt = Attempt(
    settlements: seq<Settlement>,
    onAuthNeeded: AuthNeeded,
    scan: ScanWait,
    authEventPayload: string)

  /** How a run of `initialize` (with its restarts) ends: it reaches `ready`,
      rejects with an error, returns early, or is still waiting. */
  datatype InitOutcome = ReachedReady | Rejected(error: string) | Returned | Waiting

  datatype InitRun = InitRun(effects: seq<Effect>, outcome: InitOutcome, attemptsUsed: nat)

  /** The events `initialize` emits once the session is authenticated: the
      `authenticated` event with the strategy's payload, `ready`, then the
      strategy's after-ready hook. */
  function ReadyEffects(payload: string): seq<Effect> {
    [Authenticated(payload), Ready, StrategyAfterAuthReady]
  }

  function PairingStart(linking: LinkingMethod): Effect {
    match linking
    case QrLinking(_) => StartQrLogin
    case PhoneLinking(number) => StartPhoneLinking(number)
  }

  /** `initialize`, one attempt per call; `return this.initialize()` after an auth
      failure whose strategy asks for a restart consumes the next attempt. */
  function Initialize(linking: LinkingMethod, attempts: seq<Attempt>): (r: InitRun)
    decreases |attempts|
    ensures r.attemptsUsed <= |attempts|
    ensures attempts != [] ==> r.attemptsUsed >= 1
  {
    if attempts == [] then InitRun([], Waiting, 0)
    else
      var a := attempts[0];
      match Detect(a.settlements)
      case Undecided => InitRun([], Waiting, 1)
      case DetectionFailed(e) => InitRun([], Rejected(e), 1)
      case AlreadyAuthenticated => InitRun(ReadyEffects(a.authEventPayload), ReachedReady, 1)
      case NeedsPairing =>
        if a.onAuthNeeded.failed then
          var here := [AuthFailure(a.onAuthNeeded.failureEventPayload), Destroy];
          if a.onAuthNeeded.restart then
            var rest := Initialize(linking, attempts[1..]);
            InitRun(here + rest.effects, rest.outcome, 1 + rest.attemptsUsed)
          else InitRun(here, Returned, 1)
        else
          var start := [PairingStart(linking)];
          match a.scan
          case TargetClosed => InitRun(start, Returned, 1)
          case ScanWaitError(e) => InitRun(start, Rejected(e), 1)
          case MainUiShown => InitRun(start + ReadyEffects(a.authEventPayload), ReachedReady, 1)
  }

  /** An attempt that ended in an auth failure with a restart request. */
  predicate FailedWithRestart(a: Attempt) {
    Detect(a.settlements) == NeedsPairing && a.onAuthNeeded.failed && a.onAuthNeeded.restart
  }

  /** `initialize` runs again only after an auth failure whose strategy asked for
      a restart: every attempt but the last one consumed failed that way. */
  lemma {:induction false} RestartOnlyWhenRequested(linking: LinkingMethod, attempts: seq<Attempt>)
    ensures var r := Initialize(linking, attempts);
      forall i :: 0 <= i < r.attemptsUsed - 1 ==> FailedWithRestart(attempts[i])
    decreases |attempts|
  {
    if attempts != [] {
      var a := attempts[0];
      if FailedWithRestart(a) {
        RestartOnlyWhenRequested(linking, attempts[1..]);
        var r := Initialize(linking, attempts);
        forall i | 1 <= i < r.attemptsUsed - 1
          ensures FailedWithRestart(attempts[i])
        {
          assert attempts[1..][i - 1] == attempts[i];
        }
      }
    }
  }

  /** Unfolding one restart: the failing attempt contributes `auth_failure` and
      `destroy`, then the re-run on the remaining attempts follows. */
  lemma UnfoldRestart(linking: LinkingMethod, attempts: seq<Attempt>)
    requires attempts != [] && FailedWithRestart(attempts[0])
    ensures var r := Initialize(linking, attempts);
      var rest := Initialize(linking, attempts[1..]);
      r.effects == [AuthFailure(attempts[0].onAuthNeeded.failureEventPayload), Destroy] + rest.effects &&
      r.outcome == rest.outcome && r.attemptsUsed == 1 + rest.attemptsUsed
  {
  }

  /** A run reaches `ready` iff its trace ends with the ready events of the
      attempt that got there; otherwise no `ready` is ever emitted. */
  lemma {:induction false} InitializeTrace(linking: LinkingMethod, attempts: seq<Attempt>)
    ensures var r := Initialize(linking, attempts);
      (r.outcome == ReachedReady ==>
         |r.effects| >= 3 && r.effects[|r.effects| - 3..] == ReadyEffects(attempts[r.attemptsUsed - 1].authEventPayload)) &&
      (r.outcome != ReachedReady ==> forall i :: 0 <= i < |r.effects| ==> r.effects[i] != Ready)
    decreases |attempts|
  {
    if attempts != [] && FailedWithRestart(attempts[0]) {
      InitializeTrace(linking, attempts[1..]);
      UnfoldRestart(linking, attempts);
      var rest := Initialize(linking, attempts[1..]);
      var r := Initialize(linking, attempts);
      if rest.outcome == ReachedReady {
        assert r.effects[|r.effects| - 3..] == rest.effects[|rest.effects| - 3..];
        assert attempts[1..][rest.attemptsUsed - 1] == attempts[r.attemptsUsed - 1];
      } else {
        forall i | 0 <= i < |r.effects| ensures r.effects[i] != Ready {
          if i >= 2 {
            assert r.effects[i] == rest.effects[i - 2];
          }
        }
      }
    }
  }

  /** An auth failure without a restart request stops at once, after exactly
      `auth_failure` and `destroy`. */
  lemma FailureWithoutRestartStops(linking: LinkingMethod, attempts: seq<Attempt>)
    requires attempts != [] && Detect(attempts[0].settlements) == NeedsPairing
    requires attempts[0].onAuthNeeded.failed && !attempts[0].onAuthNeeded.restart
    ensures Initialize(linking, attempts) ==
            InitRun([AuthFailure(attempts[0].onAuthNeeded.failureEventPayload), Destroy], Returned, 1)
  {
  }

  /** An already authenticated session never emits `auth_failure` and reaches
      `ready` on its first attempt. */
  lemma AuthenticatedSessionGoesStraightToReady(linking: LinkingMethod, attempts: seq<Attempt>)
    requires attempts != [] && Detect(attempts[0].settlements) == AlreadyAuthenticated
    ensures Initialize(linking, attempts) ==
            InitRun(ReadyEffects(attempts[0].authEventPayload), ReachedReady, 1)
  {
  }

  // ---- QR retries ----

  const MaxQrRetriesReason := "Max qrcode retries reached"

  datatype QrState = QrState(effects: seq<Effect>, retries: int)

  /** One call of the exposed `qrChanged(qr)`: emit `qr`, and when the bound is
      positive count the call and disconnect once the count exceeds it. */
  function QrStep(maxRetries: int, retries: int, token: string): (r: QrState)
    ensures |r.effects| >= 1 && r.effects[0] == Qr(token)
    ensures r.retries >= retries
  {
    if maxRetries > 0 then
      var n := retries + 1;
      QrState([Qr(token)] + (if n > maxRetries then [Disconnected(MaxQrRetriesReason), Destroy] else []), n)
    else QrState([Qr(token)], retries)
  }

  /** `qrChanged` called once per token, starting from a fresh counter. */
  function QrRun(maxRetries: int, tokens: seq<string>): QrState
    decreases |tokens|
  {
    if tokens == [] then QrState([], 0)
    else
      var before := QrRun(maxRetries, tokens[..|tokens| - 1]);
      var step := QrStep(maxRetries, before.retries, tokens[|tokens| - 1]);
      QrState(before.effects + step.effects, step.retries)
  }

  /** The QR tokens carried by the `qr` events of a trace, in order. */
  function QrTokens(effects: seq<Effect>): seq<string>
    decreases |effects|
  {
    if effects == [] then []
    else QrTokens(effects[..|effects| - 1]) + (if effects[|effects| - 1].Qr? then [effects[|effects| - 1].token] else [])
  }

  lemma {:induction false} QrTokensAppend(a: seq<Effect>, b: seq<Effect>)
    ensures QrTokens(a + b) == QrTokens(a) + QrTokens(b)
    decreases |b|
  {
    if b == [] {
      assert a + b == a;
    } else {
      var b' := b[..|b| - 1];
      assert (a + b)[..|a + b| - 1] == a + b';
      QrTokensAppend(a, b');
    }
  }

  /** One `qrChanged` call emits exactly one `qr` event. */
  lemma StepHasOneQr(maxRetries: int, retries: int, token: string)
    ensures QrTokens(QrStep(maxRetries, retries, token).effects) == [token]
  {
    var effects := QrStep(maxRetries, retries, token).effects;
    QrTokensAppend([Qr(token)], effects[1..]);
    assert effects == [Qr(token)] + effects[1..];
    assert QrTokens([Qr(token)]) == [token] by {
      assert [Qr(token)][..0] == [];
    }
    assert QrTokens(effects[1..]) == [] by {
      var t := effects[1..];
      if t != [] {
        assert t == [Disconnected(MaxQrRetriesReason), Destroy];
        assert t[..1] == [Disconnected(MaxQrRetriesReason)];
        assert t[..1][..0] == [];
      }
    }
  }

  /** Every `qrChanged(token)` emits exactly one `qr` event carrying `token`. */
  lemma {:induction false} OneQrEventPerToken(maxRetries: int, tokens: seq<string>)
    ensures QrTokens(QrRun(maxRetries, tokens).effects) == tokens
    decreases |tokens|
  {
    if tokens != [] {
      var init := tokens[..|tokens| - 1];
      OneQrEventPerToken(maxRetries, init);
      var before := QrRun(maxRetries, init);
      var step := QrStep(maxRetries, before.retries, tokens[|tokens| - 1]);
      QrTokensAppend(before.effects, step.effects);
      StepHasOneQr(maxRetries, before.retries, tokens[|tokens| - 1]);
      assert init + [tokens[|tokens| - 1]] == tokens;
    }
  }

  /** With a bound of at most zero the counter never moves and the client never
      disconnects for QR retries. */
  lemma {:induction false} NoBoundNeverDisconnects(maxRetries: int, tokens: seq<string>)
    requires maxRetries <= 0
    ensures NoDisconnect(QrRun(maxRetries, tokens).effects)
    ensures QrRun(maxRetries, tokens).retries == 0
    decreases |tokens|
  {
    if tokens != [] {
      NoBoundNeverDisconnects(maxRetries, tokens[..|tokens| - 1]);
    }
  }

  /** With a bound `k > 0` the counter after `n` calls is `n`, and calls `1..k`
      never disconnect. */
  lemma {:induction false} BoundedRunCountsCalls(k: int, tokens: seq<string>)
    requires k > 0
    ensures QrRun(k, tokens).retries == |tokens|
    ensures |tokens| <= k ==> NoDisconnect(QrRun(k, tokens).effects)
    decreases |tokens|
  {
    if tokens != [] {
      BoundedRunCountsCalls(k, tokens[..|tokens| - 1]);
    }
  }

  /** With a bound `k > 0`, the first `disconnected("Max qrcode retries
      reached")` is emitted by call `k + 1`: the first `k` calls emit none, and
      call `k + 1` emits `qr` then the disconnect and `destroy`. */
  lemma FirstDisconnectOnCallAfterBound(k: int, tokens: seq<string>)
    requires k > 0 && |tokens| > k
    ensures NoDisconnect(QrRun(k, tokens[..k]).effects)
    ensures QrRun(k, tokens[..k + 1]).effects ==
            QrRun(k, tokens[..k]).effects + [Qr(tokens[k]), Disconnected(MaxQrRetriesReason), Destroy]
  {
    BoundedRunCountsCalls(k, tokens[..k]);
    assert tokens[..k + 1][..k] == tokens[..k];
  }

  // ---- phone linking codes ----

  datatype CodeState = CodeState(emitted: seq<string>, current: string)

  /** The page's observer: a code is passed to `codeChanged` only when it differs
      from the last one passed, which then becomes the current code. */
  function CodeStep(st: CodeState, newCode: string): (r: CodeState)
    ensures r.current == newCode
  {
    if newCode != st.current then CodeState(st.emitted + [newCode], newCode) else st
  }

  /** The initial `getCode()` is always emitted; each later observation goes
      through `CodeStep`. */
  function CodeRun(initial: string, observed: seq<string>): CodeState
    decreases |observed|
  {
    if observed == [] then CodeState([initial], initial)
    else CodeStep(CodeRun(initial, observed[..|observed| - 1]), observed[|observed| - 1])
  }

  /** Consecutive duplicates removed: an independent reference definition. */
  function Dedup(s: seq<string>): seq<string>
    decreases |s|
  {
    if |s| <= 1 then s
    else if s[|s| - 1] == s[|s| - 2] then Dedup(s[..|s| - 1])
    else Dedup(s[..|s| - 1]) + [s[|s| - 1]]
  }

  lemma {:induction false} DedupLast(s: seq<string>)
    requires s != []
    ensures Dedup(s) != [] && Dedup(s)[|Dedup(s)| - 1] == s[|s| - 1]
    decreases |s|
  {
    if |s| > 1 {
      DedupLast(s[..|s| - 1]);
    }
  }

  /** The emitted codes are exactly the shown codes with consecutive repeats
      removed, and the page's current code is always the last code shown. */
  lemma {:induction false} CodesAreDeduplicated(initial: string, observed: seq<string>)
    ensures CodeRun(initial, observed).emitted == Dedup([initial] + observed)
    ensures CodeRun(initial, observed).current == ([initial] + observed)[|observed|]
    decreases |observed|
  {
    if observed != [] {
      var init := observed[..|observed| - 1];
      CodesAreDeduplicated(initial, init);
      var s := [initial] + observed;
      assert s[..|s| - 1] == [initial] + init;
      DedupLast([initial] + init);
    }
  }

  /** No two consecutive emitted codes are equal. */
  lemma {:induction false} DedupHasNoRepeats(s: seq<string>)
    ensures forall i :: 0 <= i < |Dedup(s)| - 1 ==> Dedup(s)[i] != Dedup(s)[i + 1]
    decreases |s|
  {
    if |s| > 1 {
      var init := s[..|s| - 1];
      DedupHasNoRepeats(init);
      DedupLast(init);
    }
  }
}
