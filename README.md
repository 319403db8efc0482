# mywajs client core, modelled in Dafny

This project models the decision logic of the `Client` class of mywajs, a
WhatsApp Web automation library, and of its file-backed web-version cache
`LocalWebCache`. The browser, the page scripts and the WhatsApp stores are
abstract: each thing the client learns from them is a parameter (a lookup
answer, a store event, a probe result), and everything the client does is
recorded as an `Effect`. An `Effect` is either an event it emits or a call
it makes to a collaborator (the auth strategy, the browser, a timer).

Modules, one per part of the client:

- `Common`: option and result types, JavaScript truthiness, and the string
  operations the client uses (`startsWith`, `endsWith`, `includes`,
  single `replace`).
- `Events`: the effect union and the message, chat and reaction models the
  handlers receive.
- `WwebVersions`: the page helper `compareWwebVersions`. Its padding loop is
  a method proved against a padding function.
- `Auth`: the authentication part of `initialize`. This covers:
  - the race between the two landmarks;
  - auth failure with an optional restart;
  - the QR retry bound;
  - de-duplication of phone-linking codes.
- `Relay`: the host handlers of the page events, the shared `last_message`
  cell, and the page-side listeners that decide which handler runs. The
  listeners include the one-shot deferral of ciphertext messages and the
  reaction wrapper.
- `Watchdog`: the application-state rule, the navigation guard, and the
  bounded wait in `logout`.
- `SendMessage`: the content classification of `sendMessage`, its option
  mapping, and the sticker metadata fallback.
- `Commands`: the smaller commands of the client:
  - constructor defaults;
  - `createGroup`;
  - label queries and the action list of `addOrRemoveLabels`;
  - number normalisation;
  - `getName`;
  - invite and message-id validation.
- `Chats`: `pinChat` and `unpinChat` run against the chat collection, held as
  an array.
- `ClientSession`: the class `Client`, whose fields are the state the
  callbacks share. That state is:
  - the effect log;
  - the QR retry counter;
  - the current pairing code;
  - `last_message`;
  - the pending ciphertext listeners.
  Each callback method is tied to the specification function of its module.
- `WebVersionCache`: the class `LocalWebCache`. The cache directory is a map
  from path to content. Its `persist` parses the version out of the page
  with the manifest regular expression.

Where the code and its own documentation disagree, the model follows the
code:

- The default cache path is `./.mywajs_cache/` (the doc comment says
  `./.wwebjs_cache/`).

## Model

| member | source | states |
|---|---|---|
| WwebVersions.StripBeta | src/Client.js:490-491 | a trailing `-beta` is removed and nothing else; other text is unchanged |
| WwebVersions.PadToSameLength | src/Client.js:493-497 | the loop ends with both operands as long as the longer one, each right-padded with `0` |
| WwebVersions.Compare | src/Client.js:477-510 | the reference comparison: an invalid operator, then a non-string operand, is an error; otherwise the operator is applied to the `-beta`-stripped, zero-padded, dot-free operands read as naturals. It has no contract of its own; `WwebVersions.CompareWwebVersions`, `WwebVersions.CompareErrors`, `WwebVersions.BetaSuffixIsIgnored`, `WwebVersions.ConverseOperators`, `WwebVersions.OperatorsAreComplementary` and `WwebVersions.SameLengthComparesDigits` state its properties |
| WwebVersions.CompareWwebVersions | src/Client.js:477-510 | the page helper, step by step, returns exactly the reference comparison `Compare` |
| WwebVersions.CompareErrors | src/Client.js:478-488 | it throws iff the operator is not one of the five or an operand is not a string; the operator check comes first and each case has its own message |
| WwebVersions.BetaSuffixIsIgnored | src/Client.js:490-491 | appending `-beta` to either operand never changes the outcome |
| WwebVersions.EqualIsReflexive | src/Client.js:502-509 | `v = v` holds for every version |
| WwebVersions.ConverseOperators | src/Client.js:493-509 | `a < b` iff `b > a`, and `a <= b` iff `b >= a` |
| WwebVersions.OperatorsAreComplementary | src/Client.js:502-509 | `<=` is the negation of `>`, `>=` of `<`, and `=` holds iff both `<=` and `>=` hold |
| WwebVersions.SameLengthComparesDigits | src/Client.js:499-509 | operands of equal length compare as the numbers their digits spell |
| WwebVersions.PaddingScalesByTen | src/Client.js:493-500 | padding with `k` zeros multiplies the digit value by 10^k |
| WwebVersions.PaddedOperandValue | src/Client.js:493-500 | the padded, dot-free operand is the unpadded digit value scaled by ten per added zero |
| Auth.FirstSettlementWins | src/Client.js:219-237 | the race promise holds the first settlement; later settlements are ignored |
| Auth.Detect | src/Client.js:219-240 | the detection is undecided exactly when nothing has settled yet |
| Auth.DetectionIsExclusive | src/Client.js:219-240 | of two settlements, the first decides; the main UI first means authenticated, the pairing UI first means pairing, an error first is thrown |
| Auth.Initialize | src/Client.js:219-456 | a run never uses more attempts than given, and uses at least one when given any |
| Auth.RestartOnlyWhenRequested | src/Client.js:242-258 | `initialize` runs again only after an auth failure whose strategy asked for a restart |
| Auth.UnfoldRestart | src/Client.js:242-255 | a restarting failure emits `auth_failure`, destroys, and then the re-run's trace follows |
| Auth.InitializeTrace | src/Client.js:878-883 | a run reaches ready iff its trace ends with `authenticated`, `ready` and the after-ready hook of the successful attempt; otherwise `ready` never appears |
| Auth.FailureWithoutRestartStops | src/Client.js:242-257 | an auth failure without restart ends the run after exactly `auth_failure` and `destroy` |
| Auth.AuthenticatedSessionGoesStraightToReady | src/Client.js:219-241 | an already authenticated session reaches ready on its first attempt without `auth_failure` |
| Auth.QrStep | src/Client.js:264-278 | every `qrChanged` call emits `qr` with its token first, and the counter never decreases |
| Auth.QrRun | src/Client.js:264-278 | the state after a sequence of `qrChanged` calls, one `Auth.QrStep` per token from an empty log and a zero counter. It has no contract of its own; `Auth.OneQrEventPerToken`, `Auth.NoBoundNeverDisconnects`, `Auth.BoundedRunCountsCalls` and `Auth.FirstDisconnectOnCallAfterBound` state its properties |
| Auth.OneQrEventPerToken | src/Client.js:264-278 | the `qr` events of a run carry exactly the tokens received, in order |
| Auth.StepHasOneQr | src/Client.js:264-278 | a single `qrChanged` call emits exactly one `qr` event, carrying its token, whether or not it disconnects |
| Auth.NoBoundNeverDisconnects | src/Client.js:271-277 | with `maxRetries <= 0` the counter stays 0 and the client never disconnects for QR retries |
| Auth.BoundedRunCountsCalls | src/Client.js:271-277 | with a bound `k > 0` the counter equals the number of calls, and the first `k` calls never disconnect |
| Auth.FirstDisconnectOnCallAfterBound | src/Client.js:271-277 | call `k + 1` is the first to disconnect, emitting `qr`, then `disconnected("Max qrcode retries reached")`, then `destroy` |
| Auth.CodeStep | src/Client.js:421-428 | after an observation the current code is the code shown |
| Auth.CodeRun | src/Client.js:402-428 | the state after the initial code is shown and a sequence of codes is observed, one `Auth.CodeStep` per observation. It has no contract of its own; `Auth.CodesAreDeduplicated` and `Auth.DedupHasNoRepeats` state its properties |
| Auth.CodesAreDeduplicated | src/Client.js:402-428 | the emitted codes are the shown codes with consecutive repeats removed; the current code is the last shown |
| Auth.DedupHasNoRepeats | src/Client.js:421-428 | no two consecutive emitted codes are equal |
| Relay.AddMessageRouting | src/Client.js:549-601 | a `gp2` message emits exactly one group event chosen by subtype; any other message emits `message_create`, then `message` iff it was not sent by the user |
| Relay.NonRevokedTypeChangeIsSilent | src/Client.js:605-624 | a type change to anything but `revoked` emits nothing and leaves `last_message` alone |
| Relay.SingleEventHandlers | src/Client.js:664-835 | the other handlers emit at most one event; removal needs a new message, an edit a non-revoked message, a battery change a defined level |
| Relay.NumberChangeIds | src/Client.js:626-660 | only a participant or contact number change emits, and then one `contact_changed`; a participant's old id is its author and its new id the first recipient; a contact's new id is `to` and its old id a template parameter other than `to` |
| Relay.FirstOther | src/Client.js:649 | `templateParams.find(id => id !== newId)` returns the first parameter different from the new id, or none |
| Relay.Handle | src/Client.js:549-835 | only a `change` call can move `last_message` |
| Relay.HandleAll | src/Client.js:549-835 | the events and final `last_message` of a sequence of handler calls, each handled by `Relay.Handle` in order. It has no contract of its own; `Relay.LastMessageIsLastRecorded`, `Relay.ChangeThenRevoke` and `Relay.ReactionFanOut` state its properties |
| Relay.LastMessageIsLastRecorded | src/Client.js:603-630 | `last_message` is the message of the last non-revoked `change`, and unset iff there was none |
| Relay.RevokePairing | src/Client.js:607-622 | a revoke emits one `message_revoke_everyone`; its prior state is present iff the last recorded change had the same short id, and is then that message |
| Relay.ChangeThenRevoke | src/Client.js:603-630 | a change of X followed by its revoke carries X as the prior state |
| Relay.OnlyRecordingCallsUpdateLastMessage | src/Client.js:626-630 | only a non-revoked `change` overwrites `last_message`, with that message |
| Relay.Enrich | src/Client.js:865-872 | both keys are parsed, the other fields are kept, and the timestamp times 1000 is the raw milliseconds |
| Relay.EnrichAll | src/Client.js:865-872 | the batch map keeps length and order |
| Relay.ReactionFanOut | src/Client.js:781-800 | N reactions emit exactly N `message_reaction` events, the i-th carrying the i-th reaction |
| Relay.ReactionBatchFanOut | src/Client.js:861-875 | one `createOrUpdateReactions` batch of N raw reactions emits N events carrying the enriched reactions, in order |
| Relay.CiphertextIsDeferredOnce | src/Client.js:849-858 | a new ciphertext message emits nothing when added; its first type change relays it as added, before the type change; a second type change relays only that |
| Relay.Route | src/Client.js:837-876 | which handler calls one store event causes: an old added message none, a new ciphertext message only a pending one-shot listener, its first type change the deferred add before the type-change handler, and each other collection event its own handler. It has no contract of its own; `Relay.CiphertextIsDeferredOnce`, `Relay.OldMessagesAreNotRelayed` and `Relay.ReactionBatchFanOut` state its properties |
| Relay.OldMessagesAreNotRelayed | src/Client.js:842-856 | messages not flagged new never reach `message_create`, `message` or `message_revoke_me` |
| Watchdog.AcceptedStates | src/Client.js:723-727 | the accepted states are the four base states, plus `CONFLICT` iff takeover is on |
| Watchdog.AppStateChangedEffects | src/Client.js:714-745 | the effects of one `onAppStateChangedEvent`: `change_state`, the takeover when CONFLICT and takeover is on, and the disconnect sequence when the state is not accepted. It has no contract of its own; `Watchdog.AppStateChangeOutcome` and `Watchdog.ConflictIsFatalIffNoTakeover` state its properties |
| Watchdog.AppStateChangeOutcome | src/Client.js:714-745 | `change_state` comes first; a disconnect happens iff the state is not accepted and is then strategy disconnect, `disconnected(state)`, `destroy`; a takeover is scheduled iff takeover is on and the state is `CONFLICT` |
| Watchdog.ConflictIsFatalIffNoTakeover | src/Client.js:723-743 | `CONFLICT` disconnects iff takeover is off |
| Watchdog.FrameNavigatedEffects | src/Client.js:886-893 | the guard either does nothing or performs the disconnect with reason `NAVIGATION` |
| Watchdog.NavigationDisconnectsIffUnpairedOrMissing | src/Client.js:886-893 | the guard disconnects iff the state is missing, empty or `PAIRING` |
| Watchdog.LogoutPoll | src/Client.js:948-953 | at most ten waits; every earlier probe said connected, and stopping before ten means the last probe said disconnected |
| SendMessage.Classify | src/Client.js:1033-1092 | the branch of `sendMessage` that the content takes, testing the guards in source order. It has no contract of its own; `SendMessage.FirstMatchWins`, `SendMessage.AlphanumericTextIsFileLike` and `SendMessage.EmptyArrayIsFileLike` state its properties |
| SendMessage.FirstMatchWins | src/Client.js:1033-1092 | the content takes branch k iff guard k holds and no earlier guard does; plain text iff no guard holds |
| SendMessage.AlphanumericTextIsFileLike | src/Client.js:1035 | any alphanumeric text (the empty text too) matches the base64 test and goes to the file branch |
| SendMessage.EmptyArrayIsFileLike | src/Client.js:1033-1040 | an empty array coerces to the empty string and is treated as a file |
| SendMessage.QuotedMessageId | src/Client.js:1017-1019 | a quote with an id is replaced by its serialized id; any other quote is passed through |
| SendMessage.SerializeRefs | src/Client.js:1021-1025 | mentions map element by element, keeping length |
| SendMessage.OptionDefaults | src/Client.js:1010-1031 | vCards are parsed unless disabled, the chat is marked seen unless disabled, and mentions default to the empty list |
| SendMessage.BranchesKeepStickerFlag | src/Client.js:1040-1092 | no branch changes `sendMediaAsSticker` or produces a sticker |
| SendMessage.FileBranchOutcome | src/Client.js:1040-1058 | the file branch keeps the content iff the extension rule says so; otherwise it builds the attachment, or fails with a TypeError when a mimetype is given but no file was read |
| SendMessage.OtherBranchesSucceed | src/Client.js:1059-1092 | only the file branch can fail; content and options stay as given iff the content is plain text; the options-media branch makes the content the caption |
| SendMessage.Prepare | src/Client.js:1010-1124 | `sendMessage` up to the page call: the branch result, the sticker conversion with fallback metadata, and the `sendSeen` flag, or the file branch's error. It has no contract of its own; `SendMessage.FileBranchOutcome`, `SendMessage.OtherBranchesSucceed`, `SendMessage.StickerOnlyWithAttachment` and `SendMessage.EmptyButtonsBodyIsNotConverted` state its properties |
| SendMessage.StickerOnlyWithAttachment | src/Client.js:1084-1124 | the sticker conversion runs exactly when `asSticker` is set and the attachment is truthy (an empty buttons body is not), on that attachment, with the fallback metadata |
| SendMessage.EmptyButtonsBodyIsNotConverted | src/Client.js:1084-1094 | a non-`chat` buttons content with an empty body keeps the empty body as its attachment even with `asSticker` set |
| SendMessage.StickerFallback | src/Client.js:1094-1124 | each of the nine metadata fields (pack id, name, publisher, email, website, Android and iOS app, categories, avatar flag) takes the option when it is truthy (categories: present; avatar: `true`), else the global value; with no global configuration the field is absent; applying the fallback twice changes nothing |
| Commands.NatToStringRoundTrip | src/Client.js:1607 | the decimal text of a natural reads back as that natural |
| Commands.IntToStringRoundTrip | src/Client.js:1607-1608 | `Number(String(n)) == n` for every integer |
| Commands.ResolveLinkingMethod | src/Client.js:44-50 | a given linking method is kept; otherwise QR linking bounded by `qrMaxRetries` is used |
| Commands.ResolveAuthStrategy | src/Client.js:52-69 | a given strategy is kept; otherwise the legacy session strategy iff a `session` option exists, carrying it and `restartOnAuthFail`; else no auth |
| Commands.CheckParticipants | src/Client.js:1582-1584 | the call is rejected iff the participants are not an array or are empty |
| Commands.ParticipantIds | src/Client.js:1586-1588 | contacts become their serialized ids only when every participant is a contact |
| Commands.MissingIffErrorOtherThan200 | src/Client.js:1607-1608 | a participant is missing iff it reported an error that is neither 0 nor 200 |
| Commands.MissingParticipantsSpec | src/Client.js:1605-1611 | the keys are exactly the wids of missing participants, each holding the status text of its last entry |
| Commands.CreateGroup | src/Client.js:1581-1614 | it rejects iff the participants are invalid; otherwise it returns the page's wid and the missing map |
| Commands.ChatIdsOfLabelSpec | src/Client.js:1663-1668 | the result holds the parent ids of the chat items and nothing else, all of them when all items are chats |
| Commands.ChatIdsOfLabelAppend | src/Client.js:1663-1668 | the reduce keeps order and multiplicity: the ids of two runs of items are the first run's ids followed by the second's |
| Commands.ChatIdsOfLabelSingle | src/Client.js:1663-1668 | one item contributes its parent id exactly when its parent type is `Chat` |
| Commands.SelectLabels | src/Client.js:1731-1733 | the labels kept are those whose id was asked for |
| Commands.SelectChats | src/Client.js:1734-1736 | the chats kept are those whose serialized id was asked for |
| Commands.AddActions | src/Client.js:1738 | one `add` per selected label, in order |
| Commands.AppendRemoves | src/Client.js:1741-1745 | the inner loop computes exactly the remove pass over one chat's label ids |
| Commands.AddOrRemoveLabels | src/Client.js:1725-1753 | non-business platforms are rejected; otherwise the selected chats and the action list are returned |
| Commands.RemovePassSpec | src/Client.js:1740-1746 | the adds stay first; every chat label gets an action; each appended action is a `remove` of one of the chats' label ids without an earlier action |
| Commands.ActionIdsAreDistinct | src/Client.js:1738-1746 | no id gets two actions when the selected label ids are distinct |
| Commands.NumberId | src/Client.js:1532-1534 | `@c.us` is appended unless already there |
| Commands.NumberIdIsIdempotent | src/Client.js:1532-1534 | normalising twice is normalising once |
| Commands.FormattedNumber | src/Client.js:1550-1553 | the result always contains `@s.whatsapp.net` |
| Commands.FormattedNumberOfDigits | src/Client.js:1550-1553 | a bare number gets the suffix, and a `@c.us` id has `c.us` replaced |
| Commands.CountryCodeInput | src/Client.js:1566 | the text never grows and is unchanged when it has no space, `+` or `@c.us` |
| Commands.CountryCodeKeepsSecondSpace | src/Client.js:1566 | only the first space is removed: `62 812 34` becomes `62812 34` |
| Commands.CountryCodeInputOfContactId | src/Client.js:1566 | for any digit groups `d1`, `d2`, the id `+d1 d2@c.us` becomes exactly `d1d2` |
| Common.ReplaceFirstAt | src/Client.js:1566 | `replace` with a string pattern rewrites exactly the occurrence with no earlier occurrence, and nothing else |
| Commands.FirstTruthySpec | src/Client.js:1779-1781 | the earliest truthy candidate wins, else the last value |
| Commands.GetName | src/Client.js:1777-1782 | name, then pushname, then shortName, else number, each taken only when truthy |
| Commands.GetNameIsFirstTruthy | src/Client.js:1779-1781 | `getName` is the first-truthy fold over the three names with the number as fallback |
| Commands.AcceptGroupV4Invite | src/Client.js:1278-1292 | it rejects a falsy code, then an expiry equal to 0; otherwise it sends the code, the expiry's decimal text, the group id and the inviter |
| Commands.SplitJoin | src/Client.js:1233-1234 | splitting is undone by joining and gives one more part than separators |
| Commands.GetMessageById | src/Client.js:1229-1247 | a stored message is returned as is; otherwise an id without exactly three `_` parts throws, and a valid id returns the first fetched message or none |
| Chats.IndexOf | src/Client.js:1385 | the lookup finds the first chat with the id, or reports that none has it |
| Chats.ChatStore.Get | src/Client.js:1385 | the linear search over the array returns exactly `IndexOf` |
| Chats.PinChatOutcome | src/Client.js:1383-1400 | a missing chat fails and nothing changes; the answer is always the chat's new pin state; the answer is false iff the chat was unpinned and the limit was reached; no other chat changes |
| Chats.UnpinChatOutcome | src/Client.js:1406-1415 | a missing chat fails; otherwise the answer is false, the chat ends unpinned, and no other chat changes |
| Chats.PinIsIdempotent | src/Client.js:1386-1388 | pinning twice is pinning once, and the second call answers with the pin state the first left |
| Chats.PinKeepsAtMostThreePinned | src/Client.js:1389-1396 | when pinned chats come first, the limit check keeps at most three chats pinned |
| Chats.LimitNeedsPinnedFirst | src/Client.js:1389-1396 | without that order, a store with three pinned chats gets a fourth |
| Chats.ChatStore.PinChat | src/Client.js:1383-1400 | the array afterwards and the answer are those of `AfterPin` and `PinResult` |
| Chats.ChatStore.UnpinChat | src/Client.js:1406-1415 | the array afterwards and the answer are those of `AfterUnpin` and `UnpinResult` |
| ClientSession.Client.constructor | src/Client.js:603 | a new client has an empty log, a zero counter, no last message and no pending listeners |
| ClientSession.Client.OnQrChanged | src/Client.js:263-278 | the log grows by `QrStep`'s effects, the counter becomes `QrStep`'s, and nothing else changes |
| ClientSession.Client.OnCodeShown | src/Client.js:393-402 | the first code is always emitted and becomes current |
| ClientSession.Client.OnCodeObserved | src/Client.js:421-428 | the log grows by `CodeStep`'s emission and the current code becomes `CodeStep`'s |
| ClientSession.Client.OnStoreEvent | src/Client.js:837-876 | the log grows by the effects of the routed handler calls; `last_message` and the pending listeners follow `HandleAll` and `Route` |
| ClientSession.Client.OnAppStateChanged | src/Client.js:714-745 | the log grows by exactly `AppStateChangedEffects` for the current options |
| ClientSession.Client.OnFrameNavigated | src/Client.js:886-893 | the log grows by exactly `FrameNavigatedEffects` |
| ClientSession.Client.Logout | src/Client.js:942-956 | the log grows by the three logout effects, and the wait obeys the poll bound |
| WebVersionCache.ExtractVersion | src/webCache/LocalWebCache.js:43 | the capture of the leftmost match of `manifest-([\d\\.]+)\.json`, or none when there is no match. It has no contract of its own; `WebVersionCache.ExtractedVersionIsNonEmptyRun`, `WebVersionCache.ExtractVersionRoundTrip` and `WebVersionCache.ExtractVersionExample` state its properties |
| WebVersionCache.ExtractedVersionIsNonEmptyRun | src/webCache/LocalWebCache.js:43 | a capture is a non-empty run of digits, dots and backslashes that appears between `manifest-` and `.json` |
| WebVersionCache.ExtractVersionRoundTrip | src/webCache/LocalWebCache.js:43 | a page holding `manifest-<v>.json`, with no `manifest-` before it, yields exactly `v` (the first match, with the greedy run given back to the `.json`) |
| WebVersionCache.ExtractVersionExample | src/webCache/LocalWebCache.js:42-43 | the page `<html><meta charset="utf-8"><link href="/manifest-2.2206.9.json"></html>` gives `2.2206.9` |
| WebVersionCache.FilePathInjective | src/webCache/LocalWebCache.js:30 | different versions map to different files |
| WebVersionCache.ResolveIn | src/webCache/LocalWebCache.js:29-39 | a cached file is returned; a missing one throws in strict mode and returns null otherwise |
| WebVersionCache.StoreAfterPersist | src/webCache/LocalWebCache.js:41-49 | with a version, the page is written under its file and nothing else changes |
| WebVersionCache.PersistThenResolve | src/webCache/LocalWebCache.js:29-49 | after `persist`, resolving its version returns the page, and other versions resolve as before |
| WebVersionCache.FailedPersistChangesNothing | src/webCache/LocalWebCache.js:43 | a page without `manifest-` leaves the directory unchanged |
| WebVersionCache.LocalWebCache.constructor | src/webCache/LocalWebCache.js:22-27 | the path defaults to `./.mywajs_cache/` unless a truthy path is given; strict is true only when given as true |
| WebVersionCache.LocalWebCache.Resolve | src/webCache/LocalWebCache.js:29-39 | the method returns exactly `ResolveIn`, and content iff the file exists |
| WebVersionCache.LocalWebCache.Persist | src/webCache/LocalWebCache.js:41-49 | the directory becomes `StoreAfterPersist`; a page without a match fails with the null-index TypeError and nothing changes |

## Left out

- Browser automation is not modelled. That covers launching, page injection
  (`ExposeStore`, `LoadUtils`, moduleRaid), selectors, the loading-screen
  observer, and the DOM clicking and typing of the phone-link flow. Their
  outcomes are parameters of the model.
- Timing is left out. `authTimeoutMs`, `setTimeout` and the wait sleeps
  appear only as effects or as the number of polls.
- Concurrency between page callbacks is left out. Each callback runs to
  completion in the order given.
- `Util.getFile`, `formatToWebpSticker`, `bufferToBase64`, `getRandom` and
  `fs.existsSync` are not part of this model. They are parameters or opaque
  effects, as are the codec and ffmpeg setup.
- Console logging is not part of the `Effect` log: the "You login with QR"
  line (src/Client.js:445) and the media dump in the file branch of
  `sendMessage` (src/Client.js:1042-1044) write to the console only.
- The pass-through send options are not traced individually. These are
  `linkPreview`, `ptt`, `gifPlayBack`, `asDocument` and `extra`.
- The page side of `sendMessage` is not modelled: `WWebJS.sendMessage` and
  `sendSeen` on the page.
- The one-line forwarding commands are not modelled. These include
  `getChats`, `getContacts`, `archiveChat`, `muteChat`, `setStatus`,
  `getLabels`, the profile-picture commands and `resetState`.
- `searchMessages` and `getBlockedContacts` depend on page objects this
  model does not have.
- `destroy` is not modelled beyond the `Destroy` effect, so the model does
  not capture whether it is idempotent.
- `initWebVersionCache` is commented out in the source
  (src/Client.js:896-927), so it is not modelled.
- `myPage` (screenshot upload) is not modelled.
- `WAState`, `Events` and the other constants are not part of this model.
  The state names are their own string values.
- `WebCache.js` and `Util.js` are not part of this model.
- WebVersionCache.LocalWebCache: the file system is a map from path to
  content. `path.join` normalisation is plain concatenation, so only exact
  paths are related. `mkdirSync` is the implicit existence of the directory.
  `strict` is an optional boolean: `options.strict || false` would keep any
  truthy non-boolean value as well.
- WebVersionCache.FilePathInjective: injectivity is stated of the
  concatenated path strings, not of the files they name. Under `path.join`,
  `./1` and `1` name the same file, although they are distinct versions.
- WebVersionCache.PersistThenResolve: the second ensures ("every other path
  resolves as before") relates exact path strings. In the source, after
  `persist` of a page with version `1`, `resolve("./1")` returns that page,
  which the model does not promise.
- WebVersionCache.LocalWebCache.Persist: the `if(!version) return;` guard is
  not modelled separately. It is dead code, because the capture is never
  empty.
- WwebVersions.Compare: operands must be digit-and-dot version text after
  stripping `-beta`. `Number` of other text (NaN) is not modelled.
- WwebVersions.CompareWwebVersions: the padded operands are compared as exact
  naturals. `Number` gives an IEEE double, exact only up to 2^53, so two
  operands of 16 or more digits that round to the same double compare equal
  in the source but not in the model (for example `9007199254740993` and
  `9007199254740992`). Real version strings are far shorter.
- WwebVersions.SameLengthComparesDigits: states the exact comparison, with
  the same loss of precision above 2^53 left out.
- Relay.Route: a new ciphertext message's one-shot listener is assumed to
  run before the collection's own `change:type` relay.
- Relay.Enrich: the timestamp division is stated exactly over the reals,
  not as IEEE floating point.
- Relay.Handle: `unread_count` carries the chat id rather than the chat
  fetched with `getChatById`. Entity wrappers (`new Message`, `new Chat`)
  are the models they wrap.
- Commands.MissingIffErrorOtherThan200: error values are integers. A
  non-numeric `error` object's `toString` is not modelled.
- Commands.AcceptGroupV4Invite: `inviteCodeExp` is a number or undefined. A
  string expiry compared loosely with 0 is not modelled.
- Commands.SelectLabels: the loose `l == e.id` is modelled as equality of ids
  given as strings. Numeric label ids compared with strings are not modelled.
- SendMessage.Classify: `Location` and `Contact` contents are assumed to
  keep the default `toString` when matched against the regular expressions.
- Chats.ChatStore: the store re-sorts its collection after a pin, and that is
  not modelled. `AfterPin` does not restore the pinned-first order, so the
  bound of `PinKeepsAtMostThreePinned` is proved for one call, not for a
  sequence of pins. A chat's `pin` is a flag, not the store's timestamp.
- ClientSession.Client: a fresh `qrRetries` counter per QR login is the value
  of the field when the login starts. Each run of `initialize` starts a fresh
  counter at `StartQrLogin`, and the QR lemmas (`Auth.QrRun`) start from 0.
