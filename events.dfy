/** The host-side event surface of the client and the calls it makes to its
    collaborators, as one tagged union. A run of the client is described by the
    sequence of these effects, in the order the client performs them: an
    `emit(...)` on the event emitter becomes an event constructor, a call into
    the auth strategy, the browser or a timer becomes a collaborator constructor.

    The page-side models the handlers receive (`getMessageModel(msg)`,
    `getChatModel(chat)`, the call and reaction records) are carried as the data
    below; `new Message(this, msg)` and the other entity wrappers are snapshots
    of that data, so an event carries the model it was built from. */
module Events {
  import opened Common

  /** `msg.id`: whether the current user sent it, the short id and the
      serialized id. */
  datatype MsgKey = MsgKey(fromMe: bool, id: string, serialized: string)

  /** The fields of a serialized message model that the relay inspects. An absent
      `subtype` is the empty string (it never equals one of the literals it is compared with). */
  datatype MsgModel = MsgModel(
    id: MsgKey,
    msgType: string,
    subtype: string,
    isNewMsg: bool,
    recipients: seq<string>,
    author: Option<string>,
    to: string,
    templateParams: seq<string>)

  datatype ChatModel = ChatModel(id: string, archived: bool)

  datatype CallModel = CallModel(id: string, peerJid: string, isVideo: bool, isGroup: bool)

  /** `Store.MsgKey.fromString(text)`: the page parses a serialized key; the
      parsed key is determined by its text. */
  datatype ParsedKey = FromString(text: string)

  /** A reaction as the page's wrapper of `createOrUpdateReactions` hands it to
      the host: keys parsed, timestamp converted to seconds. */
  datatype Reaction = Reaction(
    id: string,
    reaction: string,
    senderId: string,
    msgKey: ParsedKey,
    parentMsgKey: ParsedKey,
    timestamp: real)

  datatype Effect =
    // events emitted to host listeners
    | Qr(token: string)
    | Code(code: string)
    | Authenticated(payload: string)
    | AuthFailure(payload: string)
    | Ready
    | Disconnected(reason: string)
    | ChangeState(state: string)
    | MessageCreate(msg: MsgModel)
    | MessageReceived(msg: MsgModel)
    | MessageAck(msg: MsgModel, ack: int)
    | MessageRevokeMe(msg: MsgModel)
    | MessageRevokeEveryone(msg: MsgModel, revokedMsg: Option<MsgModel>)
    | MessageEdit(msg: MsgModel, newBody: string, prevBody: string)
    | MessageReaction(reaction: Reaction)
    | MediaUploaded(msg: MsgModel)
    | GroupJoin(notification: MsgModel)
    | GroupLeave(notification: MsgModel)
    | GroupAdminChanged(notification: MsgModel)
    | GroupUpdate(notification: MsgModel)
    | ContactChanged(msg: MsgModel, oldId: Option<string>, newId: Option<string>, isContact: bool)
    | ChatRemoved(chat: ChatModel)
    | ChatArchived(chat: ChatModel, currState: bool, prevState: bool)
    | BatteryChanged(battery: int, plugged: Option<bool>)
    | IncomingCall(call: CallModel)
    | UnreadCount(chatId: string)
    // calls into collaborators
    | Destroy                        // `this.destroy()`: close the browser, then `authStrategy.destroy()`
    | StrategyDisconnect             // `authStrategy.disconnect()`
    | StrategyLogout                 // `authStrategy.logout()`
    | StrategyAfterAuthReady         // `authStrategy.afterAuthReady()`
    | StartQrLogin                   // the QR pairing flow is started on the page
    | StartPhoneLinking(number: string) // the phone-number linking flow is started on the page
    | TakeoverScheduled(delayMs: int)   // `setTimeout(() => AppState.takeover(), delayMs)`
    | AppStateLogout                 // `Store.AppState.logout()` on the page
    | BrowserClose                   // `pupBrowser.close()`

  /** The three effects of a disconnect decided by the watchdog. */
  function DisconnectSequence(reason: string): (r: seq<Effect>)
    ensures |r| == 3 && r[0] == StrategyDisconnect && r[1] == Disconnected(reason) && r[2] == Destroy
  {
    [StrategyDisconnect, Disconnected(reason), Destroy]
  }

  predicate IsDisconnect(e: Effect) {
    e.Disconnected?
  }

  /** No effect of `s` is a `disconnected` event. */
  predicate NoDisconnect(s: seq<Effect>) {
    forall i :: 0 <= i < |s| ==> !IsDisconnect(s[i])
  }
}
