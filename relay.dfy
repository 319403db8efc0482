/** The bridge relay: the page-side store listeners registered in the final
    `page.evaluate` of `initialize`, and the host functions they call
    (`onAddMessageEvent`, `onChangeMessageTypeEvent`, `onChangeMessageEvent`,
    ...), each of which turns one page call into host events. The one piece of
    state shared across host calls is `last_message`, used to pair a revoke
    with the message as it was before; the one piece of page-side state is the
    set of one-shot `change:type` listeners left on ciphertext messages. */
module Relay {
  import opened Common
  import opened Events

  const Revoked := "revoked"

  // ---- host handlers ----

  /** `onAddMessageEvent`: a group notification becomes exactly one group
      event; any other message becomes `message_create`, and also `message`
      when it was not sent by the current user. */
  function AddMessageEffects(msg: MsgModel): seq<Effect> {
    if msg.msgType == "gp2" then
      if msg.subtype in {"add", "invite", "linked_group_join"} then [GroupJoin(msg)]
      else if msg.subtype == "remove" || msg.subtype == "leave" then [GroupLeave(msg)]
      else if msg.subtype == "promote" || msg.subtype == "demote" then [GroupAdminChanged(msg)]
      else [GroupUpdate(msg)]
    else [MessageCreate(msg)] + (if msg.id.fromMe then [] else [MessageReceived(msg)])
  }

  predicate IsGroupEvent(e: Effect) {
    e.GroupJoin? || e.GroupLeave? || e.GroupAdminChanged? || e.GroupUpdate?
  }

  predicate IsMessageEvent(e: Effect) {
    e.MessageCreate? || e.MessageReceived?
  }

  /** `onChangeMessageTypeEvent`: only a change to `revoked` emits, and the
      prior state is attached when `last_message` has the same short id. */
  function ChangeTypeEffects(last: Option<MsgModel>, msg: MsgModel): seq<Effect> {
    if msg.msgType == Revoked then
      [MessageRevokeEveryone(msg, if last.Some? && msg.id.id == last.value.id.id then last else None)]
    else []
  }

  /** The first index at or after `i` whose parameter differs from `newId`. */
  function FirstOtherFrom(params: seq<string>, newId: Option<string>, i: nat): (r: Option<nat>)
    requires i <= |params|
    decreases |params| - i
    ensures r.Some? ==> i <= r.value < |params| && Some(params[r.value]) != newId
    ensures r.Some? ==> forall j :: i <= j < r.value ==> Some(params[j]) == newId
    ensures r.None? ==> forall j :: i <= j < |params| ==> Some(params[j]) == newId
  {
    if i == |params| then None
    else if Some(params[i]) != newId then Some(i)
    else FirstOtherFrom(params, newId, i + 1)
  }

  /** `templateParams.find(id => id !== newId)`: the first parameter that
      differs from `newId`, absent when every parameter equals it. */
  function FirstOther(params: seq<string>, newId: Option<string>): (r: Option<string>)
    ensures r.Some? ==> r.value in params && r != newId
    ensures r.Some? ==> exists i :: 0 <= i < |params| && params[i] == r.value &&
                          forall j :: 0 <= j < i ==> Some(params[j]) == newId
    ensures r.None? ==> forall j :: 0 <= j < |params| ==> Some(params[j]) == newId
  {
    match FirstOtherFrom(params, newId, 0)
    case None => None
    case Some(i) => Some(params[i])
  }

  predicate IsParticipantNumberChange(msg: MsgModel) {
    msg.msgType == "gp2" && msg.subtype == "modify"
  }

  predicate IsContactNumberChange(msg: MsgModel) {
    msg.msgType == "notification_template" && msg.subtype == "change_number"
  }

  /** The new id of a number change: the first recipient of a participant
      notification (absent when there is none), else the message's `to`. */
  function NewNumberId(msg: MsgModel): Option<string> {
    if IsParticipantNumberChange(msg) then
      if |msg.recipients| > 0 then Some(msg.recipients[0]) else None
    else Some(msg.to)
  }

  /** The old id: the author of a participant notification, else the first
      template parameter that differs from the new id. */
  function OldNumberId(msg: MsgModel): Option<string> {
    if IsParticipantNumberChange(msg) then msg.author
    else FirstOther(msg.templateParams, NewNumberId(msg))
  }

  /** `onChangeMessageEvent`'s emitting part. */
  function ChangeEffects(msg: MsgModel): seq<Effect> {
    if IsParticipantNumberChange(msg) || IsContactNumberChange(msg) then
      [ContactChanged(msg, OldNumberId(msg), NewNumberId(msg), IsContactNumberChange(msg))]
    else []
  }

  /** `onChangeMessageEvent`'s update of `last_message`. */
  function NextLastMessage(last: Option<MsgModel>, msg: MsgModel): Option<MsgModel> {
    if msg.msgType != Revoked then Some(msg) else last
  }

  /** `onRemoveMessageEvent`: only messages flagged new. */
  function RemoveEffects(msg: MsgModel): seq<Effect> {
    if !msg.isNewMsg then [] else [MessageRevokeMe(msg)]
  }

  /** `onEditMessageEvent`: edits of revoked messages are dropped. */
  function EditEffects(msg: MsgModel, newBody: string, prevBody: string): seq<Effect> {
    if msg.msgType == Revoked then [] else [MessageEdit(msg, newBody, prevBody)]
  }

  /** `onBatteryStateChangedEvent`: nothing when the battery level is undefined. */
  function BatteryEffects(battery: Option<int>, plugged: Option<bool>): seq<Effect> {
    if battery.None? then [] else [BatteryChanged(battery.value, plugged)]
  }

  /** `onReaction`: one `message_reaction` per element of the batch, in order. */
  function ReactionEffects(reactions: seq<Reaction>): (r: seq<Effect>)
    decreases |reactions|
  {
    if reactions == [] then []
    else [MessageReaction(reactions[0])] + ReactionEffects(reactions[1..])
  }

  /** A call of one of the host functions the page invokes. */
  datatype PageCall =
    | AddMessage(msg: MsgModel)
    | ChangeMessageType(msg: MsgModel)
    | ChangeMessage(msg: MsgModel)
    | RemoveMessage(msg: MsgModel)
    | MessageAckCall(msg: MsgModel, ack: int)
    | ChatUnreadCount(chatId: string)
    | MediaUploadedCall(msg: MsgModel)
    | BatteryStateChanged(battery: Option<int>, plugged: Option<bool>)
    | IncomingCallCall(call: CallModel)
    | ReactionBatch(reactions: seq<Reaction>)
    | RemoveChat(chat: ChatModel)
    | ArchiveChat(chat: ChatModel, currState: bool, prevState: bool)
    | EditMessage(msg: MsgModel, newBody: string, prevBody: string)

  datatype Handled = Handled(effects: seq<Effect>, last: Option<MsgModel>)

  /** The host side of the relay: the events one page call emits and the new
      value of the shared `last_message` cell. */
  function Handle(last: Option<MsgModel>, call: PageCall): (h: Handled)
    ensures !call.ChangeMessage? ==> h.last == last
  {
    match call
    case AddMessage(m) => Handled(AddMessageEffects(m), last)
    case ChangeMessageType(m) => Handled(ChangeTypeEffects(last, m), last)
    case ChangeMessage(m) => Handled(ChangeEffects(m), NextLastMessage(last, m))
    case RemoveMessage(m) => Handled(RemoveEffects(m), last)
    case MessageAckCall(m, ack) => Handled([MessageAck(m, ack)], last)
    case ChatUnreadCount(id) => Handled([UnreadCount(id)], last)
    case MediaUploadedCall(m) => Handled([MediaUploaded(m)], last)
    case BatteryStateChanged(b, p) => Handled(BatteryEffects(b, p), last)
    case IncomingCallCall(c) => Handled([IncomingCall(c)], last)
    case ReactionBatch(rs) => Handled(ReactionEffects(rs), last)
    case RemoveChat(c) => Handled([ChatRemoved(c)], last)
    case ArchiveChat(c, cur, prev) => Handled([ChatArchived(c, cur, prev)], last)
    case EditMessage(m, nb, pb) => Handled(EditEffects(m, nb, pb), last)
  }

  /** Several page calls handled in order, threading `last_message`. */
  function HandleAll(last: Option<MsgModel>, calls: seq<PageCall>): Handled
    decreases |calls|
  {
    if calls == [] then Handled([], last)
    else
      var h := Handle(last, calls[0]);
      var rest := HandleAll(h.last, calls[1..]);
      Handled(h.effects + rest.effects, rest.last)
  }

  // ---- properties of the host handlers ----

  /** A group notification emits exactly one group event, chosen by its
      subtype, and no message event; any other message emits `message_create`
      first, then `message` exactly when it was not sent by the current user. */
  lemma AddMessageRouting(msg: MsgModel)
    ensures var e := AddMessageEffects(msg);
      (msg.msgType == "gp2" ==>
         |e| == 1 && IsGroupEvent(e[0]) && !IsMessageEvent(e[0]) &&
         (e[0].GroupJoin? <==> msg.subtype in {"add", "invite", "linked_group_join"}) &&
         (e[0].GroupLeave? <==> msg.subtype in {"remove", "leave"}) &&
         (e[0].GroupAdminChanged? <==> msg.subtype in {"promote", "demote"})) &&
      (msg.msgType != "gp2" ==>
         1 <= |e| <= 2 && e[0] == MessageCreate(msg) &&
         (|e| == 2 <==> !msg.id.fromMe) && (|e| == 2 ==> e[1] == MessageReceived(msg)))
  {
  }

  /** A type change emits nothing unless the new type is `revoked`, and never
      touches `last_message`. */
  lemma NonRevokedTypeChangeIsSilent(last: Option<MsgModel>, msg: MsgModel)
    requires msg.msgType != Revoked
    ensures Handle(last, ChangeMessageType(msg)) == Handled([], last)
  {
  }

  /** The remaining handlers emit at most one event: a removal only for a new
      message, an edit only for a message that is not revoked, a battery change
      only with a defined level; the others always forward their arguments. */
  lemma SingleEventHandlers(last: Option<MsgModel>, call: PageCall)
    requires !call.AddMessage? && !call.ChangeMessageType? && !call.ChangeMessage? && !call.ReactionBatch?
    ensures var e := Handle(last, call).effects;
      |e| <= 1 &&
      (e == [] <==>
         (call.RemoveMessage? && !call.msg.isNewMsg) ||
         (call.EditMessage? && call.msg.msgType == Revoked) ||
         (call.BatteryStateChanged? && call.battery.None?)) &&
      (call.RemoveMessage? && e != [] ==> e[0] == MessageRevokeMe(call.msg)) &&
      (call.EditMessage? && e != [] ==> e[0] == MessageEdit(call.msg, call.newBody, call.prevBody)) &&
      (call.BatteryStateChanged? && e != [] ==> e[0] == BatteryChanged(call.battery.value, call.plugged)) &&
      (call.MessageAckCall? ==> e == [MessageAck(call.msg, call.ack)]) &&
      (call.MediaUploadedCall? ==> e == [MediaUploaded(call.msg)]) &&
      (call.IncomingCallCall? ==> e == [IncomingCall(call.call)]) &&
      (call.ArchiveChat? ==> e == [ChatArchived(call.chat, call.currState, call.prevState)])
  {
  }

  /** A number change names the author or the first recipient for a
      participant, and for a contact an old id taken from the template
      parameters that differs from the new id; every other change is silent. */
  lemma NumberChangeIds(msg: MsgModel)
    ensures |ChangeEffects(msg)| <= 1
    ensures ChangeEffects(msg) != [] <==> IsParticipantNumberChange(msg) || IsContactNumberChange(msg)
    ensures IsContactNumberChange(msg) ==>
              NewNumberId(msg) == Some(msg.to) &&
              (OldNumberId(msg).Some? ==> OldNumberId(msg).value in msg.templateParams && OldNumberId(msg).value != msg.to)
    ensures IsParticipantNumberChange(msg) ==>
              OldNumberId(msg) == msg.author &&
              (msg.recipients != [] ==> NewNumberId(msg) == Some(msg.recipients[0]))
  {
  }

  /** A page call that records its message in `last_message`. */
  predicate Records(c: PageCall) {
    c.ChangeMessage? && c.msg.msgType != Revoked
  }

  /** `last_message` after a sequence of page calls, starting unset. */
  function LastMessageAfter(calls: seq<PageCall>): Option<MsgModel>
    decreases |calls|
  {
    if calls == [] then None
    else Handle(LastMessageAfter(calls[..|calls| - 1]), calls[|calls| - 1]).last
  }

  /** `last_message` is the message of the last call that records (a
      non-revoked `change`), and unset iff no call recorded. */
  lemma {:induction false} LastMessageIsLastRecorded(calls: seq<PageCall>)
    ensures LastMessageAfter(calls).None? <==> forall i :: 0 <= i < |calls| ==> !Records(calls[i])
    ensures LastMessageAfter(calls).Some? ==>
              exists i :: 0 <= i < |calls| && Records(calls[i]) && calls[i].msg == LastMessageAfter(calls).value &&
                forall j :: i < j < |calls| ==> !Records(calls[j])
    decreases |calls|
  {
    if calls != [] {
      var n := |calls| - 1;
      var init := calls[..n];
      LastMessageIsLastRecorded(init);
      assert forall i :: 0 <= i < n ==> init[i] == calls[i];
      if Records(calls[n]) {
        assert LastMessageAfter(calls) == Some(calls[n].msg);
      } else {
        assert LastMessageAfter(calls) == LastMessageAfter(init);
        if LastMessageAfter(init).Some? {
          var i :| 0 <= i < n && Records(init[i]) && init[i].msg == LastMessageAfter(init).value &&
                   forall j :: i < j < n ==> !Records(init[j]);
          assert Records(calls[i]) && calls[i].msg == LastMessageAfter(calls).value;
        }
      }
    }
  }

  /** The revoke pairing: a change to `revoked` emits exactly one
      `message_revoke_everyone`, whose prior state is present iff the last
      recorded `change` had the same short id, and is then that message. */
  lemma RevokePairing(calls: seq<PageCall>, revoked: MsgModel)
    requires revoked.msgType == Revoked
    ensures var e := Handle(LastMessageAfter(calls), ChangeMessageType(revoked)).effects;
      |e| == 1 && e[0].MessageRevokeEveryone? && e[0].msg == revoked &&
      (e[0].revokedMsg.Some? <==>
         exists i :: 0 <= i < |calls| && Records(calls[i]) && calls[i].msg.id.id == revoked.id.id &&
           forall j :: i < j < |calls| ==> !Records(calls[j])) &&
      (e[0].revokedMsg.Some? ==> e[0].revokedMsg == LastMessageAfter(calls))
  {
    LastMessageIsLastRecorded(calls);
    var e := Handle(LastMessageAfter(calls), ChangeMessageType(revoked)).effects;
    if exists i :: 0 <= i < |calls| && Records(calls[i]) && calls[i].msg.id.id == revoked.id.id &&
         forall j :: i < j < |calls| ==> !Records(calls[j]) {
      var i :| 0 <= i < |calls| && Records(calls[i]) && calls[i].msg.id.id == revoked.id.id &&
         forall j :: i < j < |calls| ==> !Records(calls[j]);
      var k :| 0 <= k < |calls| && Records(calls[k]) && calls[k].msg == LastMessageAfter(calls).value &&
         forall j :: k < j < |calls| ==> !Records(calls[j]);
      assert i == k;
    }
  }

  /** The concrete case: a change of message X followed by its revoke yields the
      revoke event carrying both the revoked state and X's prior state. */
  lemma ChangeThenRevoke(calls: seq<PageCall>, x: MsgModel, revoked: MsgModel)
    requires x.msgType != Revoked && revoked.msgType == Revoked && x.id.id == revoked.id.id
    ensures var h := calls + [ChangeMessage(x)];
      Handle(LastMessageAfter(h), ChangeMessageType(revoked)).effects == [MessageRevokeEveryone(revoked, Some(x))]
  {
    var h := calls + [ChangeMessage(x)];
    assert h[..|h| - 1] == calls;
  }

  /** Revoked `change` events and all other calls never overwrite `last_message`. */
  lemma OnlyRecordingCallsUpdateLastMessage(calls: seq<PageCall>, c: PageCall)
    ensures !Records(c) ==> LastMessageAfter(calls + [c]) == LastMessageAfter(calls)
    ensures Records(c) ==> LastMessageAfter(calls + [c]) == Some(c.msg)
  {
    assert (calls + [c])[..|calls|] == calls;
  }

  // ---- page-side listeners ----

  /** A reaction as `createOrUpdateReactions` receives it. */
  datatype RawReaction = RawReaction(
    id: string,
    reaction: string,
    senderId: string,
    msgKey: string,
    parentMsgKey: string,
    timestampMs: int)

  /** The page's map over the batch: parse both keys, milliseconds to seconds. */
  function Enrich(r: RawReaction): (e: Reaction)
    ensures e.timestamp * 1000.0 == r.timestampMs as real
    ensures e.msgKey == FromString(r.msgKey) && e.parentMsgKey == FromString(r.parentMsgKey)
    ensures e.id == r.id && e.reaction == r.reaction && e.senderId == r.senderId
  {
    Reaction(r.id, r.reaction, r.senderId, FromString(r.msgKey), FromString(r.parentMsgKey), r.timestampMs as real / 1000.0)
  }

  function EnrichAll(rs: seq<RawReaction>): (es: seq<Reaction>)
    ensures |es| == |rs| && forall i :: 0 <= i < |rs| ==> es[i] == Enrich(rs[i])
  {
    seq(|rs|, i requires 0 <= i < |rs| => Enrich(rs[i]))
  }

  /** A store event the page listens to. */
  datatype StoreEvent =
    | MsgAdded(msg: MsgModel)
    | MsgChanged(msg: MsgModel)
    | MsgTypeChanged(msg: MsgModel)
    | MsgAckChanged(msg: MsgModel, ack: int)
    | MsgUnsentMediaChanged(msg: MsgModel, unsent: bool)
    | MsgRemoved(msg: MsgModel)
    | MsgBodyChanged(msg: MsgModel, newBody: string, prevBody: string)
    | BatteryStateChange(battery: Option<int>, plugged: Option<bool>)
    | CallAdded(call: CallModel)
    | ChatRemovedEvent(chat: ChatModel)
    | ChatArchiveChanged(chat: ChatModel, currState: bool, prevState: bool)
    | ChatUnreadCountChanged(chatId: string)
    | ReactionsCreated(raw: seq<RawReaction>)

  /** `k` copies of one page call. */
  function Repeat(c: PageCall, k: nat): (r: seq<PageCall>)
    ensures |r| == k && forall i :: 0 <= i < k ==> r[i] == c
  {
    seq(k, _ => c)
  }

  /** `pending` counts, per serialized message id, the one-shot `change:type`
      listeners left by `add` events of ciphertext messages. */
  datatype Routed = Routed(calls: seq<PageCall>, pending: multiset<string>)

  /** The page-side listeners: which host functions a store event calls. A new
      ciphertext message is deferred until its type changes; each deferral
      fires once, before the collection's own `change:type` relay. */
  function Route(pending: multiset<string>, e: StoreEvent): Routed {
    match e
    case MsgAdded(m) =>
      if !m.isNewMsg then Routed([], pending)
      else if m.msgType == "ciphertext" then Routed([], pending + multiset{m.id.serialized})
      else Routed([AddMessage(m)], pending)
    case MsgTypeChanged(m) =>
      Routed(Repeat(AddMessage(m), pending[m.id.serialized]) + [ChangeMessageType(m)],
             pending[m.id.serialized := 0])
    case MsgChanged(m) => Routed([ChangeMessage(m)], pending)
    case MsgAckChanged(m, ack) => Routed([MessageAckCall(m, ack)], pending)
    case MsgUnsentMediaChanged(m, unsent) =>
      Routed(if m.id.fromMe && !unsent then [MediaUploadedCall(m)] else [], pending)
    case MsgRemoved(m) => Routed(if m.isNewMsg then [RemoveMessage(m)] else [], pending)
    case MsgBodyChanged(m, nb, pb) => Routed([EditMessage(m, nb, pb)], pending)
    case BatteryStateChange(b, p) => Routed([BatteryStateChanged(b, p)], pending)
    case CallAdded(c) => Routed([IncomingCallCall(c)], pending)
    case ChatRemovedEvent(c) => Routed([RemoveChat(c)], pending)
    case ChatArchiveChanged(c, cur, prev) => Routed([ArchiveChat(c, cur, prev)], pending)
    case ChatUnreadCountChanged(id) => Routed([ChatUnreadCount(id)], pending)
    case ReactionsCreated(raw) => Routed([ReactionBatch(EnrichAll(raw))], pending)
  }

  // ---- properties of the page-side routing ----

  /** Reaction fan-out: a batch of N raw reactions emits exactly N
      `message_reaction` events, the i-th carrying the i-th reaction with its
      keys parsed and its timestamp in seconds. */
  lemma {:induction false} ReactionFanOut(rs: seq<Reaction>)
    ensures |ReactionEffects(rs)| == |rs|
    ensures forall i :: 0 <= i < |rs| ==> ReactionEffects(rs)[i] == MessageReaction(rs[i])
    decreases |rs|
  {
    if rs != [] {
      ReactionFanOut(rs[1..]);
      forall i | 1 <= i < |rs| ensures ReactionEffects(rs)[i] == MessageReaction(rs[i]) {
        assert rs[1..][i - 1] == rs[i];
      }
    }
  }

  lemma ReactionBatchFanOut(pending: multiset<string>, last: Option<MsgModel>, raw: seq<RawReaction>)
    ensures var r := Route(pending, ReactionsCreated(raw));
      var e := HandleAll(last, r.calls).effects;
      |e| == |raw| &&
      forall i :: 0 <= i < |raw| ==>
        e[i] == MessageReaction(Enrich(raw[i])) && e[i].reaction.timestamp * 1000.0 == raw[i].timestampMs as real
  {
    var rs := EnrichAll(raw);
    ReactionFanOut(rs);
    assert HandleAll(last, [ReactionBatch(rs)]).effects == ReactionEffects(rs) + [];
  }

  /** A new ciphertext message emits nothing when added and leaves one
      listener; its first type change relays it as added (before the type
      change itself), and a second type change relays only the type change. */
  lemma CiphertextIsDeferredOnce(pending: multiset<string>, m: MsgModel, m1: MsgModel, m2: MsgModel)
    requires m.isNewMsg && m.msgType == "ciphertext" && m.id.serialized !in pending
    requires m1.id.serialized == m.id.serialized && m2.id.serialized == m.id.serialized
    ensures var a := Route(pending, MsgAdded(m));
      var t1 := Route(a.pending, MsgTypeChanged(m1));
      var t2 := Route(t1.pending, MsgTypeChanged(m2));
      a.calls == [] &&
      t1.calls == [AddMessage(m1), ChangeMessageType(m1)] &&
      t2.calls == [ChangeMessageType(m2)] &&
      t2.pending == pending
  {
    var id := m.id.serialized;
    var a := Route(pending, MsgAdded(m));
    assert a.pending[id] == 1;
    var t1 := Route(a.pending, MsgTypeChanged(m1));
    assert t1.pending == pending;
  }

  /** Messages that are not new never reach `message_create`, `message` or
      `message_revoke_me`. */
  lemma OldMessagesAreNotRelayed(pending: multiset<string>, last: Option<MsgModel>, m: MsgModel)
    requires !m.isNewMsg
    ensures Route(pending, MsgAdded(m)) == Routed([], pending)
    ensures Route(pending, MsgRemoved(m)).calls == []
    ensures RemoveEffects(m) == []
  {
  }
}
