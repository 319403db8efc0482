/** The client's commands that decide something on the host side before (or
    after) delegating to the page: the constructor's defaults, `createGroup`,
    `getChatsByLabelId`, `addOrRemoveLabels`, the number helpers, `getName`,
    `acceptGroupV4Invite` and `getMessageById`. The page's own work (creating
    the group, querying a number, joining) is a parameter or a returned
    request. */
module Commands {
  import opened Common
  import Auth

  // ---- decimal text, as `toString()` writes and `Number()` reads it ----

  function DigitChar(d: nat): char
    requires d < 10
  {
    "0123456789"[d]
  }

  predicate IsDigit(c: char) {
    '0' <= c <= '9'
  }

  /** `n.toString()` for a natural: shortest decimal digits. */
  function NatToString(n: nat): (s: string)
    ensures |s| > 0 && forall k :: 0 <= k < |s| ==> IsDigit(s[k])
    decreases n
  {
    if n < 10 then [DigitChar(n)] else NatToString(n / 10) + [DigitChar(n % 10)]
  }

  /** `n.toString()` for an integer. */
  function IntToString(n: int): string {
    if n < 0 then "-" + NatToString(-n) else NatToString(n)
  }

  /** The value of a run of decimal digits, read left to right. */
  predicate AllDigits(s: string) {
    forall k :: 0 <= k < |s| ==> IsDigit(s[k])
  }

  function DigitsValue(s: string): nat
    requires AllDigits(s)
    decreases |s|
  {
    if s == [] then 0
    else
      assert IsDigit(s[|s| - 1]);
      DigitsValue(s[..|s| - 1]) * 10 + (s[|s| - 1] as int - '0' as int)
  }

  /** `Number(s)` on an optionally negated run of decimal digits; absent for
      any other text. */
  function ParseDecimal(s: string): Option<int> {
    if |s| > 0 && AllDigits(s) then Some(DigitsValue(s))
    else if |s| > 1 && s[0] == '-' && AllDigits(s[1..]) then Some(-(DigitsValue(s[1..]) as int))
    else None
  }

  lemma {:induction false} NatToStringRoundTrip(n: nat)
    ensures DigitsValue(NatToString(n)) == n
    decreases n
  {
    if n >= 10 {
      NatToStringRoundTrip(n / 10);
      var s := NatToString(n);
      assert s[..|s| - 1] == NatToString(n / 10);
      assert s[|s| - 1] == DigitChar(n % 10);
      assert DigitChar(n % 10) as int - '0' as int == n % 10 by {
        assert "0123456789"[n % 10] as int == '0' as int + n % 10;
      }
    } else {
      assert DigitChar(n) as int - '0' as int == n by {
        assert "0123456789"[n] as int == '0' as int + n;
      }
    }
  }

  /** `Number(String(n)) == n` for every integer. */
  lemma IntToStringRoundTrip(n: int)
    ensures ParseDecimal(IntToString(n)) == Some(n)
  {
    if n < 0 {
      NatToStringRoundTrip(-n);
      var t := NatToString(-n);
      var s := "-" + t;
      assert s[1..] == t;
      assert !AllDigits(s) by { assert !IsDigit(s[0]); }
      assert ParseDecimal(s) == Some(-(DigitsValue(t) as int));
    } else {
      NatToStringRoundTrip(n);
    }
  }

  // ---- constructor defaults ----

  datatype AuthStrategy =
    | NoAuth
    | LegacySessionAuth(session: Option<string>, restartOnAuthFail: bool)
    | GivenStrategy(name: string)

  /** The options after merging with the defaults; `sessionOwnProperty` is
      whether `session` is an own property of them (set, even to undefined). */
  datatype ClientOptions = ClientOptions(
    linkingMethod: Option<Auth.LinkingMethod>,
    authStrategy: Option<AuthStrategy>,
    sessionOwnProperty: bool,
    session: Option<string>,
    restartOnAuthFail: bool,
    qrMaxRetries: int)

  /** The linking method: the given one, else QR linking bounded by
      `qrMaxRetries`. */
  function ResolveLinkingMethod(o: ClientOptions): (r: Auth.LinkingMethod)
    ensures o.linkingMethod.Some? ==> r == o.linkingMethod.value
    ensures o.linkingMethod.None? ==> r == Auth.QrLinking(o.qrMaxRetries)
  {
    if o.linkingMethod.Some? then o.linkingMethod.value else Auth.QrLinking(o.qrMaxRetries)
  }

  /** The auth strategy: the given one; else the legacy session strategy when
      a `session` option is present; else no persistence. */
  function ResolveAuthStrategy(o: ClientOptions): (r: AuthStrategy)
    ensures o.authStrategy.Some? ==> r == o.authStrategy.value
    ensures o.authStrategy.None? ==> (r.LegacySessionAuth? <==> o.sessionOwnProperty)
    ensures o.authStrategy.None? && o.sessionOwnProperty ==>
              r == LegacySessionAuth(o.session, o.restartOnAuthFail)
    ensures o.authStrategy.None? && !o.sessionOwnProperty ==> r == NoAuth
  {
    if o.authStrategy.Some? then o.authStrategy.value
    else if o.sessionOwnProperty then LegacySessionAuth(o.session, o.restartOnAuthFail)
    else NoAuth
  }

  // ---- createGroup ----

  /** A participant: a `Contact` (by its serialized id) or any other value
      passed through as given. */
  datatype Participant = ContactParticipant(serializedId: string) | IdParticipant(id: string)

  /** The `participants` argument: not an array, or an array. */
  datatype ParticipantsArg = NotAnArray | ParticipantArray(items: seq<Participant>)

  /** One entry of the page result: the participant's serialized wid and its
      numeric `error`, if any. */
  datatype ParticipantResult = ParticipantResult(wid: string, error: Option<int>)

  datatype CreateRes = CreateRes(wid: string, participants: seq<ParticipantResult>)

  datatype GroupCreated = GroupCreated(gid: string, missingParticipants: map<string, string>)

  const NoParticipantsMessage := "You need to add at least one other participant to the group"

  /** The validation: an array with at least one element. */
  function CheckParticipants(p: ParticipantsArg): (r: Result<seq<Participant>, string>)
    ensures r.Err? <==> p.NotAnArray? || p.items == []
    ensures r.Err? ==> r.error == NoParticipantsMessage
    ensures r.Ok? ==> r.value == p.items
  {
    if p.NotAnArray? || p.items == [] then Err(NoParticipantsMessage) else Ok(p.items)
  }

  /** The ids sent to the page: when every participant is a contact, their
      serialized ids; otherwise the array as given. */
  function ParticipantIds(ps: seq<Participant>): (r: seq<Participant>)
    ensures |r| == |ps|
    ensures (forall k :: 0 <= k < |ps| ==> ps[k].ContactParticipant?) ==>
              forall k :: 0 <= k < |ps| ==> r[k] == IdParticipant(ps[k].serializedId)
    ensures (exists k :: 0 <= k < |ps| && !ps[k].ContactParticipant?) ==> r == ps
  {
    if forall k :: 0 <= k < |ps| ==> ps[k].ContactParticipant? then
      seq(|ps|, k requires 0 <= k < |ps| => IdParticipant(ps[k].serializedId))
    else ps
  }

  /** `c.error ? c.error.toString() : "200"`. */
  function StatusCode(c: ParticipantResult): string {
    if c.error.Some? && c.error.value != 0 then IntToString(c.error.value) else "200"
  }

  /** `statusCode != 200`, a loose comparison of the status text with a number. */
  predicate IsMissing(c: ParticipantResult) {
    ParseDecimal(StatusCode(c)) != Some(200)
  }

  /** `Object.assign` in a `reduce`: every kept entry assigns its value under
      its key, a later entry overwriting an earlier one with the same key. */
  function AssignKept<T>(cs: seq<T>, keep: T -> bool, key: T -> string, val: T -> string): map<string, string>
    decreases |cs|
  {
    if cs == [] then map[]
    else
      var m := AssignKept(cs[..|cs| - 1], keep, key, val);
      var c := cs[|cs| - 1];
      if keep(c) then m[key(c) := val(c)] else m
  }

  /** The last kept entry of `cs` with key `id` is at index `i`. */
  predicate LastKeptAt<T>(cs: seq<T>, keep: T -> bool, key: T -> string, id: string, i: int) {
    0 <= i < |cs| && key(cs[i]) == id && keep(cs[i]) &&
    forall j :: i < j < |cs| ==> !(key(cs[j]) == id && keep(cs[j]))
  }

  /** The keys assigned are exactly those of kept entries. */
  lemma {:induction false} AssignKeptDomain<T>(cs: seq<T>, keep: T -> bool, key: T -> string, val: T -> string, id: string)
    ensures id in AssignKept(cs, keep, key, val) <==> exists i :: 0 <= i < |cs| && key(cs[i]) == id && keep(cs[i])
    decreases |cs|
  {
    if cs != [] {
      var n := |cs| - 1;
      AssignKeptDomain(cs[..n], keep, key, val, id);
      if exists i :: 0 <= i < |cs| && key(cs[i]) == id && keep(cs[i]) {
        var i :| 0 <= i < |cs| && key(cs[i]) == id && keep(cs[i]);
        if i < n { assert cs[..n][i] == cs[i]; }
      }
      if exists i :: 0 <= i < n && key(cs[..n][i]) == id && keep(cs[..n][i]) {
        var i :| 0 <= i < n && key(cs[..n][i]) == id && keep(cs[..n][i]);
        assert cs[i] == cs[..n][i];
      }
    }
  }

  /** Each assigned key holds the value of its last kept entry. */
  lemma {:induction false} AssignKeptValue<T>(cs: seq<T>, keep: T -> bool, key: T -> string, val: T -> string, id: string)
    requires id in AssignKept(cs, keep, key, val)
    ensures exists i :: LastKeptAt(cs, keep, key, id, i) && AssignKept(cs, keep, key, val)[id] == val(cs[i])
    decreases |cs|
  {
    var n := |cs| - 1;
    var c := cs[n];
    if keep(c) && key(c) == id {
      assert LastKeptAt(cs, keep, key, id, n);
    } else {
      var init := cs[..n];
      AssignKeptValue(init, keep, key, val, id);
      var i :| LastKeptAt(init, keep, key, id, i) && AssignKept(init, keep, key, val)[id] == val(init[i]);
      assert init[i] == cs[i];
      assert LastKeptAt(cs, keep, key, id, i) by {
        forall j | i < j < |cs| ensures !(key(cs[j]) == id && keep(cs[j])) {
          if j < n { assert init[j] == cs[j]; }
        }
      }
    }
  }

  function Wid(c: ParticipantResult): string {
    c.wid
  }

  /** The `reduce` of `createGroup`: each missing participant's status under
      its wid. */
  function MissingParticipants(cs: seq<ParticipantResult>): map<string, string> {
    AssignKept(cs, IsMissing, Wid, StatusCode)
  }

  /** A participant is missing exactly when it reported a non-zero error other
      than 200. */
  lemma MissingIffErrorOtherThan200(c: ParticipantResult)
    ensures IsMissing(c) <==> c.error.Some? && c.error.value != 0 && c.error.value != 200
  {
    if c.error.Some? && c.error.value != 0 {
      IntToStringRoundTrip(c.error.value);
    } else {
      assert "200"[..2] == "20" && "20"[..1] == "2" && "2"[..0] == "";
      assert DigitsValue("200") == 200;
    }
  }

  /** `missingParticipants` holds exactly the wids of the missing entries, each
      with the status of its last missing entry. */
  lemma MissingParticipantsSpec(cs: seq<ParticipantResult>, id: string)
    ensures id in MissingParticipants(cs) <==> exists i :: 0 <= i < |cs| && cs[i].wid == id && IsMissing(cs[i])
    ensures id in MissingParticipants(cs) ==>
              exists i :: LastKeptAt(cs, IsMissing, Wid, id, i) && MissingParticipants(cs)[id] == StatusCode(cs[i])
  {
    AssignKeptDomain(cs, IsMissing, Wid, StatusCode, id);
    if id in MissingParticipants(cs) {
      AssignKeptValue(cs, IsMissing, Wid, StatusCode, id);
    }
  }

  /** `createGroup` once the page has answered (`page` maps the ids it is sent
      to its result). */
  function CreateGroup(name: string, participants: ParticipantsArg,
                       page: (string, seq<Participant>) -> CreateRes): (r: Result<GroupCreated, string>)
    ensures r.Err? <==> participants.NotAnArray? || participants.items == []
    ensures r.Err? ==> r.error == NoParticipantsMessage
    ensures r.Ok? ==>
              var res := page(name, ParticipantIds(participants.items));
              r.value.gid == res.wid && r.value.missingParticipants == MissingParticipants(res.participants)
  {
    match CheckParticipants(participants)
    case Err(e) => Err(e)
    case Ok(ps) =>
      var res := page(name, ParticipantIds(ps));
      Ok(GroupCreated(res.wid, MissingParticipants(res.participants)))
  }

  // ---- labels ----

  /** An entry of a label's item collection. */
  datatype LabelItem = LabelItem(parentType: string, parentId: string)

  /** The `reduce` of `getChatsByLabelId`: the parent ids of the chat items. */
  function ChatIdsOfLabel(items: seq<LabelItem>): seq<string>
    decreases |items|
  {
    if items == [] then []
    else
      var rest := ChatIdsOfLabel(items[..|items| - 1]);
      var it := items[|items| - 1];
      if it.parentType == "Chat" then rest + [it.parentId] else rest
  }

  /** The result holds the parent id of every chat item and nothing else, one
      entry per chat item. */
  lemma {:induction false} ChatIdsOfLabelSpec(items: seq<LabelItem>)
    ensures forall x :: x in ChatIdsOfLabel(items) <==>
              exists i :: 0 <= i < |items| && items[i].parentType == "Chat" && items[i].parentId == x
    ensures |ChatIdsOfLabel(items)| <= |items|
    ensures (forall i :: 0 <= i < |items| ==> items[i].parentType == "Chat") ==> |ChatIdsOfLabel(items)| == |items|
    decreases |items|
  {
    if items != [] {
      var n := |items| - 1;
      ChatIdsOfLabelSpec(items[..n]);
      assert forall i :: 0 <= i < n ==> items[..n][i] == items[i];
    }
  }

  /** The reduce keeps order and multiplicity: it works item by item, so the
      ids of two runs of items are the ids of the first run followed by those
      of the second. */
  lemma {:induction false} ChatIdsOfLabelAppend(x: seq<LabelItem>, y: seq<LabelItem>)
    ensures ChatIdsOfLabel(x + y) == ChatIdsOfLabel(x) + ChatIdsOfLabel(y)
    decreases |y|
  {
    if y == [] {
      assert x + y == x;
    } else {
      var y0 := y[..|y| - 1];
      ChatIdsOfLabelAppend(x, y0);
      assert (x + y)[..|x + y| - 1] == x + y0;
    }
  }

  /** One item contributes its parent id exactly when it is a chat. */
  lemma ChatIdsOfLabelSingle(it: LabelItem)
    ensures ChatIdsOfLabel([it]) == if it.parentType == "Chat" then [it.parentId] else []
  {
    assert [it][..0] == [];
  }

  datatype LabelModel = LabelModel(id: string, name: string)

  /** A chat as the label command sees it: its serialized id and its label ids
      (absent when the chat has none). */
  datatype LabelledChat = LabelledChat(id: string, labels: Option<seq<string>>)

  datatype ActionType = Add | Remove

  datatype LabelAction = LabelAction(id: string, actionType: ActionType)

  datatype LabelRequest = LabelRequest(actions: seq<LabelAction>, chats: seq<LabelledChat>)

  const NotBusinessMessage := "[LT01] Only Whatsapp business"

  /** The labels whose id is among `labelIds`, in store order. */
  function SelectLabels(all: seq<LabelModel>, labelIds: seq<string>): (r: seq<LabelModel>)
    ensures forall l :: l in r <==> l in all && l.id in labelIds
    decreases |all|
  {
    if all == [] then []
    else (if all[0].id in labelIds then [all[0]] else []) + SelectLabels(all[1..], labelIds)
  }

  /** The chats whose id is among `chatIds`, in store order. */
  function SelectChats(all: seq<LabelledChat>, chatIds: seq<string>): (r: seq<LabelledChat>)
    ensures forall c :: c in r <==> c in all && c.id in chatIds
    decreases |all|
  {
    if all == [] then []
    else (if all[0].id in chatIds then [all[0]] else []) + SelectChats(all[1..], chatIds)
  }

  function AddActions(labels: seq<LabelModel>): (r: seq<LabelAction>)
    ensures |r| == |labels| && forall k :: 0 <= k < |labels| ==> r[k] == LabelAction(labels[k].id, Add)
  {
    seq(|labels|, k requires 0 <= k < |labels| => LabelAction(labels[k].id, Add))
  }

  predicate HasActionFor(actions: seq<LabelAction>, id: string) {
    exists k | 0 <= k < |actions| :: actions[k].id == id
  }

  /** The ids of the selected chats' labels, chat by chat. */
  function ChatLabelIds(chats: seq<LabelledChat>): seq<string>
    decreases |chats|
  {
    if chats == [] then []
    else
      ChatLabelIds(chats[..|chats| - 1]) + LabelsOf(chats[|chats| - 1])
  }

  /** `chat.labels`, with no labels when absent. */
  function LabelsOf(c: LabelledChat): seq<string> {
    if c.labels.Some? then c.labels.value else []
  }

  /** One more chat adds its label ids to the remove pass. */
  lemma LabelActionsStep(adds: seq<LabelAction>, chats: seq<LabelledChat>, i: nat)
    requires i < |chats|
    ensures RemovePass(adds, ChatLabelIds(chats[..i + 1])) ==
            RemovePass(RemovePass(adds, ChatLabelIds(chats[..i])), LabelsOf(chats[i]))
  {
    assert chats[..i + 1][..i] == chats[..i];
    RemovePassAppend(adds, ChatLabelIds(chats[..i]), LabelsOf(chats[i]));
  }

  /** The nested `forEach`: each label id of a chat not yet in `actions` gets
      a `remove` action. */
  function RemovePass(actions: seq<LabelAction>, ids: seq<string>): seq<LabelAction>
    decreases |ids|
  {
    if ids == [] then actions
    else
      var p := RemovePass(actions, ids[..|ids| - 1]);
      var n := ids[|ids| - 1];
      if HasActionFor(p, n) then p else p + [LabelAction(n, Remove)]
  }

  /** The action list `addOrRemoveLabels` sends to the page. */
  function LabelActions(labels: seq<LabelModel>, chats: seq<LabelledChat>): seq<LabelAction> {
    RemovePass(AddActions(labels), ChatLabelIds(chats))
  }

  /** The remove pass over two runs of ids is the pass over the second run
      after the pass over the first. */
  lemma {:induction false} RemovePassAppend(actions: seq<LabelAction>, x: seq<string>, y: seq<string>)
    ensures RemovePass(actions, x + y) == RemovePass(RemovePass(actions, x), y)
    decreases |y|
  {
    if y == [] {
      assert x + y == x;
    } else {
      var y0 := y[..|y| - 1];
      RemovePassAppend(actions, x, y0);
      assert (x + y)[..|x + y| - 1] == x + y0;
    }
  }

  /** The inner `forEach` over one chat's label ids. */
  method AppendRemoves(actions: seq<LabelAction>, ids: seq<string>) returns (r: seq<LabelAction>)
    ensures r == RemovePass(actions, ids)
  {
    r := actions;
    var j := 0;
    while j < |ids|
      invariant 0 <= j <= |ids|
      invariant r == RemovePass(actions, ids[..j])
    {
      assert ids[..j + 1][..j] == ids[..j];
      if !HasActionFor(r, ids[j]) {
        r := r + [LabelAction(ids[j], Remove)];
      }
      j := j + 1;
    }
    assert ids[..j] == ids;
  }

  /** `addOrRemoveLabels` on the page: only business platforms; the selected
      labels are added, and every other label of the selected chats removed. */
  method AddOrRemoveLabels(platform: string, labelIds: seq<string>, allLabels: seq<LabelModel>,
                           chatIds: seq<string>, allChats: seq<LabelledChat>)
    returns (r: Result<LabelRequest, string>)
    ensures platform !in {"smba", "smbi"} <==> r.Err?
    ensures r.Err? ==> r.error == NotBusinessMessage
    ensures r.Ok? ==> r.value.chats == SelectChats(allChats, chatIds) &&
                      r.value.actions == LabelActions(SelectLabels(allLabels, labelIds), r.value.chats)
  {
    if platform !in {"smba", "smbi"} {
      return Err(NotBusinessMessage);
    }
    var labels := SelectLabels(allLabels, labelIds);
    var chats := SelectChats(allChats, chatIds);
    ghost var adds := AddActions(labels);
    var actions := AddActions(labels);
    var i := 0;
    while i < |chats|
      invariant 0 <= i <= |chats|
      invariant actions == RemovePass(adds, ChatLabelIds(chats[..i]))
    {
      var ids := if chats[i].labels.Some? then chats[i].labels.value else [];
      LabelActionsStep(adds, chats, i);
      actions := AppendRemoves(actions, ids);
      i := i + 1;
    }
    assert chats[..i] == chats;
    return Ok(LabelRequest(actions, chats));
  }

  /** The action list starts with one `add` per selected label, in order; every
      label of a selected chat has an action; a `remove` is never issued for a
      label already acted on, so no id is removed twice or both added and
      removed. */
  lemma {:induction false} RemovePassSpec(adds: seq<LabelAction>, ids: seq<string>)
    ensures |RemovePass(adds, ids)| >= |adds| && RemovePass(adds, ids)[..|adds|] == adds
    ensures forall k :: 0 <= k < |ids| ==> HasActionFor(RemovePass(adds, ids), ids[k])
    ensures forall k :: |adds| <= k < |RemovePass(adds, ids)| ==>
              RemovePass(adds, ids)[k].actionType == Remove &&
              !HasActionFor(RemovePass(adds, ids)[..k], RemovePass(adds, ids)[k].id)
    ensures forall k :: |adds| <= k < |RemovePass(adds, ids)| ==> RemovePass(adds, ids)[k].id in ids
    decreases |ids|
  {
    if ids != [] {
      var init := ids[..|ids| - 1];
      RemovePassSpec(adds, init);
      var p := RemovePass(adds, init);
      var n := ids[|ids| - 1];
      var r := RemovePass(adds, ids);
      assert forall x :: x in init ==> x in ids;
      forall k | 0 <= k < |ids| ensures HasActionFor(r, ids[k]) {
        if k < |ids| - 1 {
          assert init[k] == ids[k];
          var w :| 0 <= w < |p| && p[w].id == ids[k];
          assert r[w] == p[w];
        } else if !HasActionFor(p, n) {
          assert r[|p|].id == n;
        } else {
          assert r == p;
        }
      }
      if !HasActionFor(p, n) {
        assert r[..|p|] == p;
        assert r[..|adds|] == p[..|adds|];
        forall k | |adds| <= k < |r|
          ensures r[k].actionType == Remove && !HasActionFor(r[..k], r[k].id)
        {
          if k < |p| {
            assert r[..k] == p[..k];
          }
        }
      }
    }
  }

  /** No id gets two actions. */
  lemma ActionIdsAreDistinct(labels: seq<LabelModel>, chats: seq<LabelledChat>, a: nat, b: nat)
    requires forall x, y :: 0 <= x < y < |labels| ==> labels[x].id != labels[y].id
    requires a < b < |LabelActions(labels, chats)|
    ensures LabelActions(labels, chats)[a].id != LabelActions(labels, chats)[b].id
  {
    var adds := AddActions(labels);
    var r := LabelActions(labels, chats);
    RemovePassSpec(adds, ChatLabelIds(chats));
    if b >= |adds| {
      assert !HasActionFor(r[..b], r[b].id);
      assert r[..b][a] == r[a];
    } else {
      assert r[a] == adds[a] && r[b] == adds[b];
    }
  }

  // ---- number helpers ----

  const ContactSuffix := "@c.us"
  const WhatsAppSuffix := "@s.whatsapp.net"

  /** `getNumberId`'s normalisation: append `@c.us` unless already there. */
  function NumberId(number: string): (r: string)
    ensures EndsWith(r, ContactSuffix)
    ensures EndsWith(number, ContactSuffix) ==> r == number
    ensures !EndsWith(number, ContactSuffix) ==> r == number + ContactSuffix
  {
    if EndsWith(number, ContactSuffix) then number
    else
      var r := number + ContactSuffix;
      assert r[|r| - |ContactSuffix|..] == ContactSuffix;
      r
  }

  lemma NumberIdIsIdempotent(number: string)
    ensures NumberId(NumberId(number)) == NumberId(number)
  {
  }

  /** `getFormattedNumber`'s normalisation: unless it already ends with the
      WhatsApp suffix, replace the FIRST `c.us`; then append the suffix unless
      it occurs somewhere. */
  function FormattedNumber(number: string): (r: string)
    ensures Contains(r, WhatsAppSuffix)
  {
    var a := if EndsWith(number, WhatsAppSuffix) then number else ReplaceFirst(number, "c.us", "s.whatsapp.net");
    if Contains(a, WhatsAppSuffix) then a
    else
      var r := a + WhatsAppSuffix;
      assert OccursAt(r, WhatsAppSuffix, |a|);
      r
  }

  /** A string of digits has no `c`, `@`, space or `+`. */
  lemma DigitsHaveNo(d: string, c: char)
    requires AllDigits(d) && !IsDigit(c)
    ensures forall k :: 0 <= k < |d| ==> d[k] != c
  {
  }

  /** A bare number gets the suffix; a contact id has its `c.us` replaced. */
  lemma FormattedNumberOfDigits(d: string)
    requires AllDigits(d)
    ensures FormattedNumber(d) == d + WhatsAppSuffix
    ensures FormattedNumber(d + ContactSuffix) == d + WhatsAppSuffix
  {
    FormattedNumberOfBareDigits(d);
    FormattedNumberOfContactId(d);
  }

  lemma FormattedNumberOfBareDigits(d: string)
    requires AllDigits(d)
    ensures FormattedNumber(d) == d + WhatsAppSuffix
  {
    DigitsHaveNo(d, 'c');
    NotContainsWhenNoChar(d, "c.us", 'c');
    DigitsHaveNo(d, '@');
    NotContainsWhenNoChar(d, WhatsAppSuffix, '@');
    assert !EndsWith(d, WhatsAppSuffix) by {
      if |d| >= |WhatsAppSuffix| {
        assert d[|d| - |WhatsAppSuffix|..][0] == d[|d| - |WhatsAppSuffix|];
      }
    }
  }

  lemma FormattedNumberOfContactId(d: string)
    requires AllDigits(d)
    ensures FormattedNumber(d + ContactSuffix) == d + WhatsAppSuffix
  {
    var s := d + ContactSuffix;
    ContactIdIsNotFormatted(d);
    FirstCUsOfContactId(d);
    assert s[..|d| + 1] + "s.whatsapp.net" + s[|d| + 5..] == d + WhatsAppSuffix;
    assert OccursAt(d + WhatsAppSuffix, WhatsAppSuffix, |d|);
  }

  lemma ContactIdIsNotFormatted(d: string)
    ensures !EndsWith(d + ContactSuffix, WhatsAppSuffix)
  {
    var s := d + ContactSuffix;
    if |s| >= |WhatsAppSuffix| {
      assert s[|s| - |WhatsAppSuffix|..][|WhatsAppSuffix| - 5] == s[|s| - 5];
    }
  }

  /** In `<digits>@c.us` the first `c.us` is the one after the `@`. */
  lemma FirstCUsOfContactId(d: string)
    requires AllDigits(d)
    ensures Find(d + ContactSuffix, "c.us") == Some(|d| + 1)
  {
    var s := d + ContactSuffix;
    assert OccursAt(s, "c.us", |d| + 1);
    forall j: nat | j < |d| + 1 ensures !OccursAt(s, "c.us", j) {
      assert s[j..j + 4][0] == s[j];
      if j < |d| { assert s[j] == d[j]; } else { assert s[j] == '@'; }
    }
  }

  /** `getCountryCode`'s normalisation: drop the first space, then the first
      `+`, then the first `@c.us`; each `replace` removes one occurrence only. */
  function CountryCodeInput(number: string): (r: string)
    ensures |r| <= |number|
    ensures !Contains(number, " ") && !Contains(number, "+") && !Contains(number, ContactSuffix) ==> r == number
  {
    ReplaceFirst(ReplaceFirst(ReplaceFirst(number, " ", ""), "+", ""), ContactSuffix, "")
  }

  /** The first space after `+<digits>` is the one removed. */
  lemma DropSpaceAfterDigits(d: string, rest: string)
    requires AllDigits(d)
    ensures ReplaceFirst("+" + d + " " + rest, " ", "") == "+" + d + rest
  {
    var s := "+" + d + " " + rest;
    var n := 1 + |d|;
    forall j: nat | j < n ensures !OccursAt(s, " ", j) {
      assert s[j..j + 1][0] == s[j];
      if j > 0 { assert s[j] == d[j - 1]; }
    }
    assert OccursAt(s, " ", n);
    ReplaceFirstAt(s, " ", "", n);
    assert s[..n] + "" + s[n + 1..] == "+" + d + rest;
  }

  lemma DropLeadingPlus(x: string)
    ensures ReplaceFirst("+" + x, "+", "") == x
  {
    var s := "+" + x;
    assert OccursAt(s, "+", 0);
    ReplaceFirstAt(s, "+", "", 0);
    assert s[..0] + "" + s[1..] == x;
  }

  lemma DropContactSuffixAfterDigits(d: string)
    requires AllDigits(d)
    ensures ReplaceFirst(d + ContactSuffix, ContactSuffix, "") == d
  {
    var s := d + ContactSuffix;
    forall j: nat | j < |d| ensures !OccursAt(s, ContactSuffix, j) {
      assert s[j..j + |ContactSuffix|][0] == s[j] == d[j];
    }
    assert OccursAt(s, ContactSuffix, |d|);
    ReplaceFirstAt(s, ContactSuffix, "", |d|);
    assert s[..|d|] + "" + s[|d| + |ContactSuffix|..] == d;
  }

  /** On a contact id written `+<d1> <d2>@c.us` with digit groups `d1` and
      `d2`, the three replacements leave exactly the digits `d1 + d2`. */
  lemma CountryCodeInputOfContactId(d1: string, d2: string)
    requires AllDigits(d1) && AllDigits(d2)
    ensures CountryCodeInput("+" + d1 + " " + d2 + ContactSuffix) == d1 + d2
  {
    var s0 := "+" + d1 + " " + d2 + ContactSuffix;
    var rest := d2 + ContactSuffix;
    var s1 := ReplaceFirst(s0, " ", "");
    assert s1 == "+" + (d1 + d2 + ContactSuffix) by {
      assert s0 == "+" + d1 + " " + rest;
      DropSpaceAfterDigits(d1, rest);
    }
    var s2 := ReplaceFirst(s1, "+", "");
    assert s2 == (d1 + d2) + ContactSuffix by {
      DropLeadingPlus(d1 + d2 + ContactSuffix);
    }
    DigitsConcat(d1, d2);
    DropContactSuffixAfterDigits(d1 + d2);
    assert CountryCodeInput(s0) == ReplaceFirst(s2, ContactSuffix, "");
  }

  lemma DigitsConcat(d1: string, d2: string)
    requires AllDigits(d1) && AllDigits(d2)
    ensures AllDigits(d1 + d2)
  {
    forall k | 0 <= k < |d1 + d2| ensures IsDigit((d1 + d2)[k]) {
      if k >= |d1| { assert (d1 + d2)[k] == d2[k - |d1|]; }
    }
  }

  /** A second space survives: only the first one is removed. */
  lemma CountryCodeKeepsSecondSpace()
    ensures CountryCodeInput("62 812 34") == "62812 34"
  {
    var s := "62 812 34";
    assert OccursAt(s, " ", 2);
    assert s[0..1] == "6" && s[1..2] == "2";
    assert Find(s, " ") == Some(2);
    var t := "62812 34";
    assert s[..2] + "" + s[3..] == t;
    forall k | 0 <= k < |t| ensures t[k] != '+' && t[k] != '@' { }
    NotContainsWhenNoChar(t, "+", '+');
    NotContainsWhenNoChar(t, ContactSuffix, '@');
  }

  // ---- getName ----

  datatype ContactNames = ContactNames(
    name: Option<string>, pushname: Option<string>, shortName: Option<string>, number: Option<string>)

  /** The first truthy value of `candidates`, else `last`. */
  function FirstTruthy(candidates: seq<Option<string>>, last: Option<string>): Option<string>
    decreases |candidates|
  {
    if candidates == [] then last
    else if Truthy(candidates[0]) then candidates[0]
    else FirstTruthy(candidates[1..], last)
  }

  /** `FirstTruthy` picks the earliest truthy candidate, and `last` when there
      is none. */
  lemma {:induction false} FirstTruthySpec(candidates: seq<Option<string>>, last: Option<string>)
    ensures (exists k :: 0 <= k < |candidates| && Truthy(candidates[k])) ==>
              exists k :: 0 <= k < |candidates| && Truthy(candidates[k]) &&
                FirstTruthy(candidates, last) == candidates[k] &&
                forall j :: 0 <= j < k ==> !Truthy(candidates[j])
    ensures (forall k :: 0 <= k < |candidates| ==> !Truthy(candidates[k])) ==> FirstTruthy(candidates, last) == last
    decreases |candidates|
  {
    if candidates != [] && !Truthy(candidates[0]) {
      var tail := candidates[1..];
      FirstTruthySpec(tail, last);
      assert forall k :: 1 <= k < |candidates| ==> candidates[k] == tail[k - 1];
      if exists k :: 0 <= k < |candidates| && Truthy(candidates[k]) {
        var k :| 0 <= k < |candidates| && Truthy(candidates[k]);
        assert Truthy(tail[k - 1]);
        var m :| 0 <= m < |tail| && Truthy(tail[m]) && FirstTruthy(tail, last) == tail[m] &&
                 forall j :: 0 <= j < m ==> !Truthy(tail[j]);
        assert Truthy(candidates[m + 1]) && FirstTruthy(candidates, last) == candidates[m + 1];
      }
    }
  }

  /** `contact.name || contact.pushname || contact.shortName || contact.number`:
      the first truthy name, the number when none is. */
  function GetName(c: ContactNames): (r: Option<string>)
    ensures Truthy(c.name) ==> r == c.name
    ensures !Truthy(c.name) && Truthy(c.pushname) ==> r == c.pushname
    ensures !Truthy(c.name) && !Truthy(c.pushname) && Truthy(c.shortName) ==> r == c.shortName
    ensures !Truthy(c.name) && !Truthy(c.pushname) && !Truthy(c.shortName) ==> r == c.number
  {
    OrElse(c.name, OrElse(c.pushname, OrElse(c.shortName, c.number)))
  }

  lemma GetNameIsFirstTruthy(c: ContactNames)
    ensures GetName(c) == FirstTruthy([c.name, c.pushname, c.shortName], c.number)
  {
    var cs := [c.name, c.pushname, c.shortName];
    assert cs[1..] == [c.pushname, c.shortName];
    assert cs[1..][1..] == [c.shortName];
    assert cs[1..][1..][1..] == [];
    assert FirstTruthy(cs[1..][1..], c.number) == OrElse(c.shortName, c.number);
    assert FirstTruthy(cs[1..], c.number) == OrElse(c.pushname, OrElse(c.shortName, c.number));
  }

  // ---- acceptGroupV4Invite ----

  /** `inviteInfo`; `inviteCodeExp` is a number or undefined. */
  datatype InviteV4 = InviteV4(groupId: string, fromId: string, inviteCode: Option<string>, inviteCodeExp: Option<int>)

  /** The page call: code, `String(inviteCodeExp)`, group id and the inviter. */
  datatype JoinV4Request = JoinV4Request(inviteCode: string, inviteCodeExp: string, groupId: string, fromId: string)

  const InvalidInviteMessage := "Invalid invite code, try passing the message.inviteV4 object"
  const ExpiredInviteMessage := "Expired invite code"

  function AcceptGroupV4Invite(info: InviteV4): (r: Result<JoinV4Request, string>)
    ensures !Truthy(info.inviteCode) ==> r == Err(InvalidInviteMessage)
    ensures Truthy(info.inviteCode) && info.inviteCodeExp == Some(0) ==> r == Err(ExpiredInviteMessage)
    ensures r.Ok? <==> Truthy(info.inviteCode) && info.inviteCodeExp != Some(0)
    ensures r.Ok? ==> r.value.inviteCode == info.inviteCode.value && r.value.groupId == info.groupId &&
                      r.value.fromId == info.fromId &&
                      (info.inviteCodeExp.Some? ==> ParseDecimal(r.value.inviteCodeExp) == info.inviteCodeExp)
  {
    if !Truthy(info.inviteCode) then Err(InvalidInviteMessage)
    else if info.inviteCodeExp == Some(0) then Err(ExpiredInviteMessage)
    else match info.inviteCodeExp
      case None => Ok(JoinV4Request(info.inviteCode.value, "undefined", info.groupId, info.fromId))
      case Some(e) =>
        IntToStringRoundTrip(e);
        Ok(JoinV4Request(info.inviteCode.value, IntToString(e), info.groupId, info.fromId))
  }

  // ---- getMessageById ----

  /** `s.split(sep)` with a one-character separator. */
  function Split(s: string, sep: char): (r: seq<string>)
    ensures |r| > 0
    decreases |s|
  {
    if s == [] then [""]
    else
      var rest := Split(s[1..], sep);
      if s[0] == sep then [""] + rest else [[s[0]] + rest[0]] + rest[1..]
  }

  function Join(parts: seq<string>, sep: char): string
    decreases |parts|
  {
    if parts == [] then ""
    else if |parts| == 1 then parts[0]
    else parts[0] + [sep] + Join(parts[1..], sep)
  }

  function Count(s: string, c: char): nat
    decreases |s|
  {
    if s == [] then 0 else (if s[0] == c then 1 else 0) + Count(s[1..], c)
  }

  /** Splitting is undone by joining, and gives one part more than separators. */
  lemma {:induction false} SplitJoin(s: string, sep: char)
    ensures Join(Split(s, sep), sep) == s
    ensures |Split(s, sep)| == Count(s, sep) + 1
    decreases |s|
  {
    if s != [] {
      SplitJoin(s[1..], sep);
      var rest := Split(s[1..], sep);
      if s[0] == sep {
        assert Split(s, sep) == [""] + rest;
        assert ([""] + rest)[1..] == rest;
      } else {
        var parts := [[s[0]] + rest[0]] + rest[1..];
        assert Split(s, sep) == parts;
        if |rest| == 1 {
          assert Join(parts, sep) == [s[0]] + rest[0];
        } else {
          assert parts[1..] == rest[1..];
          assert Join(rest, sep) == rest[0] + [sep] + Join(rest[1..], sep);
        }
        assert Join(parts, sep) == [s[0]] + Join(rest, sep);
      }
    }
  }

  const InvalidMessageIdMessage := "Invalid serialized message id specified"

  /** The page part of `getMessageById`: a message already in the store is
      returned; otherwise the id must have three `_`-separated parts, and the
      first message the store fetches for it (if any) is returned. */
  function GetMessageById<M>(messageId: string, store: map<string, M>, fetch: string -> seq<M>): (r: Result<Option<M>, string>)
    ensures messageId in store ==> r == Ok(Some(store[messageId]))
    ensures r.Err? <==> messageId !in store && Count(messageId, '_') != 2
    ensures r.Err? ==> r.error == InvalidMessageIdMessage
    ensures messageId !in store && r.Ok? ==>
              (r.value.Some? <==> |fetch(messageId)| > 0) &&
              (r.value.Some? ==> r.value.value == fetch(messageId)[0])
  {
    if messageId in store then Ok(Some(store[messageId]))
    else
      SplitJoin(messageId, '_');
      if |Split(messageId, '_')| != 3 then Err(InvalidMessageIdMessage)
      else
        var found := fetch(messageId);
        if |found| > 0 then Ok(Some(found[0])) else Ok(None)
  }
}
