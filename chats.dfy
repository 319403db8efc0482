/** `pinChat` and `unpinChat` run against the page's chat collection: an
    ordered array of chat models, each with a `pin` flag. Chats are looked up
    by id; a chat unknown to the store makes the page script fail on `chat.pin`. */
module Chats {
  import opened Common

  datatype ChatEntry = ChatEntry(id: string, pin: bool)

  const MaxPinCount := 3
  const UndefinedPinMessage := "Cannot read properties of undefined (reading 'pin')"

  /** `Store.Chat.get(chatId)`: the first chat in collection order with that id. */
  function IndexOf(s: seq<ChatEntry>, id: string): (r: Option<nat>)
    ensures r.Some? ==> r.value < |s| && s[r.value].id == id && forall j :: 0 <= j < r.value ==> s[j].id != id
    ensures r.None? ==> forall j :: 0 <= j < |s| ==> s[j].id != id
  {
    if s == [] then None
    else if s[0].id == id then Some(0)
    else match IndexOf(s[1..], id)
      case None => None
      case Some(k) => Some(k + 1)
  }

  /** The limit check of `pinChat`: more than three chats, and the third in
      collection order already pinned. */
  predicate PinLimitReached(s: seq<ChatEntry>) {
    |s| > MaxPinCount && s[MaxPinCount - 1].pin
  }

  /** What `pinChat` returns: the new pin state of the chat. */
  function PinResult(s: seq<ChatEntry>, id: string): Result<bool, string> {
    match IndexOf(s, id)
    case None => Err(UndefinedPinMessage)
    case Some(i) =>
      if s[i].pin then Ok(true)
      else if PinLimitReached(s) then Ok(false)
      else Ok(true)
  }

  /** The collection after `pinChat`: only an unpinned chat below the limit is pinned. */
  function AfterPin(s: seq<ChatEntry>, id: string): seq<ChatEntry> {
    match IndexOf(s, id)
    case None => s
    case Some(i) =>
      if s[i].pin || PinLimitReached(s) then s else s[i := s[i].(pin := true)]
  }

  /** What `unpinChat` returns: always `false` once the chat is found. */
  function UnpinResult(s: seq<ChatEntry>, id: string): Result<bool, string> {
    match IndexOf(s, id)
    case None => Err(UndefinedPinMessage)
    case Some(_) => Ok(false)
  }

  function AfterUnpin(s: seq<ChatEntry>, id: string): seq<ChatEntry> {
    match IndexOf(s, id)
    case None => s
    case Some(i) => if !s[i].pin then s else s[i := s[i].(pin := false)]
  }

  /** `pinChat`: a missing chat is an error and changes nothing; an already
      pinned chat answers `true` unchanged; a reached limit answers `false`
      unchanged; otherwise exactly that chat becomes pinned. In every case the
      answer is the chat's pin state afterwards. */
  lemma PinChatOutcome(s: seq<ChatEntry>, id: string)
    ensures PinResult(s, id).Err? <==> forall j :: 0 <= j < |s| ==> s[j].id != id
    ensures PinResult(s, id).Err? ==> AfterPin(s, id) == s
    ensures var t := AfterPin(s, id);
      |t| == |s| &&
      forall j :: 0 <= j < |s| ==> t[j].id == s[j].id
    ensures IndexOf(s, id).Some? ==>
      var i := IndexOf(s, id).value;
      PinResult(s, id) == Ok(AfterPin(s, id)[i].pin) &&
      (PinResult(s, id) == Ok(false) <==> !s[i].pin && PinLimitReached(s)) &&
      (forall j :: 0 <= j < |s| && j != i ==> AfterPin(s, id)[j] == s[j])
  {
  }

  /** `unpinChat`: a missing chat is an error and changes nothing; otherwise
      the answer is `false`, the chat is unpinned afterwards, and no other chat
      changes. */
  lemma UnpinChatOutcome(s: seq<ChatEntry>, id: string)
    ensures UnpinResult(s, id).Err? <==> forall j :: 0 <= j < |s| ==> s[j].id != id
    ensures UnpinResult(s, id).Err? ==> AfterUnpin(s, id) == s
    ensures IndexOf(s, id).Some? ==>
      var i := IndexOf(s, id).value;
      UnpinResult(s, id) == Ok(false) &&
      |AfterUnpin(s, id)| == |s| &&
      !AfterUnpin(s, id)[i].pin &&
      (forall j :: 0 <= j < |s| && j != i ==> AfterUnpin(s, id)[j] == s[j])
  {
  }

  /** Pinning twice is pinning once, and the second call answers with the pin
      state the first one left. */
  lemma PinIsIdempotent(s: seq<ChatEntry>, id: string)
    ensures AfterPin(AfterPin(s, id), id) == AfterPin(s, id)
    ensures PinResult(AfterPin(s, id), id) == (if IndexOf(s, id).None? then PinResult(s, id) else Ok(AfterPin(s, id)[IndexOf(s, id).value].pin))
  {
    var t := AfterPin(s, id);
    match IndexOf(s, id)
    case None =>
    case Some(i) =>
      IndexOfStable(s, id, i, t);
  }

  /** Changing only pin flags keeps every lookup where it was. */
  lemma IndexOfStable(s: seq<ChatEntry>, id: string, i: nat, t: seq<ChatEntry>)
    requires IndexOf(s, id) == Some(i)
    requires |t| == |s| && forall j :: 0 <= j < |s| ==> t[j].id == s[j].id
    ensures IndexOf(t, id) == Some(i)
  {
    assert t[i].id == id;
  }

  /** The number of pinned chats. */
  function PinnedCount(s: seq<ChatEntry>): (n: nat)
    ensures n <= |s|
  {
    if s == [] then 0 else PinnedCount(s[..|s| - 1]) + (if s[|s| - 1].pin then 1 else 0)
  }

  /** WhatsApp keeps pinned chats first in its collection order. */
  predicate PinnedFirst(s: seq<ChatEntry>) {
    forall i, j :: 0 <= i < j < |s| && s[j].pin ==> s[i].pin
  }

  lemma {:induction false} PinnedCountUpdate(s: seq<ChatEntry>, i: nat, e: ChatEntry)
    requires i < |s|
    ensures PinnedCount(s[i := e]) == PinnedCount(s) - (if s[i].pin then 1 else 0) + (if e.pin then 1 else 0)
    decreases |s|
  {
    var t := s[i := e];
    if i == |s| - 1 {
      assert t[..|t| - 1] == s[..|s| - 1];
    } else {
      assert t[..|t| - 1] == s[..|s| - 1][i := e];
      PinnedCountUpdate(s[..|s| - 1], i, e);
    }
  }

  lemma {:induction false} PinnedCountWithin(s: seq<ChatEntry>, k: nat)
    requires k <= |s|
    requires forall j :: k <= j < |s| ==> !s[j].pin
    ensures PinnedCount(s) == PinnedCount(s[..k])
    decreases |s|
  {
    if |s| == k {
      assert s[..k] == s;
    } else {
      assert s[..|s| - 1][..k] == s[..k];
      PinnedCountWithin(s[..|s| - 1], k);
    }
  }

  /** The limit check looks at the third chat only, so it keeps at most three
      chats pinned as long as pinned chats come first in the collection. */
  lemma PinKeepsAtMostThreePinned(s: seq<ChatEntry>, id: string)
    requires PinnedFirst(s) && PinnedCount(s) <= MaxPinCount
    ensures PinnedCount(AfterPin(s, id)) <= MaxPinCount
  {
    match IndexOf(s, id)
    case None =>
    case Some(i) =>
      if !s[i].pin && !PinLimitReached(s) {
        PinnedCountUpdate(s, i, s[i].(pin := true));
        if |s| > MaxPinCount {
          assert !s[2].pin;
          PinnedCountWithin(s, 2);
        }
      }
  }

  /** Without that order the check is not enough: here a fourth chat gets pinned. */
  lemma LimitNeedsPinnedFirst()
    ensures var s := [ChatEntry("a", false), ChatEntry("b", true), ChatEntry("c", false), ChatEntry("d", true), ChatEntry("e", true)];
      PinnedCount(s) == 3 && PinnedCount(AfterPin(s, "a")) == 4
  {
    var s := [ChatEntry("a", false), ChatEntry("b", true), ChatEntry("c", false), ChatEntry("d", true), ChatEntry("e", true)];
    assert IndexOf(s, "a") == Some(0);
    var t := AfterPin(s, "a");
    assert t == [ChatEntry("a", true), ChatEntry("b", true), ChatEntry("c", false), ChatEntry("d", true), ChatEntry("e", true)];
    assert s[..1][..0] == [] && t[..1][..0] == [];
    assert PinnedCount(s[..1]) == 0 && PinnedCount(t[..1]) == 1;
    assert s[..2][..1] == s[..1] && t[..2][..1] == t[..1];
    assert PinnedCount(s[..2]) == 1 && PinnedCount(t[..2]) == 2;
    assert s[..3][..2] == s[..2] && t[..3][..2] == t[..2];
    assert PinnedCount(s[..3]) == 1 && PinnedCount(t[..3]) == 2;
    assert s[..4][..3] == s[..3] && t[..4][..3] == t[..3];
    assert PinnedCount(s[..4]) == 2 && PinnedCount(t[..4]) == 3;
    assert s[..4] == s[..|s| - 1] && t[..4] == t[..|t| - 1];
  }

  /** The page's chat collection. */
  class ChatStore {
    var chats: array<ChatEntry>

    constructor (initial: seq<ChatEntry>)
      ensures chats[..] == initial && fresh(chats)
    {
      chats := new ChatEntry[|initial|](i requires 0 <= i < |initial| => initial[i]);
    }

    /** `Store.Chat.get`: a linear lookup in collection order. */
    method Get(id: string) returns (r: Option<nat>)
      ensures r == IndexOf(chats[..], id)
    {
      var i := 0;
      while i < chats.Length
        invariant 0 <= i <= chats.Length
        invariant forall j :: 0 <= j < i ==> chats[j].id != id
      {
        if chats[i].id == id {
          IndexOfFirst(chats[..], id, i);
          return Some(i);
        }
        i := i + 1;
      }
      IndexOfNone(chats[..], id);
      return None;
    }

    method PinChat(id: string) returns (r: Result<bool, string>)
      modifies chats
      ensures r == PinResult(old(chats[..]), id)
      ensures chats[..] == AfterPin(old(chats[..]), id)
    {
      var found := Get(id);
      match found
      case None =>
        return Err(UndefinedPinMessage);
      case Some(i) =>
        if chats[i].pin {
          return Ok(true);
        }
        if chats.Length > MaxPinCount {
          var maxPinned := chats[MaxPinCount - 1].pin;
          if maxPinned {
            return Ok(false);
          }
        }
        chats[i] := chats[i].(pin := true);
        return Ok(true);
    }

    method UnpinChat(id: string) returns (r: Result<bool, string>)
      modifies chats
      ensures r == UnpinResult(old(chats[..]), id)
      ensures chats[..] == AfterUnpin(old(chats[..]), id)
    {
      var found := Get(id);
      match found
      case None =>
        return Err(UndefinedPinMessage);
      case Some(i) =>
        if !chats[i].pin {
          return Ok(false);
        }
        chats[i] := chats[i].(pin := false);
        return Ok(false);
    }
  }

  lemma IndexOfFirst(s: seq<ChatEntry>, id: string, i: nat)
    requires i < |s| && s[i].id == id
    requires forall j :: 0 <= j < i ==> s[j].id != id
    ensures IndexOf(s, id) == Some(i)
  {
  }

  lemma IndexOfNone(s: seq<ChatEntry>, id: string)
    requires forall j :: 0 <= j < |s| ==> s[j].id != id
    ensures IndexOf(s, id) == None
  {
  }
}
