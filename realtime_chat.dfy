/**
 * The squad chat panel, src/components/realtime-chat.tsx. The file holds an unresolved merge
 * between two versions, tagged here as `Head` (the local branch) and `Incoming` (commit
 * 08a69ff). Both merge the stored and the live messages the same way and guard sending the
 * same way; they differ in when a sender header is shown and in what they hand to the
 * `onMessage` callback. `localeCompare` is an abstract collation relation.
 */
module RealtimeChat {
  import opened Common
  import opened Seqs
  import opened Text
  import opened StableSort

  datatype ChatUser = ChatUser(id: string, name: string)

  /** `ChatMessage`. */
  datatype ChatMessage = ChatMessage(id: string, content: string, user: ChatUser, squadId: int, createdAt: string)

  /** The two sides of the unresolved merge. */
  datatype Branch = Head | Incoming

  /** The ids of the messages, in order. */
  function Ids(s: seq<ChatMessage>): (ids: seq<string>)
    ensures |ids| == |s|
    ensures forall i :: 0 <= i < |s| ==> ids[i] == s[i].id
  {
    seq(|s|, i requires 0 <= i < |s| => s[i].id)
  }

  /**
   * `s.filter((m, i, self) => i === self.findIndex(x => x.id === m.id))` over the first `n`
   * messages: a message stays when no earlier message has its id.
   */
  function FirstOfEachIdUpTo(s: seq<ChatMessage>, n: nat): (r: seq<ChatMessage>)
    requires n <= |s|
    ensures |r| <= n
  {
    if n == 0 then []
    else
      var r := FirstOfEachIdUpTo(s, n - 1);
      if IndexOf(Ids(s), s[n - 1].id) == n - 1 then r + [s[n - 1]] else r
  }

  /**
   * `r` keeps the first message of every id among the first `n` of `s`, once each, in input
   * order: each kept message is the first of its id and comes from the first `n`, every id
   * there is kept, and the kept ones appear in the order of their first occurrences.
   */
  ghost predicate FirstOfEach(s: seq<ChatMessage>, n: nat, r: seq<ChatMessage>)
    requires n <= |s|
  {
    KeptAreFirsts(s, n, r) && AllIdsKept(s, n, r) && InFirstOrder(s, r)
  }

  /** Each kept message is the first of its id, which lies among the first `n`. */
  ghost predicate KeptAreFirsts(s: seq<ChatMessage>, n: nat, r: seq<ChatMessage>)
    requires n <= |s|
  {
    forall k :: 0 <= k < |r| ==> IndexOf(Ids(s), r[k].id) < n && r[k] == s[IndexOf(Ids(s), r[k].id)]
  }

  /** Every id among the first `n` messages is kept. */
  ghost predicate AllIdsKept(s: seq<ChatMessage>, n: nat, r: seq<ChatMessage>)
    requires n <= |s|
  {
    forall i :: 0 <= i < n ==> s[i].id in Ids(r)
  }

  /** The kept messages come in the order of their first occurrences. */
  ghost predicate InFirstOrder(s: seq<ChatMessage>, r: seq<ChatMessage>) {
    forall j, k :: 0 <= j < k < |r| ==> IndexOf(Ids(s), r[j].id) < IndexOf(Ids(s), r[k].id)
  }

  /** The filter keeps exactly the first message of each id, in input order. */
  lemma {:induction false} FirstOfEachIdUpToKeepsFirsts(s: seq<ChatMessage>, n: nat)
    requires n <= |s|
    ensures FirstOfEach(s, n, FirstOfEachIdUpTo(s, n))
  {
    if n > 0 {
      var r := FirstOfEachIdUpTo(s, n - 1);
      FirstOfEachIdUpToKeepsFirsts(s, n - 1);
      var m := s[n - 1];
      assert Ids(s)[n - 1] == m.id;
      if IndexOf(Ids(s), m.id) == n - 1 {
        assert FirstOfEachIdUpTo(s, n) == r + [m];
        KeepFirsts(s, n, r);
        KeepIds(s, n, r);
        KeepOrder(s, n, r);
      } else {
        assert FirstOfEachIdUpTo(s, n) == r;
        SkipIds(s, n, r);
      }
    }
  }

  /** Appending the first message of a new id keeps the kept messages firsts. */
  lemma KeepFirsts(s: seq<ChatMessage>, n: nat, r: seq<ChatMessage>)
    requires 0 < n <= |s| && KeptAreFirsts(s, n - 1, r)
    requires IndexOf(Ids(s), s[n - 1].id) == n - 1
    ensures KeptAreFirsts(s, n, r + [s[n - 1]])
  {
    var r' := r + [s[n - 1]];
    forall k | 0 <= k < |r'|
      ensures IndexOf(Ids(s), r'[k].id) < n && r'[k] == s[IndexOf(Ids(s), r'[k].id)]
    {
      if k < |r| {
        assert r'[k] == r[k];
      }
    }
  }

  /** Appending the first message of a new id keeps every id. */
  lemma KeepIds(s: seq<ChatMessage>, n: nat, r: seq<ChatMessage>)
    requires 0 < n <= |s| && AllIdsKept(s, n - 1, r)
    ensures AllIdsKept(s, n, r + [s[n - 1]])
  {
    var r' := r + [s[n - 1]];
    assert Ids(r') == Ids(r) + [s[n - 1].id];
    forall i | 0 <= i < n
      ensures s[i].id in Ids(r')
    {
      if i < n - 1 {
        assert s[i].id in Ids(r);
      } else {
        assert Ids(r')[|r|] == s[n - 1].id;
      }
    }
  }

  /** Appending the first message of a new id keeps the order of first occurrences. */
  lemma KeepOrder(s: seq<ChatMessage>, n: nat, r: seq<ChatMessage>)
    requires 0 < n <= |s| && KeptAreFirsts(s, n - 1, r) && InFirstOrder(s, r)
    requires IndexOf(Ids(s), s[n - 1].id) == n - 1
    ensures InFirstOrder(s, r + [s[n - 1]])
  {
    var r' := r + [s[n - 1]];
    forall j, k | 0 <= j < k < |r'|
      ensures IndexOf(Ids(s), r'[j].id) < IndexOf(Ids(s), r'[k].id)
    {
      assert r'[j] == r[j];
      if k < |r| {
        assert r'[k] == r[k];
      }
    }
  }

  /** A message whose id came earlier adds no new id. */
  lemma SkipIds(s: seq<ChatMessage>, n: nat, r: seq<ChatMessage>)
    requires 0 < n <= |s| && AllIdsKept(s, n - 1, r)
    requires IndexOf(Ids(s), s[n - 1].id) != n - 1
    ensures AllIdsKept(s, n, r)
  {
    var m := s[n - 1];
    assert Ids(s)[n - 1] == m.id;
    var i0 := IndexOf(Ids(s), m.id);
    assert i0 < n - 1;
    assert s[i0].id == m.id;
  }

  /** The message list with repeated ids removed, keeping the first of each. */
  function UniqueMessages(s: seq<ChatMessage>): (r: seq<ChatMessage>)
    ensures |r| <= |s|
    ensures forall k :: 0 <= k < |r| ==> r[k] in s && r[k] == s[IndexOf(Ids(s), r[k].id)]
    ensures forall i :: 0 <= i < |s| ==> s[i].id in Ids(r)
    ensures NoDups(Ids(r))
  {
    var r := FirstOfEachIdUpTo(s, |s|);
    FirstOfEachIdUpToKeepsFirsts(s, |s|);
    r
  }

  /** `(a, b) => a.createdAt.localeCompare(b.createdAt) <= 0`. */
  function ByCreatedAt(collate: (string, string) -> bool): (ChatMessage, ChatMessage) -> bool {
    (a: ChatMessage, b: ChatMessage) => collate(a.createdAt, b.createdAt)
  }

  /** `allMessages`: stored then live messages, de-duplicated by id, sorted by creation time. */
  function AllMessages(initial: seq<ChatMessage>, realtime: seq<ChatMessage>,
                       collate: (string, string) -> bool): seq<ChatMessage>
  {
    Sort(UniqueMessages(initial + realtime), ByCreatedAt(collate))
  }

  /**
   * The merged list holds exactly the de-duplicated messages, so every id of either input
   * appears, and no id appears twice.
   */
  lemma AllMessagesContents(initial: seq<ChatMessage>, realtime: seq<ChatMessage>,
                            collate: (string, string) -> bool)
    ensures multiset(AllMessages(initial, realtime, collate)) == multiset(UniqueMessages(initial + realtime))
    ensures forall i :: 0 <= i < |initial + realtime| ==>
      (initial + realtime)[i].id in Ids(AllMessages(initial, realtime, collate))
    ensures NoDups(Ids(AllMessages(initial, realtime, collate)))
  {
    var u := UniqueMessages(initial + realtime);
    var r := AllMessages(initial, realtime, collate);
    SortPermutation(u, ByCreatedAt(collate));
    PermutedIdsPresent(u, r);
    PermutedIdsDistinct(u, r);
  }

  /** A reordering keeps every id. */
  lemma PermutedIdsPresent(u: seq<ChatMessage>, r: seq<ChatMessage>)
    requires multiset(r) == multiset(u)
    ensures forall id :: id in Ids(u) ==> id in Ids(r)
  {
    forall id | id in Ids(u) ensures id in Ids(r) {
      var k :| 0 <= k < |u| && Ids(u)[k] == id;
      assert u[k] in multiset(r);
      var j :| 0 <= j < |r| && r[j] == u[k];
      assert Ids(r)[j] == id;
    }
  }

  /** A reordering of messages with distinct ids has distinct ids. */
  lemma PermutedIdsDistinct(u: seq<ChatMessage>, r: seq<ChatMessage>)
    requires multiset(r) == multiset(u) && NoDups(Ids(u))
    ensures NoDups(Ids(r))
  {
    forall a, b | 0 <= a < b < |r| ensures Ids(r)[a] != Ids(r)[b] {
      if r[a].id == r[b].id {
        assert r[a] in multiset(u) && r[b] in multiset(u);
        var a' :| 0 <= a' < |u| && u[a'] == r[a];
        var b' :| 0 <= b' < |u| && u[b'] == r[b];
        assert Ids(u)[a'] == Ids(u)[b'];
        TwiceInMultiset(r, a, b);
        NoDupsOccursOnce(u, a');
        assert false;
      }
    }
  }

  /** Two positions holding the same message make it occur at least twice. */
  lemma TwiceInMultiset(r: seq<ChatMessage>, a: nat, b: nat)
    requires a < b < |r| && r[a] == r[b]
    ensures multiset(r)[r[a]] >= 2
  {
    assert r == r[..a] + [r[a]] + r[a + 1..];
    assert r[b] in r[a + 1..];
  }

  /** In a list whose ids are distinct, each message occurs once. */
  lemma NoDupsOccursOnce(u: seq<ChatMessage>, a: nat)
    requires a < |u| && NoDups(Ids(u))
    ensures multiset(u)[u[a]] == 1
  {
    assert u == u[..a] + [u[a]] + u[a + 1..];
    assert u[a] !in u[..a] by {
      forall k | 0 <= k < a ensures u[k] != u[a] {
        assert Ids(u)[k] != Ids(u)[a];
      }
    }
    assert u[a] !in u[a + 1..] by {
      forall k | a + 1 <= k < |u| ensures u[k] != u[a] {
        assert Ids(u)[a] != Ids(u)[k];
      }
    }
  }

  /**
   * With a consistent collation the merged list is in creation order, and messages created at
   * the same instant keep their merged order (stored before live, then arrival order).
   */
  lemma AllMessagesOrdered(initial: seq<ChatMessage>, realtime: seq<ChatMessage>,
                           collate: (string, string) -> bool, createdAt: string)
    requires TotalPreorder(collate)
    ensures var r := AllMessages(initial, realtime, collate);
      forall i, j :: 0 <= i < j < |r| ==> collate(r[i].createdAt, r[j].createdAt)
    ensures var tie := (m: ChatMessage) => collate(m.createdAt, createdAt) && collate(createdAt, m.createdAt);
      Filter(AllMessages(initial, realtime, collate), tie) == Filter(UniqueMessages(initial + realtime), tie)
  {
    var u := UniqueMessages(initial + realtime);
    var leq := ByCreatedAt(collate);
    assert TotalPreorder(leq) by {
      forall a: ChatMessage, b: ChatMessage ensures leq(a, b) || leq(b, a) {
        assert collate(a.createdAt, b.createdAt) || collate(b.createdAt, a.createdAt);
      }
      forall a: ChatMessage, b: ChatMessage, c: ChatMessage | leq(a, b) && leq(b, c) ensures leq(a, c) {
        assert collate(a.createdAt, b.createdAt) && collate(b.createdAt, c.createdAt);
      }
    }
    SortSorted(u, leq);
    var tie := (m: ChatMessage) => collate(m.createdAt, createdAt) && collate(createdAt, m.createdAt);
    SortStable(u, leq, tie);
  }

  /** `showHeader` for the message at `index` of the shown list, on each side of the merge. */
  predicate ShowHeader(branch: Branch, messages: seq<ChatMessage>, index: nat)
    requires index < |messages|
  {
    index == 0
    || messages[index - 1].user.name != messages[index].user.name
    || (branch == Incoming && messages[index - 1].user.id != messages[index].user.id)
  }

  /**
   * The incoming side shows a header wherever the local side does, and additionally exactly
   * where two consecutive senders share a display name but not an id.
   */
  lemma ShowHeaderBranches(messages: seq<ChatMessage>, index: nat)
    requires index < |messages|
    ensures ShowHeader(Head, messages, index) ==> ShowHeader(Incoming, messages, index)
    ensures ShowHeader(Incoming, messages, index) && !ShowHeader(Head, messages, index) <==>
      index > 0 && messages[index - 1].user.name == messages[index].user.name
                && messages[index - 1].user.id != messages[index].user.id
    ensures ShowHeader(Head, messages, 0)
  {
  }

  /** `isOwnMessage`: decided by display name alone, on both sides. */
  predicate IsOwnMessage(message: ChatMessage, username: string) {
    message.user.name == username
  }

  /** Another user who shares the viewer's display name has their messages drawn as the viewer's own. */
  lemma OwnMessageIgnoresSenderId(message: ChatMessage, username: string, otherId: string)
    ensures IsOwnMessage(message, username) ==
      IsOwnMessage(message.(user := message.user.(id := otherId)), username)
  {
  }

  /** What the local side hands to `onMessage` when the merged list changes: all of it. */
  function HeadForward(allMessages: seq<ChatMessage>, hasOnMessage: bool): (r: Option<seq<ChatMessage>>)
    ensures r.Some? <==> hasOnMessage
    ensures r.Some? ==> r.value == allMessages
  {
    if hasOnMessage then Some(allMessages) else None
  }

  /** The live messages the incoming side's effect would store: new ids from other users. */
  function ToStore(realtime: seq<ChatMessage>, stored: set<string>, profileId: string): (r: seq<ChatMessage>)
    ensures forall k :: 0 <= k < |r| ==> r[k] in realtime && r[k].id !in stored && r[k].user.id != profileId
    ensures forall i :: 0 <= i < |realtime| && realtime[i].id !in stored && realtime[i].user.id != profileId ==>
      realtime[i] in r
  {
    Filter(realtime, (m: ChatMessage) => m.id !in stored && m.user.id != profileId)
  }

  /** An id already recorded is never handed over again, whatever arrives later. */
  lemma StoredNeverForwardedAgain(realtime: seq<ChatMessage>, stored: set<string>, profileId: string, id: string)
    requires id in stored
    ensures forall k :: 0 <= k < |ToStore(realtime, stored, profileId)| ==> ToStore(realtime, stored, profileId)[k].id != id
  {
  }

  class ChatPanel {
    var newMessage: string
    /** The incoming side's `storedMessageIds` ref. */
    var storedMessageIds: set<string>

    constructor()
      ensures newMessage == "" && storedMessageIds == {}
    {
      newMessage := "";
      storedMessageIds := {};
    }

    /**
     * The incoming side's store effect: skip without a callback or live messages; otherwise
     * record the ids of the messages to store, one by one, and hand them over if there are any.
     */
    method StoreEffect(realtime: seq<ChatMessage>, hasOnMessage: bool, profileId: string)
      returns (forwarded: Option<seq<ChatMessage>>)
      modifies this
      ensures newMessage == old(newMessage)
      ensures !hasOnMessage || realtime == [] ==> forwarded.None? && storedMessageIds == old(storedMessageIds)
      ensures hasOnMessage && realtime != [] ==>
        var toStore := ToStore(realtime, old(storedMessageIds), profileId);
        && (forwarded.Some? <==> toStore != [])
        && (forwarded.Some? ==> forwarded.value == toStore)
        && storedMessageIds == old(storedMessageIds) + (set k | 0 <= k < |toStore| :: toStore[k].id)
    {
      if !hasOnMessage || |realtime| == 0 {
        return None;
      }
      var newMessagesToStore := ToStore(realtime, storedMessageIds, profileId);
      if |newMessagesToStore| > 0 {
        for k := 0 to |newMessagesToStore|
          invariant newMessage == old(newMessage)
          invariant storedMessageIds == old(storedMessageIds) + (set j | 0 <= j < k :: newMessagesToStore[j].id)
        {
          storedMessageIds := storedMessageIds + {newMessagesToStore[k].id};
        }
        forwarded := Some(newMessagesToStore);
      } else {
        forwarded := None;
      }
    }

    /** Typing in the input. */
    method SetNewMessage(text: string)
      modifies this
      ensures newMessage == text && storedMessageIds == old(storedMessageIds)
    {
      newMessage := text;
    }

    /**
     * `handleSendMessage` on the HEAD side: nothing happens for blank input or while
     * disconnected; otherwise the untrimmed text is sent, without waiting, and the input cleared.
     */
    method HandleSendMessage(isConnected: bool) returns (sent: Option<string>)
      modifies this
      ensures storedMessageIds == old(storedMessageIds)
      ensures sent.None? <==> Trim(old(newMessage)) == "" || !isConnected
      ensures sent.None? ==> newMessage == old(newMessage)
      ensures sent.Some? ==> sent.value == old(newMessage) && newMessage == ""
    {
      if Trim(newMessage) == "" || !isConnected {
        return None;
      }
      sent := Some(newMessage);
      newMessage := "";
    }

    /**
     * `handleSendMessage` on the incoming side, which awaits `sendMessage`: the same guard, but
     * the input is cleared only once the send resolves; a rejected send leaves it as typed.
     */
    method HandleSendMessageAwaited(isConnected: bool, sendRejects: bool) returns (sent: Option<string>)
      modifies this
      ensures storedMessageIds == old(storedMessageIds)
      ensures sent.None? <==> Trim(old(newMessage)) == "" || !isConnected
      ensures sent.Some? ==> sent.value == old(newMessage)
      ensures newMessage == (if sent.Some? && !sendRejects then "" else old(newMessage))
    {
      if Trim(newMessage) == "" || !isConnected {
        return None;
      }
      sent := Some(newMessage);
      if !sendRejects {
        newMessage := "";
      }
    }
  }
}
