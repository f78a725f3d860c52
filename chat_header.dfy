/**
 * The member sheet of the chat header, src/components/chat-header.tsx: the squad's members
 * split into those present in the chat channel and the rest. The member list comes from a
 * query hook and may be missing.
 */
module ChatHeader {
  import opened Common
  import opened Seqs

  /** A row of the member profiles the header lists. */
  datatype Member = Member(userId: string, firstName: Option<string>, lastName: Option<string>, status: string)

  /** A presence entry of the chat channel. */
  datatype RealtimeUser = RealtimeUser(profileId: string, name: string)

  /** `onlineUsers.some(user => user.profileId === member.user_id)`. */
  predicate IsOnline(member: Member, onlineUsers: seq<RealtimeUser>) {
    exists i :: 0 <= i < |onlineUsers| && onlineUsers[i].profileId == member.userId
  }

  /** `onlineMembers`: the present members in member order; none while the list is missing. */
  function OnlineMembers(members: Option<seq<Member>>, onlineUsers: seq<RealtimeUser>): (r: seq<Member>)
    ensures members.None? ==> r == []
    ensures members.Some? ==> forall m :: m in r <==> m in members.value && IsOnline(m, onlineUsers)
    ensures members.Some? ==> IsSubseq(r, members.value)
  {
    match members
    case None => []
    case Some(ms) =>
      FilterIsSubseq(ms, (m: Member) => IsOnline(m, onlineUsers));
      Filter(ms, (m: Member) => IsOnline(m, onlineUsers))
  }

  /** `offlineMembers`: the other members, in member order; none while the list is missing. */
  function OfflineMembers(members: Option<seq<Member>>, onlineUsers: seq<RealtimeUser>): (r: seq<Member>)
    ensures members.None? ==> r == []
    ensures members.Some? ==> forall m :: m in r <==> m in members.value && !IsOnline(m, onlineUsers)
    ensures members.Some? ==> IsSubseq(r, members.value)
  {
    match members
    case None => []
    case Some(ms) =>
      FilterIsSubseq(ms, (m: Member) => !IsOnline(m, onlineUsers));
      Filter(ms, (m: Member) => !IsOnline(m, onlineUsers))
  }

  /**
   * The two lists split the members: none is in both, each member occurs in the two together
   * as often as in the list, and the lengths add up to the member count.
   */
  lemma OnlineOfflinePartition(members: seq<Member>, onlineUsers: seq<RealtimeUser>, m: Member)
    ensures var on, off := OnlineMembers(Some(members), onlineUsers), OfflineMembers(Some(members), onlineUsers);
      && !(m in on && m in off)
      && Count(on, m) + Count(off, m) == Count(members, m)
      && |on| + |off| == |members|
  {
    var p := (x: Member) => IsOnline(x, onlineUsers);
    var q := (x: Member) => !IsOnline(x, onlineUsers);
    FilterComplementCount(members, p, q, m);
    FilterComplementLength(members, p, q);
  }

  /** The offline section is drawn exactly when some member is not present. */
  lemma OfflineSectionShown(members: seq<Member>, onlineUsers: seq<RealtimeUser>)
    ensures |OfflineMembers(Some(members), onlineUsers)| > 0 <==>
      exists i :: 0 <= i < |members| && !IsOnline(members[i], onlineUsers)
  {
    var off := OfflineMembers(Some(members), onlineUsers);
    if |off| > 0 {
      assert off[0] in members;
    }
  }
}
