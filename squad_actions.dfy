/**
 * The server actions of src/app/actions/squad.ts over an in-memory copy of the three tables
 * they touch. A squad is created pending with one pending invitation per invitee; it becomes
 * active when every invitation of it has been accepted, and falls back to pending when anyone
 * declines. The database's failures are inputs (`CreateFaults`, `RespondFaults`), and the
 * signed-in user is a parameter.
 */
module SquadActions {
  import opened Common
  import opened Seqs

  datatype SquadStatus = Pending | Active

  datatype InvitationStatus = Invited | Accepted | Declined

  datatype Squad = Squad(
    name: string, description: string, course: string, creatorId: string,
    status: SquadStatus, visibility: string)

  datatype MemberRow = MemberRow(squadId: nat, userId: string)

  datatype Invitation = Invitation(squadId: nat, inviterId: string, inviteeId: string, status: InvitationStatus)

  /** Which database calls of `createSquad` report an error. */
  datatype CreateFaults = CreateFaults(squadInsert: bool, creatorMemberInsert: bool, invitationInsert: bool)

  /** Which database calls of `respondToInvitation` report an error. */
  datatype RespondFaults = RespondFaults(invitationUpdate: bool, memberInsert: bool, statusQuery: bool)

  datatype CreateResult =
    | CreateOk(squadId: nat, squadName: string, invitationCount: nat)
    | CreateErr(error: string)

  datatype ActionResult = ActionOk(message: string) | ActionErr(error: string)

  datatype SquadsResult = SquadsOk(squads: seq<Squad>) | SquadsErr(error: string)

  const Unauthorized := "Unauthorized"
  const SquadDefaultSuffix := " Study Squad"
  const DescriptionPrefix := "Study group for "

  /** `name || `${course} Study Squad``: a missing or empty name falls back to the course's. */
  function SquadName(name: Option<string>, course: string): (r: string)
    ensures r != ""
    ensures name.Some? && name.value != "" ==> r == name.value
    ensures name.None? || name.value == "" ==> r == course + SquadDefaultSuffix
  {
    if name.Some? && name.value != "" then name.value else course + SquadDefaultSuffix
  }

  /** The rows of the single invitation insert: one pending invitation per invitee, in order. */
  function InvitationRows(squadId: nat, creatorId: string, memberIds: seq<string>): (r: seq<Invitation>)
    ensures |r| == |memberIds|
    ensures forall k :: 0 <= k < |r| ==> r[k] == Invitation(squadId, creatorId, memberIds[k], Invited)
  {
    seq(|memberIds|, k requires 0 <= k < |memberIds| => Invitation(squadId, creatorId, memberIds[k], Invited))
  }

  /** `allInvitations.every(inv => inv.status === "accepted")` over the squad's invitations. */
  predicate AllAccepted(invitations: seq<Invitation>, squadId: nat) {
    forall i :: 0 <= i < |invitations| && invitations[i].squadId == squadId ==> invitations[i].status == Accepted
  }

  /**
   * `memberData.map(m => m.squad).filter(Boolean)`: the squads of the user's member rows, in
   * row order; a row whose squad no longer exists joins to null and is dropped.
   */
  function UserSquads(squads: map<nat, Squad>, members: seq<MemberRow>, userId: string): (r: seq<Squad>)
    ensures |r| <= |members|
    ensures forall k :: 0 <= k < |r| ==> r[k] in squads.Values
    ensures forall i :: 0 <= i < |members| && members[i].userId == userId && members[i].squadId in squads ==>
      squads[members[i].squadId] in r
  {
    if members == [] then []
    else
      var rest := UserSquads(squads, members[1..], userId);
      var m := members[0];
      if m.userId == userId && m.squadId in squads then [squads[m.squadId]] + rest else rest
  }

  /** The member rows `getUserSquads` joins: the user's rows whose squad still exists. */
  function JoinedRow(squads: map<nat, Squad>, userId: string): MemberRow -> bool {
    (row: MemberRow) => row.userId == userId && row.squadId in squads
  }

  /** The squads come one per joined row of the user, in row order. */
  lemma {:induction false} UserSquadsInRowOrder(squads: map<nat, Squad>, members: seq<MemberRow>, userId: string)
    ensures var rows := Filter(members, JoinedRow(squads, userId));
      var r := UserSquads(squads, members, userId);
      |r| == |rows| && forall k :: 0 <= k < |rows| ==> rows[k].squadId in squads && r[k] == squads[rows[k].squadId]
  {
    if members != [] {
      var p := JoinedRow(squads, userId);
      UserSquadsInRowOrder(squads, members[1..], userId);
      var rows, rest := Filter(members[1..], p), UserSquads(squads, members[1..], userId);
      if p(members[0]) {
        assert Filter(members, p) == [members[0]] + rows;
        assert UserSquads(squads, members, userId) == [squads[members[0].squadId]] + rest;
        PairedCons(squads, members[0], rows, rest);
      } else {
        assert Filter(members, p) == rows;
      }
    }
  }

  /** A joined row in front of paired rows and squads keeps them paired. */
  lemma PairedCons(squads: map<nat, Squad>, row: MemberRow, rows: seq<MemberRow>, r: seq<Squad>)
    requires row.squadId in squads
    requires |r| == |rows| && forall k :: 0 <= k < |rows| ==> rows[k].squadId in squads && r[k] == squads[rows[k].squadId]
    ensures var rows', r' := [row] + rows, [squads[row.squadId]] + r;
      |r'| == |rows'| && forall k :: 0 <= k < |rows'| ==> rows'[k].squadId in squads && r'[k] == squads[rows'[k].squadId]
  {
  }

  /** `squad` is the squad of one of the user's member rows. */
  ghost predicate FromUserRow(squads: map<nat, Squad>, members: seq<MemberRow>, userId: string, squad: Squad) {
    exists i :: 0 <= i < |members| && members[i].userId == userId && members[i].squadId in squads &&
      squad == squads[members[i].squadId]
  }

  /** Every squad listed comes from a member row of the user whose squad exists. */
  lemma UserSquadsSound(squads: map<nat, Squad>, members: seq<MemberRow>, userId: string)
    ensures var r := UserSquads(squads, members, userId);
      forall k :: 0 <= k < |r| ==> FromUserRow(squads, members, userId, r[k])
  {
    var rows := Filter(members, JoinedRow(squads, userId));
    var r := UserSquads(squads, members, userId);
    UserSquadsInRowOrder(squads, members, userId);
    forall k | 0 <= k < |r|
      ensures FromUserRow(squads, members, userId, r[k])
    {
      assert rows[k] in members && JoinedRow(squads, userId)(rows[k]);
      var i :| 0 <= i < |members| && members[i] == rows[k];
      assert members[i].userId == userId && members[i].squadId in squads && r[k] == squads[members[i].squadId];
    }
  }

  /** A member row pointing at a deleted squad never shows up in anyone's squad list. */
  lemma {:induction false} UserSquadsIgnoresDangling(squads: map<nat, Squad>, members: seq<MemberRow>,
                                                       row: MemberRow, userId: string)
    requires row.squadId !in squads
    ensures UserSquads(squads, members + [row], userId) == UserSquads(squads, members, userId)
  {
    if members == [] {
      assert [row][1..] == [];
    } else {
      assert (members + [row])[1..] == members[1..] + [row];
      UserSquadsIgnoresDangling(squads, members[1..], row, userId);
    }
  }

  /** The `.eq("id", invitationId).eq("invitee_id", userId).single()` lookup finds a row. */
  predicate Addressed(invitations: seq<Invitation>, invitationId: nat, userId: string) {
    invitationId < |invitations| && invitations[invitationId].inviteeId == userId
  }

  /** The three tables, with squad ids handed out by a counter as the database's sequence does. */
  class SquadStore {
    var squads: map<nat, Squad>
    var nextSquadId: nat
    var members: seq<MemberRow>
    var invitations: seq<Invitation>

    /** Squad ids are below the counter, and an active squad has every invitation accepted. */
    ghost predicate Valid()
      reads this
    {
      && (forall id :: id in squads ==> id < nextSquadId)
      && (forall id :: id in squads && squads[id].status == Active ==> AllAccepted(invitations, id))
    }

    constructor()
      ensures Valid()
      ensures squads == map[] && nextSquadId == 0 && members == [] && invitations == []
    {
      squads := map[];
      nextSquadId := 0;
      members := [];
      invitations := [];
    }

    /**
     * `createSquad`: only the signed-in creator may create. The squad row is inserted pending and
     * closed, then the creator's member row, then all invitations at once; a failed member or
     * invitation insert deletes the squad row again. The creator's member row is not deleted.
     */
    method CreateSquad(sessionUser: Option<string>, creatorId: string, memberIds: seq<string>,
                       course: string, name: Option<string>, faults: CreateFaults) returns (r: CreateResult)
      requires Valid()
      modifies this
      ensures Valid()
      ensures sessionUser != Some(creatorId) ==>
        r == CreateErr(Unauthorized) && squads == old(squads) && nextSquadId == old(nextSquadId)
      ensures sessionUser == Some(creatorId) && faults.squadInsert ==>
        r == CreateErr("Failed to create squad") && squads == old(squads)
      ensures sessionUser == Some(creatorId) && !faults.squadInsert && faults.creatorMemberInsert ==>
        r == CreateErr("Failed to add creator to squad") && squads == old(squads)
      ensures sessionUser == Some(creatorId) && !faults.squadInsert && !faults.creatorMemberInsert && faults.invitationInsert ==>
        && r == CreateErr("Failed to send invitations") && squads == old(squads)
        && members == old(members) + [MemberRow(old(nextSquadId), creatorId)]
      ensures r.CreateErr? ==> invitations == old(invitations)
      ensures r.CreateErr? && !(sessionUser == Some(creatorId) && !faults.squadInsert && !faults.creatorMemberInsert) ==>
        members == old(members)
      ensures r.CreateOk? <==>
        sessionUser == Some(creatorId) && !faults.squadInsert && !faults.creatorMemberInsert && !faults.invitationInsert
      ensures r.CreateOk? ==>
        && r.squadId == old(nextSquadId) && r.squadId !in old(squads)
        && squads == old(squads)[r.squadId := Squad(SquadName(name, course), DescriptionPrefix + course, course,
                                                    creatorId, Pending, "closed")]
        && members == old(members) + [MemberRow(r.squadId, creatorId)]
        && invitations == old(invitations) + InvitationRows(r.squadId, creatorId, memberIds)
        && r.squadName == SquadName(name, course) && r.invitationCount == |memberIds|
    {
      if sessionUser != Some(creatorId) {
        return CreateErr(Unauthorized);
      }
      if faults.squadInsert {
        return CreateErr("Failed to create squad");
      }
      var squadId := nextSquadId;
      nextSquadId := nextSquadId + 1;
      var squadName := SquadName(name, course);
      squads := squads[squadId := Squad(squadName, DescriptionPrefix + course, course, creatorId, Pending, "closed")];
      if faults.creatorMemberInsert {
        squads := squads - {squadId};
        assert squads == old(squads);
        return CreateErr("Failed to add creator to squad");
      }
      members := members + [MemberRow(squadId, creatorId)];
      if faults.invitationInsert {
        squads := squads - {squadId};
        assert squads == old(squads);
        return CreateErr("Failed to send invitations");
      }
      invitations := invitations + InvitationRows(squadId, creatorId, memberIds);
      r := CreateOk(squadId, squadName, |memberIds|);
    }

    /**
     * `respondToInvitation`: only the signed-in invitee may answer, and only an invitation
     * addressed to them. Accepting marks it accepted, adds the member row and activates the
     * squad once all its invitations are accepted; declining marks it declined and puts the
     * squad back to pending.
     */
    method RespondToInvitation(sessionUser: Option<string>, invitationId: nat, userId: string,
                               accept: bool, faults: RespondFaults) returns (r: ActionResult)
      requires Valid()
      modifies this
      ensures Valid()
      ensures sessionUser != Some(userId) ==> r == ActionErr(Unauthorized) && unchanged(this)
      ensures sessionUser == Some(userId) && !Addressed(old(invitations), invitationId, userId) ==>
        r == ActionErr("Invitation not found") && unchanged(this)
      ensures sessionUser == Some(userId) && Addressed(old(invitations), invitationId, userId) && faults.invitationUpdate ==>
        && r == ActionErr(if accept then "Failed to accept invitation" else "Failed to decline invitation")
        && unchanged(this)
      ensures sessionUser == Some(userId) && Addressed(old(invitations), invitationId, userId) && !faults.invitationUpdate ==>
        && nextSquadId == old(nextSquadId)
        && invitations == old(invitations)[invitationId := old(invitations)[invitationId].(status := if accept then Accepted else Declined)]
      ensures sessionUser == Some(userId) && Addressed(old(invitations), invitationId, userId) && !faults.invitationUpdate
              && accept && faults.memberInsert ==>
        r == ActionErr("Failed to join squad") && squads == old(squads) && members == old(members)
      ensures sessionUser == Some(userId) && Addressed(old(invitations), invitationId, userId) && !faults.invitationUpdate
              && accept && !faults.memberInsert ==>
        var sid := old(invitations)[invitationId].squadId;
        && r == ActionOk("Invitation accepted")
        && members == old(members) + [MemberRow(sid, userId)]
        && squads.Keys == old(squads).Keys
        && (forall id :: id in squads && id != sid ==> squads[id] == old(squads)[id])
        && (sid in squads ==> squads[sid] == old(squads)[sid].(status := squads[sid].status))
        && (sid in squads ==> (squads[sid].status == Active <==>
              old(squads)[sid].status == Active || (!faults.statusQuery && AllAccepted(invitations, sid))))
      ensures sessionUser == Some(userId) && Addressed(old(invitations), invitationId, userId) && !faults.invitationUpdate
              && !accept ==>
        var sid := old(invitations)[invitationId].squadId;
        && r == ActionOk("Invitation declined")
        && members == old(members)
        && squads == (if sid in old(squads) then old(squads)[sid := old(squads)[sid].(status := Pending)] else old(squads))
    {
      if sessionUser != Some(userId) {
        return ActionErr(Unauthorized);
      }
      if !Addressed(invitations, invitationId, userId) {
        return ActionErr("Invitation not found");
      }
      var invitation := invitations[invitationId];
      var sid := invitation.squadId;
      if accept {
        if faults.invitationUpdate {
          return ActionErr("Failed to accept invitation");
        }
        invitations := invitations[invitationId := invitation.(status := Accepted)];
        if faults.memberInsert {
          return ActionErr("Failed to join squad");
        }
        members := members + [MemberRow(sid, userId)];
        if !faults.statusQuery && AllAccepted(invitations, sid) && sid in squads {
          squads := squads[sid := squads[sid].(status := Active)];
        }
        r := ActionOk("Invitation accepted");
      } else {
        if faults.invitationUpdate {
          return ActionErr("Failed to decline invitation");
        }
        invitations := invitations[invitationId := invitation.(status := Declined)];
        if sid in squads {
          squads := squads[sid := squads[sid].(status := Pending)];
        }
        r := ActionOk("Invitation declined");
      }
    }

    /** `getUserSquads`: the squads the user is a member of, or an error when the query fails. */
    function GetUserSquads(userId: string, queryFails: bool): (r: SquadsResult)
      reads this
      ensures r.SquadsErr? <==> queryFails
      ensures r.SquadsOk? ==> forall k :: 0 <= k < |r.squads| ==> r.squads[k] in squads.Values
      ensures r.SquadsOk? ==> r.squads == UserSquads(squads, members, userId)
    {
      if queryFails then SquadsErr("Failed to fetch squads") else SquadsOk(UserSquads(squads, members, userId))
    }
  }
}
