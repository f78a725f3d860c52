/**
 * Squad access checks, src/lib/squad-security.ts. The server-side membership check asks the
 * `member` table for the row of this user in this squad with status "active", expecting exactly
 * one (`.single()`); the table is a sequence of rows here, and a failing client or connection is
 * a flag. The two client-side checks are boolean conditions.
 */
module SquadSecurity {
  import opened Seqs

  /**
   * A row of the `member` table as this check reads it, with the `status` column it filters on;
   * the squad actions write member rows without that column (`SquadActions.MemberRow`), and
   * `squadId` is a JavaScript number here.
   */
  datatype MemberStatusRow = MemberStatusRow(squadId: int, userId: string, status: string)

  /** The rows the query selects. */
  function ActiveRows(table: seq<MemberStatusRow>, squadId: int, userId: string): (r: seq<MemberStatusRow>)
    ensures forall row :: row in r <==> row in table && row == MemberStatusRow(squadId, userId, "active")
  {
    Filter(table, (row: MemberStatusRow) => row.squadId == squadId && row.userId == userId && row.status == "active")
  }

  /**
   * `validateSquadMembership`: true when the query yields its one row; an error (no row, or
   * more than one) or a thrown exception gives false.
   */
  function ValidateSquadMembership(table: seq<MemberStatusRow>, squadId: int, userId: string, fails: bool): (r: bool)
    ensures r ==> !fails && MemberStatusRow(squadId, userId, "active") in table
    ensures MemberStatusRow(squadId, userId, "active") !in table ==> !r
  {
    if fails then false
    else
      var rows := ActiveRows(table, squadId, userId);
      if |rows| != 1 then false
      else
        assert rows[0] in rows;
        true
  }

  /** Each (squad, user) pair has at most one row, as the table's key makes it. */
  ghost predicate KeyedByMember(table: seq<MemberStatusRow>) {
    forall i, j :: 0 <= i < j < |table| ==>
      table[i].squadId != table[j].squadId || table[i].userId != table[j].userId
  }

  /** With the table keyed by member, the check holds exactly for active members. */
  lemma ValidateIffActiveMember(table: seq<MemberStatusRow>, squadId: int, userId: string, fails: bool)
    requires KeyedByMember(table)
    ensures ValidateSquadMembership(table, squadId, userId, fails) <==>
      !fails && MemberStatusRow(squadId, userId, "active") in table
  {
    var p := (row: MemberStatusRow) => row.squadId == squadId && row.userId == userId && row.status == "active";
    var rows := ActiveRows(table, squadId, userId);
    if !fails && MemberStatusRow(squadId, userId, "active") in table {
      AtMostOneMatch(table, p, squadId, userId);
      assert MemberStatusRow(squadId, userId, "active") in rows;
    }
  }

  /** Under the key, the query's filter keeps at most one row. */
  lemma {:induction false} AtMostOneMatch(table: seq<MemberStatusRow>, p: MemberStatusRow -> bool, squadId: int, userId: string)
    requires KeyedByMember(table)
    requires forall row :: p(row) ==> row.squadId == squadId && row.userId == userId
    ensures |Filter(table, p)| <= 1
  {
    if table != [] {
      AtMostOneMatch(table[1..], p, squadId, userId);
      if p(table[0]) {
        forall row | row in table[1..]
          ensures !p(row)
        {
          var j :| 0 <= j < |table[1..]| && table[1..][j] == row;
          assert table[1 + j] == row;
        }
        FilterNone(table[1..], p);
      }
    }
  }

  /** `canSendMessage`: a member whose channel is connected. */
  function CanSendMessage(isMember: bool, isConnected: bool): (r: bool)
    ensures r ==> CanViewSquad(isMember)
    ensures r <==> isMember && isConnected
  {
    isMember && isConnected
  }

  /** `canViewSquad`: any member. */
  function CanViewSquad(isMember: bool): (r: bool)
    ensures r <==> isMember
  {
    isMember
  }

  /** Someone without an active row in the squad can neither view it nor post to it. */
  lemma OutsidersLockedOut(table: seq<MemberStatusRow>, squadId: int, userId: string, fails: bool, isConnected: bool)
    requires MemberStatusRow(squadId, userId, "active") !in table
    ensures var isMember := ValidateSquadMembership(table, squadId, userId, fails);
      !CanViewSquad(isMember) && !CanSendMessage(isMember, isConnected)
  {
  }
}
