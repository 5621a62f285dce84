/**
 * The Leaderboard view (src/components/Leaderboard.tsx): the client-side edit
 * buffer, the values each table cell and chart bar shows, and the blur step
 * that submits one buffered value and re-fetches both user lists.
 */
module Leaderboard {
  import opened Types
  import Decimal

  // ---------------------------------------------------------------------------
  // The edit buffer
  // ---------------------------------------------------------------------------

  /** The values typed for one user and not yet confirmed: a partial Stats record. */
  datatype PendingStats = PendingStats(killCount: Option<int>, deathCount: Option<int>)
  {
    /** `pending?.[statType]` */
    function Get(t: StatType): Option<int>
    {
      match t
      case KillCount => killCount
      case DeathCount => deathCount
    }

    /** `{ ...pending, [statType]: value }` */
    function Set(t: StatType, value: int): (p: PendingStats)
      ensures p.Get(t) == Some(value)
      ensures forall o :: o != t ==> p.Get(o) == Get(o)
    {
      match t
      case KillCount => this.(killCount := Some(value))
      case DeathCount => this.(deathCount := Some(value))
    }
  }

  /** What spreading an absent entry yields: no field set. */
  const NoPending := PendingStats(None, None)

  /** `editedStats`: user id to the values typed for that user. */
  type EditBuffer = map<int, PendingStats>

  /** `editedStats[userId]?.[statType]`: undefined both for an unknown user and for an untouched field. */
  function Buffered(edited: EditBuffer, userId: int, t: StatType): Option<int>
  {
    if userId in edited then edited[userId].Get(t) else None
  }

  /**
   * The buffer after `handleStatChange(userId, statType, value)`: the cell holds
   * `value`, the user's other field and every other user's entry are kept.
   */
  function WithStatChange(edited: EditBuffer, userId: int, t: StatType, value: int): (r: EditBuffer)
    ensures Buffered(r, userId, t) == Some(value)
    ensures forall o :: o != t ==> Buffered(r, userId, o) == Buffered(edited, userId, o)
    ensures r.Keys == edited.Keys + {userId}
    ensures forall id :: id in edited && id != userId ==> r[id] == edited[id]
  {
    var prev := if userId in edited then edited[userId] else NoPending;
    edited[userId := prev.Set(t, value)]
  }

  // ---------------------------------------------------------------------------
  // What the table shows
  // ---------------------------------------------------------------------------

  /**
   * The value of an editable cell: `editedStats[user.id]?.[statType] ?? user.stats[statType]`.
   * `??` falls back only on an absent value, so a buffered 0 is shown.
   */
  function DisplayValue(edited: EditBuffer, user: User, t: StatType): (r: int)
    ensures Buffered(edited, user.id, t) == Some(r) || (Buffered(edited, user.id, t) == None && r == user.stats.Get(t))
  {
    match Buffered(edited, user.id, t)
    case Some(v) => v
    case None => user.stats.Get(t)
  }

  /** Points of a user: kills minus deaths of the server's record. */
  function Score(user: User): int
  {
    user.stats.Get(KillCount) - user.stats.Get(DeathCount)
  }

  /** One rendered table row (`UserRow`): name, the two editable cells, the Points cell. */
  datatype RowView = RowView(username: string, killCell: int, deathCell: int, points: int)

  function RenderRow(user: User, edited: EditBuffer): (r: RowView)
    ensures r.username == user.username
    ensures r.killCell == DisplayValue(edited, user, KillCount)
    ensures r.deathCell == DisplayValue(edited, user, DeathCount)
    ensures r.points == user.stats.killCount - user.stats.deathCount
  {
    RowView(user.username, DisplayValue(edited, user, KillCount), DisplayValue(edited, user, DeathCount), Score(user))
  }

  /** The table body: one row per user, in the order of `users`. */
  function RenderTable(users: seq<User>, edited: EditBuffer): (rows: seq<RowView>)
    ensures |rows| == |users|
    ensures forall i :: 0 <= i < |users| ==> rows[i] == RenderRow(users[i], edited)
  {
    seq(|users|, i requires 0 <= i < |users| => RenderRow(users[i], edited))
  }

  // ---------------------------------------------------------------------------
  // What the chart shows
  // ---------------------------------------------------------------------------

  /** `${rank} ${username}` */
  function Label(rank: nat, username: string): string
  {
    Decimal.ToDecimal(rank) + " " + username
  }

  /** A chart label read back: its rank and the username after the first space. */
  datatype RankedName = RankedName(rank: nat, username: string)

  /** Splits a label at the end of its leading digits, which must be followed by a space. */
  function ParseLabel(text: string): Option<RankedName>
  {
    var k := Decimal.DigitPrefixLength(text);
    if 0 < k < |text| && text[k] == ' ' then
      Some(RankedName(Decimal.FromDecimal(text[..k]), text[k + 1..]))
    else
      None
  }

  /** Every label reads back as the rank and username it was built from, whatever the username holds. */
  lemma LabelRoundTrip(rank: nat, username: string)
    ensures ParseLabel(Label(rank, username)) == Some(RankedName(rank, username))
  {
    var d := Decimal.ToDecimal(rank);
    var text := Label(rank, username);
    assert text == d + (" " + username);
    Decimal.DigitPrefixOfConcat(d, " " + username);
    assert text[..|d|] == d;
    assert text[|d| + 1..] == username;
    Decimal.FromToDecimal(rank);
  }

  /** The chart's labels: one per top user, each `<rank> <username>` with ranks counted from 1. */
  function ChartLabels(topUsers: seq<User>): (labels: seq<string>)
    ensures |labels| == |topUsers|
    ensures forall i :: 0 <= i < |topUsers| ==> labels[i] == Decimal.ToDecimal(i + 1) + " " + topUsers[i].username
    ensures forall i :: 0 <= i < |topUsers| ==> ParseLabel(labels[i]) == Some(RankedName(i + 1, topUsers[i].username))
  {
    var labels := seq(|topUsers|, i requires 0 <= i < |topUsers| => Label(i + 1, topUsers[i].username));
    forall i | 0 <= i < |topUsers|
      ensures ParseLabel(labels[i]) == Some(RankedName(i + 1, topUsers[i].username))
    {
      LabelRoundTrip(i + 1, topUsers[i].username);
    }
    labels
  }

  /** The chart's data: one bar per top user, its height that user's score. */
  function ChartData(topUsers: seq<User>): (data: seq<int>)
    ensures |data| == |topUsers|
    ensures forall i :: 0 <= i < |topUsers| ==> data[i] == topUsers[i].stats.killCount - topUsers[i].stats.deathCount
  {
    seq(|topUsers|, i requires 0 <= i < |topUsers| => Score(topUsers[i]))
  }

  // ---------------------------------------------------------------------------
  // The blur step
  // ---------------------------------------------------------------------------

  /** The update sent for one cell: `PUT /users/<userId>` with body `{ stat, value }`, `stat` being the field name. */
  datatype UpdateRequest = UpdateRequest(userId: int, stat: string, value: int)

  /**
   * What the server does with a submission, as the view sees it. After a
   * successful PUT each of the two re-fetches may still fail on its own; the
   * fetch then logs and keeps its list, which `None` stands for.
   */
  datatype ServerOutcome =
    | PutFailed
    | PutSucceeded(allUsers: Option<seq<User>>, topUsers: Option<seq<User>>)

  /** The request a blur on cell (userId, statType) sends: none when nothing is buffered. */
  function BlurRequest(edited: EditBuffer, userId: int, t: StatType): (r: Option<UpdateRequest>)
    ensures r == None <==> Buffered(edited, userId, t) == None
    ensures r != None ==> r.value.userId == userId && r.value.stat == t.WireName() && Buffered(edited, userId, t) == Some(r.value.value)
  {
    match Buffered(edited, userId, t)
    case Some(v) => Some(UpdateRequest(userId, t.WireName(), v))
    case None => None
  }

  /** A list after a fetch: replaced by the server's list on success, kept on failure. */
  function Refetched(current: seq<User>, fetched: Option<seq<User>>): (r: seq<User>)
    ensures fetched == None ==> r == current
    ensures fetched != None ==> r == fetched.value
  {
    match fetched
    case Some(list) => list
    case None => current
  }

  /** The state of the Leaderboard component: both fetched lists and the edit buffer. */
  class LeaderboardState {
    var users: seq<User>
    var topUsers: seq<User>
    var editedStats: EditBuffer

    /** Both lists start empty and nothing is buffered. */
    constructor ()
      ensures users == [] && topUsers == [] && editedStats == map[]
    {
      users := [];
      topUsers := [];
      editedStats := map[];
    }

    /** Buffers `value` for cell (userId, statType); the lists are not touched. */
    method HandleStatChange(userId: int, t: StatType, value: int)
      modifies this`editedStats
      ensures editedStats == WithStatChange(old(editedStats), userId, t, value)
      ensures Buffered(editedStats, userId, t) == Some(value)
      ensures forall o :: o != t ==> Buffered(editedStats, userId, o) == Buffered(old(editedStats), userId, o)
      ensures forall id :: id != userId ==> Buffered(editedStats, id, KillCount) == Buffered(old(editedStats), id, KillCount)
      ensures forall id :: id != userId ==> Buffered(editedStats, id, DeathCount) == Buffered(old(editedStats), id, DeathCount)
      ensures users == old(users) && topUsers == old(topUsers)
    {
      editedStats := WithStatChange(editedStats, userId, t, value);
    }

    /**
     * Submits the buffered value of cell (userId, statType), if there is one.
     * On success the full list is re-fetched, then the top list; on failure
     * nothing changes. The buffer is never cleared.
     */
    method HandleBlur(userId: int, t: StatType, outcome: ServerOutcome) returns (sent: Option<UpdateRequest>)
      modifies this`users, this`topUsers
      ensures sent == BlurRequest(old(editedStats), userId, t)
      ensures editedStats == old(editedStats)
      ensures sent == None || outcome == PutFailed ==> users == old(users) && topUsers == old(topUsers)
      ensures sent != None && outcome != PutFailed ==>
                users == Refetched(old(users), outcome.allUsers) &&
                topUsers == Refetched(old(topUsers), outcome.topUsers)
    {
      var updated := Buffered(editedStats, userId, t);
      if updated == None {
        sent := None;
        return;
      }
      sent := Some(UpdateRequest(userId, t.WireName(), updated.value));
      match outcome
      case PutFailed =>
      case PutSucceeded(allUsers, top) =>
        if allUsers != None {
          users := allUsers.value;
        }
        if top != None {
          topUsers := top.value;
        }
    }
  }

  // ---------------------------------------------------------------------------
  // Properties
  // ---------------------------------------------------------------------------

  /** After an edit the edited cell shows the typed value, even 0 over a nonzero server value. */
  lemma DisplayAfterChange(edited: EditBuffer, user: User, t: StatType, value: int)
    ensures DisplayValue(WithStatChange(edited, user.id, t, value), user, t) == value
  {
  }

  /** An edit changes the display of no other cell, of this user or of any other. */
  lemma OtherCellsUnchanged(edited: EditBuffer, userId: int, t: StatType, value: int, other: User, o: StatType)
    requires other.id != userId || o != t
    ensures DisplayValue(WithStatChange(edited, userId, t, value), other, o) == DisplayValue(edited, other, o)
  {
    var r := WithStatChange(edited, userId, t, value);
    if other.id != userId {
      assert Buffered(r, other.id, o) == Buffered(edited, other.id, o);
    }
  }

  /** With nothing buffered for a user, every row shows exactly the server's values. */
  lemma SyncedRowShowsServer(user: User, edited: EditBuffer)
    requires user.id !in edited
    ensures RenderRow(user, edited) == RowView(user.username, user.stats.killCount, user.stats.deathCount, user.stats.killCount - user.stats.deathCount)
  {
  }

  /** The Points cell reads only the server record: pending edits do not move it. */
  lemma PointsIgnoreBuffer(user: User, e1: EditBuffer, e2: EditBuffer)
    ensures RenderRow(user, e1).points == RenderRow(user, e2).points
  {
  }

  /**
   * While an edit of the kill count is pending, Points no longer equals the
   * displayed kills minus the displayed deaths: it keeps the server's score.
   */
  lemma PointsLagPendingEdit(user: User, edited: EditBuffer, value: int)
    requires value != user.stats.killCount
    requires Buffered(edited, user.id, DeathCount) == None
    ensures var row := RenderRow(user, WithStatChange(edited, user.id, KillCount, value));
            row.killCell == value && row.points != row.killCell - row.deathCell
  {
  }

  /** Each chart bar equals the Points cell of the same record in the table, pending edits or not. */
  lemma ChartBarsMatchPoints(topUsers: seq<User>, users: seq<User>, edited: EditBuffer, i: nat, j: nat)
    requires i < |topUsers| && j < |users| && topUsers[i] == users[j]
    ensures ChartData(topUsers)[i] == RenderTable(users, edited)[j].points
  {
  }

  /**
   * A blur that sends a request leaves the buffer as it was, so the edited cell
   * keeps showing the submitted value whatever record the server returns for
   * that user afterwards.
   */
  lemma SubmittedValueStaysShown(edited: EditBuffer, userId: int, t: StatType, refreshed: User)
    requires BlurRequest(edited, userId, t) != None
    requires refreshed.id == userId
    ensures DisplayValue(edited, refreshed, t) == BlurRequest(edited, userId, t).value.value
  {
  }

  /** Editing a cell and then blurring it submits exactly the typed value for that cell. */
  lemma EditThenBlurSubmitsValue(edited: EditBuffer, userId: int, t: StatType, value: int)
    ensures BlurRequest(WithStatChange(edited, userId, t, value), userId, t) == Some(UpdateRequest(userId, t.WireName(), value))
  {
  }

  /** A sent request names its cell unambiguously: requests for the two stats of a user differ. */
  lemma RequestsForDifferentStatsDiffer(edited: EditBuffer, userId: int)
    requires BlurRequest(edited, userId, KillCount) != None && BlurRequest(edited, userId, DeathCount) != None
    ensures BlurRequest(edited, userId, KillCount) != BlurRequest(edited, userId, DeathCount)
  {
    WireNamesDistinct(KillCount, DeathCount);
  }

  /** Typing 15 into user 1's kill count and blurring sends `PUT /users/1 { stat: "kill_count", value: 15 }`. */
  lemma KillCountEditExample()
    ensures BlurRequest(WithStatChange(map[], 1, KillCount, 15), 1, KillCount) == Some(UpdateRequest(1, "kill_count", 15))
  {
  }

  /** A single fetched user with 10 kills and 2 deaths gives one bar labelled "1 a" of height 8. */
  lemma SingleUserChart()
    ensures var top := [User(1, "a", Stats(10, 2))];
            ChartLabels(top) == ["1 a"] && ChartData(top) == [8]
  {
    var top := [User(1, "a", Stats(10, 2))];
    assert Decimal.ToDecimal(1) == "1";
    assert ChartLabels(top)[0] == "1" + " " + "a" == "1 a";
  }
}
