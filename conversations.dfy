/**
 * The conversation directory of the signed-in user (src/hooks/useConversations.tsx): which
 * participant is the counterpart, how fetched conversations are enriched and filtered, and
 * get-or-create over the `conversations` table.
 */
module Conversations {
  import opened Wrappers
  import opened UserTypes
  import Sequences

  /** A row of the `conversations` table; timestamps are milliseconds. */
  datatype ConversationRow = ConversationRow(
    id: string,
    user1Id: string,
    user2Id: string,
    lastMessageAt: Option<int>,
    createdAt: int)

  /** The projection of a conversation's latest message. */
  datatype LastMessage = LastMessage(content: string, createdAt: int, senderId: string)

  /** A fetched conversation with its counterpart's profile (null when not found) and last message. */
  datatype ConversationWithUser = ConversationWithUser(
    row: ConversationRow,
    otherUser: Option<Profile>,
    lastMessage: Option<LastMessage>)

  predicate IsParticipant(row: ConversationRow, user: string) {
    row.user1Id == user || row.user2Id == user
  }

  /** The participant of `row` that is not `current`. */
  function OtherUserId(row: ConversationRow, current: string): (other: string)
    ensures IsParticipant(row, current) ==>
      multiset{current, other} == multiset{row.user1Id, row.user2Id}
    ensures other == row.user1Id || other == row.user2Id
  {
    if row.user1Id == current then row.user2Id else row.user1Id
  }

  /**
   * The per-row enrichment. `profiles` stands for the `profiles` lookup by user id, and
   * `lastMessages` for the newest-message lookup by conversation id; a missing key is the null
   * that `.single()` yields.
   */
  function Enrich(row: ConversationRow, current: string,
                  profiles: map<string, Profile>, lastMessages: map<string, LastMessage>)
    : (c: ConversationWithUser)
    ensures c.row == row
    ensures c.otherUser.Some? <==> OtherUserId(row, current) in profiles
    ensures c.otherUser.Some? ==> c.otherUser.value == profiles[OtherUserId(row, current)]
    ensures c.lastMessage.Some? <==> row.id in lastMessages
    ensures c.lastMessage.Some? ==> c.lastMessage.value == lastMessages[row.id]
  {
    var other := OtherUserId(row, current);
    ConversationWithUser(
      row,
      if other in profiles then Some(profiles[other]) else None,
      if row.id in lastMessages then Some(lastMessages[row.id]) else None)
  }

  function EnrichAll(rows: seq<ConversationRow>, current: string,
                     profiles: map<string, Profile>, lastMessages: map<string, LastMessage>)
    : (cs: seq<ConversationWithUser>)
    ensures |cs| == |rows|
  {
    if rows == [] then []
    else [Enrich(rows[0], current, profiles, lastMessages)]
         + EnrichAll(rows[1..], current, profiles, lastMessages)
  }

  predicate HasOtherUser(c: ConversationWithUser) {
    c.otherUser.Some?
  }

  /**
   * The list `loadConversations` stores: the enriched rows whose counterpart was found. No entry
   * lacks its counterpart, and no row yields more than one entry.
   */
  function Resolve(rows: seq<ConversationRow>, current: string,
                   profiles: map<string, Profile>, lastMessages: map<string, LastMessage>)
    : (cs: seq<ConversationWithUser>)
    ensures |cs| <= |rows|
    ensures forall k :: 0 <= k < |cs| ==> cs[k].otherUser.Some?
  {
    Sequences.Filter(HasOtherUser, EnrichAll(rows, current, profiles, lastMessages))
  }

  function RowsOf(cs: seq<ConversationWithUser>): (rows: seq<ConversationRow>)
    ensures |rows| == |cs|
    ensures forall k :: 0 <= k < |cs| ==> rows[k] == cs[k].row
  {
    if cs == [] then [] else [cs[0].row] + RowsOf(cs[1..])
  }

  /** The rows of the resolved list are exactly the fetched rows whose counterpart has a profile. */
  lemma {:induction false} ResolveRows(rows: seq<ConversationRow>, current: string,
                                       profiles: map<string, Profile>,
                                       lastMessages: map<string, LastMessage>)
    ensures RowsOf(Resolve(rows, current, profiles, lastMessages))
         == Sequences.Filter((row: ConversationRow) => OtherUserId(row, current) in profiles, rows)
  {
    if rows != [] {
      ResolveRows(rows[1..], current, profiles, lastMessages);
      var es := EnrichAll(rows, current, profiles, lastMessages);
      assert es[1..] == EnrichAll(rows[1..], current, profiles, lastMessages);
      if HasOtherUser(es[0]) {
        var r := Resolve(rows, current, profiles, lastMessages);
        assert r[1..] == Resolve(rows[1..], current, profiles, lastMessages);
        assert RowsOf(r)[1..] == RowsOf(r[1..]);
      }
    }
  }

  /** Each resolved entry carries its counterpart's profile and its own last message. */
  lemma {:induction false} ResolveEntries(rows: seq<ConversationRow>, current: string,
                                          profiles: map<string, Profile>,
                                          lastMessages: map<string, LastMessage>)
    ensures forall c :: c in Resolve(rows, current, profiles, lastMessages) ==>
      OtherUserId(c.row, current) in profiles &&
      c.otherUser == Some(profiles[OtherUserId(c.row, current)]) &&
      c.lastMessage == (if c.row.id in lastMessages then Some(lastMessages[c.row.id]) else None)
  {
    forall c | c in Resolve(rows, current, profiles, lastMessages)
      ensures OtherUserId(c.row, current) in profiles &&
        c.otherUser == Some(profiles[OtherUserId(c.row, current)]) &&
        c.lastMessage == (if c.row.id in lastMessages then Some(lastMessages[c.row.id]) else None)
    {
      Sequences.FilterMembers(HasOtherUser, EnrichAll(rows, current, profiles, lastMessages), c);
      EnrichedFrom(rows, current, profiles, lastMessages, c);
    }
  }

  lemma {:induction false} EnrichedFrom(rows: seq<ConversationRow>, current: string,
                                        profiles: map<string, Profile>,
                                        lastMessages: map<string, LastMessage>,
                                        c: ConversationWithUser)
    requires c in EnrichAll(rows, current, profiles, lastMessages)
    ensures c == Enrich(c.row, current, profiles, lastMessages)
  {
    if c != Enrich(rows[0], current, profiles, lastMessages) {
      EnrichedFrom(rows[1..], current, profiles, lastMessages, c);
    }
  }

  /** Conversations with activity come first, newest first; those never used come last. */
  predicate ActivityBefore(a: ConversationRow, b: ConversationRow) {
    b.lastMessageAt.None? || (a.lastMessageAt.Some? && a.lastMessageAt.value >= b.lastMessageAt.value)
  }

  /**
   * Dropping conversations without a profile keeps the rest in the fetched order: the resolved
   * rows are a subsequence of the fetched rows, no more numerous, each with a profile, and the
   * backend's ordering by `last_message_at` descending, nulls last, survives.
   */
  lemma ResolveKeepsOrder(rows: seq<ConversationRow>, current: string,
                          profiles: map<string, Profile>, lastMessages: map<string, LastMessage>)
    ensures Sequences.IsSubsequence(RowsOf(Resolve(rows, current, profiles, lastMessages)), rows)
    ensures |Resolve(rows, current, profiles, lastMessages)| <= |rows|
    ensures forall k :: 0 <= k < |rows| ==>
      (OtherUserId(rows[k], current) in profiles <==>
       rows[k] in RowsOf(Resolve(rows, current, profiles, lastMessages)))
    ensures Sequences.PairwiseOrdered(rows, ActivityBefore) ==>
      Sequences.PairwiseOrdered(RowsOf(Resolve(rows, current, profiles, lastMessages)), ActivityBefore)
  {
    var keep := (row: ConversationRow) => OtherUserId(row, current) in profiles;
    ResolveRows(rows, current, profiles, lastMessages);
    Sequences.FilterIsSubsequence(keep, rows);
    forall k | 0 <= k < |rows|
      ensures OtherUserId(rows[k], current) in profiles <==>
        rows[k] in RowsOf(Resolve(rows, current, profiles, lastMessages))
    {
      Sequences.FilterMembers(keep, rows, rows[k]);
    }
    if Sequences.PairwiseOrdered(rows, ActivityBefore) {
      Sequences.SubsequenceKeepsOrder(RowsOf(Resolve(rows, current, profiles, lastMessages)), rows, ActivityBefore);
    }
  }

  /** Row `r` is a conversation between `a` and `b`, in either participant order. */
  predicate SamePair(r: ConversationRow, a: string, b: string) {
    (r.user1Id == a && r.user2Id == b) || (r.user1Id == b && r.user2Id == a)
  }

  /** The rows the existence query selects. */
  function PairRows(rows: seq<ConversationRow>, a: string, b: string): seq<ConversationRow> {
    Sequences.Filter((r: ConversationRow) => SamePair(r, a, b), rows)
  }

  /** At most one row per unordered pair of participants. */
  predicate UniquePairs(rows: seq<ConversationRow>) {
    forall i, j :: 0 <= i < j < |rows| ==> !SamePair(rows[j], rows[i].user1Id, rows[i].user2Id)
  }

  /** With unique pairs, a conversation that exists in either order is the one row selected. */
  lemma {:induction false} ExistingPairSelected(rows: seq<ConversationRow>, a: string, b: string, i: nat)
    requires UniquePairs(rows)
    requires i < |rows| && SamePair(rows[i], a, b)
    ensures PairRows(rows, a, b) == [rows[i]]
  {
    var p := (r: ConversationRow) => SamePair(r, a, b);
    assert rows == [rows[0]] + rows[1..];
    if i == 0 {
      Sequences.FilterEmpty(p, rows[1..]);
      forall k | 0 <= k < |rows[1..]| ensures !p(rows[1..][k]) {
        assert rows[1..][k] == rows[k + 1];
      }
    } else {
      assert UniquePairs(rows[1..]) by {
        forall x, y | 0 <= x < y < |rows[1..]|
          ensures !SamePair(rows[1..][y], rows[1..][x].user1Id, rows[1..][x].user2Id)
        {
          assert rows[1..][x] == rows[x + 1] && rows[1..][y] == rows[y + 1];
        }
      }
      assert !p(rows[0]);
      ExistingPairSelected(rows[1..], a, b, i - 1);
    }
  }

  /** Appending a row for a pair that has none keeps pairs unique. */
  lemma InsertNewPairKeepsUnique(rows: seq<ConversationRow>, row: ConversationRow)
    requires UniquePairs(rows)
    requires PairRows(rows, row.user1Id, row.user2Id) == []
    ensures UniquePairs(rows + [row])
  {
    var p := (r: ConversationRow) => SamePair(r, row.user1Id, row.user2Id);
    Sequences.FilterEmpty(p, rows);
    var r := rows + [row];
    forall i, j | 0 <= i < j < |r| ensures !SamePair(r[j], r[i].user1Id, r[i].user2Id) {
      if j == |rows| {
        assert !p(rows[i]);
      } else {
        assert r[i] == rows[i] && r[j] == rows[j];
      }
    }
  }

  /** The backend's `conversations` table, the storage get-or-create reads and inserts into. */
  class ConversationsTable {
    var rows: seq<ConversationRow>

    constructor (rows: seq<ConversationRow>)
      ensures this.rows == rows
    {
      this.rows := rows;
    }
  }

  /** What the conversations query came back with. */
  datatype ConversationsResponse =
    | Rows(data: Option<seq<ConversationRow>>)  // no error; `data` may be null
    | Failed                                    // an error was returned, or the request threw

  /** The hook's state cells (`conversations`, `loading`) for the signed-in user. */
  class ConversationDirectory {
    var currentUserId: Option<string>
    var conversations: seq<ConversationWithUser>
    var loading: bool

    constructor (currentUserId: Option<string>)
      ensures this.currentUserId == currentUserId && conversations == [] && !loading
    {
      this.currentUserId := currentUserId;
      conversations := [];
      loading := false;
    }

    /** `loadConversations`, with the query's outcome and the lookups as parameters. */
    method Load(response: ConversationsResponse,
                profiles: map<string, Profile>, lastMessages: map<string, LastMessage>)
      modifies this`conversations, this`loading
      ensures !Present(currentUserId) ==> conversations == old(conversations) && loading == old(loading)
      ensures Present(currentUserId) ==> !loading
      ensures Present(currentUserId) && response.Rows? ==>
        conversations == Resolve(response.data.GetOr([]), currentUserId.value, profiles, lastMessages)
      ensures response.Failed? ==> conversations == old(conversations)
      ensures forall k :: 0 <= k < |conversations| ==>
        conversations[k] in old(conversations) || conversations[k].otherUser.Some?
    {
      if !Present(currentUserId) {
        return;
      }
      loading := true;
      match response {
        case Rows(data) =>
          conversations := Resolve(data.GetOr([]), currentUserId.value, profiles, lastMessages);
        case Failed =>
      }
      loading := false;
    }

    /**
     * `getOrCreateConversation(otherUserId)` over `table`. `lookupFailed` says the existence
     * query returned an error, `insertFailed` that the insert did; `newId` and `now` are the
     * identifier and creation time the backend assigns. `reload` says that the conversation list
     * is then reloaded.
     */
    method GetOrCreate(table: ConversationsTable, otherUserId: string, lookupFailed: bool,
                       insertFailed: bool, newId: string, now: int)
      returns (id: Option<string>, reload: bool)
      modifies table
      ensures !Present(currentUserId) ==> id.None? && !reload && table.rows == old(table.rows)
      ensures Present(currentUserId) && !lookupFailed &&
              |PairRows(old(table.rows), currentUserId.value, otherUserId)| == 1 ==>
        id == Some(PairRows(old(table.rows), currentUserId.value, otherUserId)[0].id) &&
        !reload && table.rows == old(table.rows)
      ensures Present(currentUserId) &&
              (lookupFailed || |PairRows(old(table.rows), currentUserId.value, otherUserId)| != 1) ==>
        if insertFailed then
          id.None? && !reload && table.rows == old(table.rows)
        else
          id == Some(newId) && reload &&
          table.rows == old(table.rows) + [ConversationRow(newId, currentUserId.value, otherUserId, None, now)]
      ensures old(UniquePairs(table.rows)) && !lookupFailed ==> UniquePairs(table.rows)
    {
      id, reload := None, false;
      if !Present(currentUserId) {
        return;
      }
      var current := currentUserId.value;
      var matches := PairRows(table.rows, current, otherUserId);
      // `.single()` yields a row only when exactly one matches.
      if !lookupFailed && |matches| == 1 {
        id := Some(matches[0].id);
        return;
      }
      if insertFailed {
        return;
      }
      var row := ConversationRow(newId, current, otherUserId, None, now);
      if !lookupFailed && UniquePairs(table.rows) {
        if matches != [] {
          var i :| 0 <= i < |table.rows| && table.rows[i] == matches[0] by {
            Sequences.FilterMembers((r: ConversationRow) => SamePair(r, current, otherUserId),
                                    table.rows, matches[0]);
          }
          ExistingPairSelected(table.rows, current, otherUserId, i);
          assert false;
        }
        InsertNewPairKeepsUnique(table.rows, row);
      }
      table.rows := table.rows + [row];
      id, reload := Some(newId), true;
    }
  }
}
