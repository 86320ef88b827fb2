/**
 * The message stream of one open conversation (src/hooks/useRealTimeMessages.tsx): a history
 * load that replaces the local sequence, a live insert feed merged into it by message id, and a
 * send operation that issues two ordered writes to the backend.
 */
module RealTimeMessages {
  import opened Wrappers
  import Text

  /** A row of the `messages` table. */
  datatype Message = Message(
    id: string,
    content: string,
    createdAt: string,
    senderId: string,
    conversationId: string)

  /** Some message of `ms` carries identifier `id`. */
  predicate HasId(ms: seq<Message>, id: string) {
    exists i :: 0 <= i < |ms| && ms[i].id == id
  }

  /** No identifier occurs twice in `ms`. */
  predicate DistinctIds(ms: seq<Message>) {
    forall i, j :: 0 <= i < j < |ms| ==> ms[i].id != ms[j].id
  }

  /** `prev.find(msg => msg.id === id)`: the first message carrying `id`, if any. */
  function Find(prev: seq<Message>, id: string): (r: Option<Message>)
    ensures r.Some? <==> HasId(prev, id)
    ensures r.Some? ==> r.value in prev && r.value.id == id
  {
    if prev == [] then None
    else if prev[0].id == id then Some(prev[0])
    else
      var r := Find(prev[1..], id);
      assert HasId(prev, id) ==> prev[0].id == id || HasId(prev[1..], id) by {
        if HasId(prev, id) {
          var i :| 0 <= i < |prev| && prev[i].id == id;
          if i > 0 { assert prev[1..][i - 1].id == id; }
        }
      }
      assert HasId(prev[1..], id) ==> HasId(prev, id) by {
        if HasId(prev[1..], id) {
          var i :| 0 <= i < |prev[1..]| && prev[1..][i].id == id;
          assert prev[i + 1].id == id;
        }
      }
      r
  }

  /**
   * The state update of the insert-event callback: drop a known id, append a new one. The
   * previous messages stay in place as a prefix, at most the event is added, and afterwards the
   * event's id is held.
   */
  function Merge(prev: seq<Message>, m: Message): (r: seq<Message>)
    ensures prev <= r && |r| <= |prev| + 1
    ensures HasId(r, m.id)
  {
    if Find(prev, m.id).Some? then prev
    else
      assert (prev + [m])[|prev|] == m;
      prev + [m]
  }

  /** An event whose id is already held leaves the sequence unchanged. */
  lemma MergeKnownId(prev: seq<Message>, m: Message)
    requires HasId(prev, m.id)
    ensures Merge(prev, m) == prev
  {
  }

  /** An event with a new id is appended at the end; the earlier messages keep their order. */
  lemma MergeNewId(prev: seq<Message>, m: Message)
    requires !HasId(prev, m.id)
    ensures Merge(prev, m) == prev + [m]
    ensures |Merge(prev, m)| == |prev| + 1 && Merge(prev, m)[|prev|] == m
  {
  }

  /** Delivering the same event twice has the effect of delivering it once. */
  lemma MergeIdempotent(prev: seq<Message>, m: Message)
    ensures Merge(Merge(prev, m), m) == Merge(prev, m)
  {
  }

  /** The merge keeps identifiers pairwise distinct. */
  lemma MergeKeepsDistinct(prev: seq<Message>, m: Message)
    ensures DistinctIds(prev) ==> DistinctIds(Merge(prev, m))
  {
    if DistinctIds(prev) && !HasId(prev, m.id) {
      var r := prev + [m];
      forall i, j | 0 <= i < j < |r| ensures r[i].id != r[j].id {
        if j == |prev| {
          assert r[i] == prev[i];
        }
      }
    }
  }

  /** The ids held by `ms`, as a set. */
  function IdSet(ms: seq<Message>): (ids: set<string>)
    ensures forall id :: id in ids <==> HasId(ms, id)
  {
    set i | 0 <= i < |ms| :: ms[i].id
  }

  /** The merge adds exactly the event's id to the ids held. */
  lemma MergeIdSet(prev: seq<Message>, m: Message)
    ensures IdSet(Merge(prev, m)) == IdSet(prev) + {m.id}
  {
    if !HasId(prev, m.id) {
      var next := prev + [m];
      forall id | HasId(next, id) ensures HasId(prev, id) || id == m.id {
        var i :| 0 <= i < |next| && next[i].id == id;
        if i < |prev| { assert prev[i].id == id; }
      }
      forall id | HasId(prev, id) ensures HasId(next, id) {
        var i :| 0 <= i < |prev| && prev[i].id == id;
        assert next[i].id == id;
      }
    }
  }

  lemma IdSetCons(events: seq<Message>)
    requires events != []
    ensures IdSet(events) == {events[0].id} + IdSet(events[1..])
  {
    forall id | HasId(events, id) ensures id == events[0].id || HasId(events[1..], id) {
      var i :| 0 <= i < |events| && events[i].id == id;
      if i > 0 { assert events[1..][i - 1].id == id; }
    }
    forall id | HasId(events[1..], id) ensures HasId(events, id) {
      var i :| 0 <= i < |events[1..]| && events[1..][i].id == id;
      assert events[i + 1].id == id;
    }
    assert HasId(events, events[0].id);
  }

  /** The state after a history snapshot followed by a run of live insert events. */
  function MergeAll(snapshot: seq<Message>, events: seq<Message>): seq<Message>
    decreases |events|
  {
    if events == [] then snapshot
    else MergeAll(Merge(snapshot, events[0]), events[1..])
  }

  /**
   * However history and live events overlap, the final sequence starts with the snapshot, holds
   * every identifier of the snapshot and of the events, nothing else, and each exactly once.
   */
  lemma {:induction false} MergeAllSound(snapshot: seq<Message>, events: seq<Message>)
    requires DistinctIds(snapshot)
    ensures DistinctIds(MergeAll(snapshot, events))
    ensures snapshot <= MergeAll(snapshot, events)
    ensures IdSet(MergeAll(snapshot, events)) == IdSet(snapshot) + IdSet(events)
    decreases |events|
  {
    if events != [] {
      var next := Merge(snapshot, events[0]);
      MergeKeepsDistinct(snapshot, events[0]);
      MergeIdSet(snapshot, events[0]);
      IdSetCons(events);
      MergeAllSound(next, events[1..]);
    }
  }

  /** What the history query came back with. */
  datatype LoadResponse =
    | Rows(data: Option<seq<Message>>)  // no error; `data` may be null
    | Failed                            // an error was returned, or the request threw

  /** A write `sendMessage` issues to the backend. */
  datatype Write =
    | InsertMessage(content: string, conversationId: string, senderId: string)
    | TouchConversation(conversationId: string, lastMessageAt: int)

  /** The backend's answer to the message insert. */
  datatype InsertResponse = InsertOk | InsertError(error: string)

  /** The backend's answer to the `last_message_at` update, which `sendMessage` never inspects. */
  datatype UpdateResponse = UpdateOk | UpdateError(error: string)

  /** How the promise returned by `sendMessage` settles. */
  datatype SendResult = Resolved | Rejected(error: string)

  /** The hook's state cells (`messages`, `loading`) and its current properties. */
  class MessageStream {
    var conversationId: Option<string>
    var currentUserId: Option<string>
    var messages: seq<Message>
    var loading: bool

    constructor (conversationId: Option<string>, currentUserId: Option<string>)
      ensures this.conversationId == conversationId && this.currentUserId == currentUserId
      ensures messages == [] && !loading
    {
      this.conversationId := conversationId;
      this.currentUserId := currentUserId;
      messages := [];
      loading := false;
    }

    /** New properties from the parent: the state cells survive, nothing is cleared. */
    method SetProps(conversationId: Option<string>, currentUserId: Option<string>)
      modifies this
      ensures this.conversationId == conversationId && this.currentUserId == currentUserId
      ensures messages == old(messages) && loading == old(loading)
    {
      this.conversationId := conversationId;
      this.currentUserId := currentUserId;
    }

    /** The history-load effect, with the query's outcome as a parameter. */
    method Load(response: LoadResponse)
      modifies this`messages, this`loading
      ensures !Present(conversationId) ==> messages == old(messages) && loading == old(loading)
      ensures Present(conversationId) ==> !loading
      ensures Present(conversationId) && response.Rows? ==> messages == response.data.GetOr([])
      ensures response.Failed? ==> messages == old(messages)
    {
      if !Present(conversationId) {
        return;
      }
      loading := true;
      match response {
        case Rows(data) =>
          messages := data.GetOr([]);
        case Failed =>
      }
      loading := false;
    }

    /** The live-feed callback for one insert event. */
    method OnInsert(m: Message)
      modifies this`messages
      ensures messages == Merge(old(messages), m)
      ensures old(messages) <= messages
      ensures HasId(old(messages), m.id) ==> messages == old(messages)
      ensures !HasId(old(messages), m.id) ==> messages == old(messages) + [m]
      ensures old(DistinctIds(messages)) ==> DistinctIds(messages)
    {
      MergeKeepsDistinct(messages, m);
      messages := Merge(messages, m);
    }

    /**
     * `sendMessage(content)`: the writes it issues, in order, and how its promise settles. The
     * current time and the backend's answers are parameters.
     */
    method Send(content: string, now: int, insert: InsertResponse, update: UpdateResponse)
      returns (writes: seq<Write>, result: SendResult)
      ensures !Present(conversationId) || !Present(currentUserId) || Text.IsBlank(content) ==>
        writes == [] && result == Resolved
      ensures Present(conversationId) && Present(currentUserId) && !Text.IsBlank(content) ==>
        |writes| >= 1 &&
        writes[0] == InsertMessage(Text.Trim(content), conversationId.value, currentUserId.value) &&
        (insert.InsertOk? ==>
          writes == [writes[0], TouchConversation(conversationId.value, now)] && result == Resolved) &&
        (insert.InsertError? ==> writes == [writes[0]] && result == Rejected(insert.error))
    {
      writes := [];
      result := Resolved;
      if !Present(conversationId) || !Present(currentUserId) || Text.Trim(content) == [] {
        return;
      }
      writes := writes + [InsertMessage(Text.Trim(content), conversationId.value, currentUserId.value)];
      if insert.InsertError? {
        result := Rejected(insert.error);
        return;
      }
      writes := writes + [TouchConversation(conversationId.value, now)];
    }
  }

  /** A history of ids [1, 2, 3] followed by a repeated live event for id 2 stays [1, 2, 3]. */
  lemma RepeatedEventExample(m1: Message, m2: Message, m3: Message, again: Message)
    requires m1.id == "1" && m2.id == "2" && m3.id == "3" && again.id == "2"
    ensures MergeAll([m1, m2, m3], [again]) == [m1, m2, m3]
  {
    assert [m1, m2, m3][1].id == again.id;
  }
}
