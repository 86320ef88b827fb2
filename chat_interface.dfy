/**
 * The demo chat window (src/components/chat/chat-interface.tsx): its message list, input text
 * and typing flag, the submit handler, and the header's status line.
 */
module ChatInterface {
  import Text
  import opened UserTypes

  /** A message bubble of the window; `timestamp` is milliseconds since the epoch. */
  datatype ChatMessage = ChatMessage(id: string, content: string, timestamp: int, sender: Sender)

  /**
   * The module-level conversation every window opens with. It is built once, when the module is
   * loaded at time `loadedAt`, so every window shows the same timestamps: four messages, taking
   * turns between the other user and "me", 30 to 15 minutes before the load, oldest first.
   */
  function MockMessages(loadedAt: int): (r: seq<ChatMessage>)
    ensures |r| == 4
    ensures forall i :: 0 <= i < |r| ==> r[i].timestamp < loadedAt
    ensures forall i :: 0 <= i < |r| - 1 ==> r[i].timestamp < r[i + 1].timestamp
    ensures forall i :: 0 <= i < |r| ==> (r[i].sender == Me <==> i % 2 == 1)
  {
    [ ChatMessage("1", "Oi! Como você está?", loadedAt - 1000 * 60 * 30, Other),
      ChatMessage("2", "Oi! Estou bem, obrigado! E você?", loadedAt - 1000 * 60 * 25, Me),
      ChatMessage("3", "Também estou bem! Você viu as novidades do projeto?", loadedAt - 1000 * 60 * 20, Other),
      ChatMessage("4", "Sim! Ficou muito bom. Parabéns pelo trabalho!", loadedAt - 1000 * 60 * 15, Me) ]
  }

  /**
   * The send button's `disabled` expression, `!newMessage.trim()`: disabled exactly for inputs
   * made only of whitespace (the empty one included).
   */
  predicate SendButtonDisabled(input: string)
    ensures SendButtonDisabled(input) <==> Text.IsBlank(input)
  {
    Text.Trim(input) == []
  }

  /**
   * The header's status line: the typing indicator wins; otherwise only an online user reads
   * "online", and away, busy and offline users all read "offline".
   */
  function HeaderStatusText(isTyping: bool, status: Status): (text: string)
    ensures isTyping ==> text == "digitando..."
    ensures !isTyping ==> (text == "online" <==> status == Online)
    ensures !isTyping && status in {Away, Busy, Offline} ==> text == "offline"
  {
    if isTyping then "digitando..." else if status == Online then "online" else "offline"
  }

  /** The component's state cells for a chat with `user`. */
  class ChatWindow {
    const user: Profile
    var messages: seq<ChatMessage>
    var newMessage: string
    var isTyping: bool

    /** A window opened on `user`, in a page whose module was loaded at time `loadedAt`. */
    constructor (user: Profile, loadedAt: int)
      ensures this.user == user
      ensures messages == MockMessages(loadedAt) && newMessage == [] && !isTyping
    {
      this.user := user;
      messages := MockMessages(loadedAt);
      newMessage := [];
      isTyping := false;
    }

    /** The input's `onChange`. */
    method SetInput(text: string)
      modifies this`newMessage
      ensures newMessage == text
    {
      newMessage := text;
    }

    /**
     * `handleSendMessage` at time `now` (what `Date.now()` returns): a blank input changes
     * nothing; otherwise exactly one message from "me" with the untrimmed input is appended, the
     * input is cleared and the typing indicator starts. Submitting is refused exactly when the
     * button is disabled.
     */
    method Submit(now: nat)
      modifies this`messages, this`newMessage, this`isTyping
      ensures SendButtonDisabled(old(newMessage)) ==>
        messages == old(messages) && newMessage == old(newMessage) && isTyping == old(isTyping)
      ensures !SendButtonDisabled(old(newMessage)) ==>
        messages == old(messages) + [ChatMessage(Text.Decimal(now), old(newMessage), now, Me)] &&
        newMessage == [] && isTyping
    {
      if Text.Trim(newMessage) == [] {
        return;
      }
      var message := ChatMessage(Text.Decimal(now), newMessage, now, Me);
      messages := messages + [message];
      newMessage := [];
      isTyping := true;
    }
  }
}
