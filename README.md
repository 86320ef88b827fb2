# instant-talk-bridge client logic, modelled in Dafny

This project models the client-side logic of a chat web application whose storage, auth and
change feed live in a hosted backend. The modelled parts are the following:

- **MessageStream** (`useRealTimeMessages`). The open conversation's `messages` and `loading` state
  cells. A history load replaces the sequence. Each live insert event is merged by message id.
  `sendMessage` issues an insert and then a `last_message_at` update.
- **ConversationDirectory** (`useConversations`). It picks the counterpart of each conversation,
  enriches the fetched rows and drops those whose counterpart profile is missing. Get-or-create
  runs over the `conversations` table.
- **The demo chat window** (`ChatInterface`). It covers the submit guard and append, the send
  button's disabled state and the header status line.
- **Presentation helpers.** These are `formatTime`, `truncateMessage`, the "Você: " prefix, the
  user search filter, `getStatusText` and `getInitials`. `getInitials` appears identically in
  three components and is modelled once, as `Text.Initials`.
- **Browser decisions** (`pwa.ts`). These are the user-agent classification of `getDeviceInfo` and
  the `requestNotificationPermission` ladder.

The backend's answers are parameters of the methods that would await them. So are the clock, the
user's answer to the notification prompt and the `isPWA()` result. The storage table that
get-or-create reads and inserts into is a class, `Conversations.ConversationsTable`, holding a
sequence of rows. `.single()` yields a row only when exactly one row matches, so that lookup is
modelled as "exactly one matching row".

Modules: `Wrappers` (Option), `Sequences` (filter, subsequence, pairwise order), `Text` (UTF-16 code units, trim,
case mapping, `includes`, `split(' ')`, initials, decimal rendering), `UserTypes`,
`RealTimeMessages`, `Conversations`, `ChatInterface`, `ConversationList`, `UserList`, `Pwa`.

Behaviour of the code that the model keeps as it is:

- A failed history load keeps the previous `messages`; nothing clears them.
- Changing the conversation does not clear `messages`: `MessageStream.SetProps` keeps them until
  the next successful load.
- A failed conversation insert yields null, and no second lookup follows it.
- The `.single()` lookup sees no row when two rows match the pair, and the code then inserts a
  third. `GetOrCreate` models this. Its last `ensures` shows that "one row per unordered pair" is
  kept whenever the lookup itself did not fail.
- Every guard of the form `if (!x) return` rejects the empty string as well as null. The model
  writes this test as `Wrappers.Present`.
- `length`, `substring` and `n[0]` count UTF-16 code units. `truncateMessage` and `getInitials`
  therefore work on `seq<Text.CodeUnit>`, and `Text.Utf16` gives the code units of a text. A cut
  can fall inside a surrogate pair, and then half a character is kept.

## Model

| member | source | states |
|---|---|---|
| `RealTimeMessages.Find` | src/hooks/useRealTimeMessages.tsx:69 | finds a message exactly when some held message carries the id, and what it finds carries that id |
| `RealTimeMessages.MergeKnownId` | src/hooks/useRealTimeMessages.tsx:69-70 | an event whose id is already held leaves the sequence unchanged |
| `RealTimeMessages.MergeNewId` | src/hooks/useRealTimeMessages.tsx:71 | an event with a new id is appended as the last element, after the unchanged earlier messages |
| `RealTimeMessages.Merge` | src/hooks/useRealTimeMessages.tsx:67-72 | the previous sequence is always a prefix of the merged one, which grows by at most one and afterwards holds the event's id |
| `RealTimeMessages.MergeIdempotent` | src/hooks/useRealTimeMessages.tsx:67-72 | merging the same event twice equals merging it once |
| `RealTimeMessages.MergeKeepsDistinct` | src/hooks/useRealTimeMessages.tsx:67-72 | pairwise distinct ids stay pairwise distinct |
| `RealTimeMessages.MergeIdSet` | src/hooks/useRealTimeMessages.tsx:67-72 | the merge adds exactly the event's id to the set of held ids |
| `RealTimeMessages.MergeAllSound` | src/hooks/useRealTimeMessages.tsx:39-72 | after a snapshot and any run of live events, the snapshot is a prefix, the ids are distinct, and they are exactly the snapshot's and the events' ids |
| `RealTimeMessages.RepeatedEventExample` | src/hooks/useRealTimeMessages.tsx:67-72 | history with ids 1, 2, 3 plus a repeated event for id 2 stays exactly those three |
| `RealTimeMessages.MessageStream.constructor` | src/hooks/useRealTimeMessages.tsx:17-19 | the state cells start as an empty sequence and not loading |
| `RealTimeMessages.MessageStream.SetProps` | src/hooks/useRealTimeMessages.tsx:17-19 | new properties leave `messages` and `loading` as they were |
| `RealTimeMessages.MessageStream.Load` | src/hooks/useRealTimeMessages.tsx:22-44 | without a conversation id (null or empty) nothing changes; otherwise `loading` ends false, a success replaces `messages` with the rows (null read as empty), and a failure keeps them |
| `RealTimeMessages.MessageStream.OnInsert` | src/hooks/useRealTimeMessages.tsx:64-72 | the new sequence is the merge of the old one with the event, extends it, and keeps ids distinct |
| `RealTimeMessages.MessageStream.Send` | src/hooks/useRealTimeMessages.tsx:84-111 | no write when the conversation or user id is null or empty or the text is blank; otherwise the trimmed insert comes first, the `last_message_at` touch follows only a successful insert, an insert error rejects, and the update's answer never does |
| `Conversations.OtherUserId` | src/hooks/useConversations.tsx:49 | for a participant, the counterpart and the current user are the row's two participants, as a multiset |
| `Conversations.Enrich` | src/hooks/useConversations.tsx:49-74 | an entry keeps its row, carries the counterpart's profile exactly when the profile lookup finds one, and the last message exactly when that lookup finds one |
| `Conversations.Resolve` | src/hooks/useConversations.tsx:78 | no stored entry lacks its counterpart, and there are never more entries than fetched rows |
| `Conversations.ResolveRows` | src/hooks/useConversations.tsx:48-78 | the stored rows are the fetched rows whose counterpart has a profile, in fetched order |
| `Conversations.ResolveEntries` | src/hooks/useConversations.tsx:51-74 | every stored entry carries its counterpart's profile and the last message looked up for it |
| `Conversations.ResolveKeepsOrder` | src/hooks/useConversations.tsx:39-78 | the stored list is a subsequence of the fetched one, no longer, keeps a row exactly when its counterpart has a profile, and keeps the "latest activity first, nulls last" order |
| `Conversations.ExistingPairSelected` | src/hooks/useConversations.tsx:91-99 | when each pair has at most one row, a conversation between the two users in either order is the single row the lookup selects |
| `Conversations.InsertNewPairKeepsUnique` | src/hooks/useConversations.tsx:102-108 | inserting a row for a pair that has none keeps at most one row per unordered pair |
| `Conversations.ConversationDirectory.constructor` | src/hooks/useConversations.tsx:20-21 | the list starts empty and not loading |
| `Conversations.ConversationDirectory.Load` | src/hooks/useConversations.tsx:29-84 | without a user id (null or empty) nothing changes; otherwise `loading` ends false, a success stores the resolved list, and a failure keeps the previous list |
| `Conversations.ConversationDirectory.GetOrCreate` | src/hooks/useConversations.tsx:86-124 | without a user id (null or empty) it returns null without touching the table; a single matching row's id is returned with no insert; otherwise `(current, other)` is appended and its id returned with a reload, or an insert error yields null; unique pairs are kept when the lookup succeeds |
| `ChatInterface.MockMessages` | src/components/chat/chat-interface.tsx:22-47 | the module-level demo conversation: four messages, alternating between the other user and "me", all before the module's load time and oldest first |
| `ChatInterface.SendButtonDisabled` | src/components/chat/chat-interface.tsx:204 | the send button is disabled exactly when the input is all whitespace |
| `ChatInterface.HeaderStatusText` | src/components/chat/chat-interface.tsx:135 | typing shows "digitando..."; otherwise "online" exactly for an online user, and "offline" for away, busy and offline |
| `ChatInterface.ChatWindow.constructor` | src/components/chat/chat-interface.tsx:22-52 | the window opens with the four demo messages, an empty input and no typing indicator |
| `ChatInterface.ChatWindow.SetInput` | src/components/chat/chat-interface.tsx:198 | the input holds the typed text |
| `ChatInterface.ChatWindow.Submit` | src/components/chat/chat-interface.tsx:63-78 | a blank input changes nothing; otherwise exactly one "me" message with the untrimmed input is appended, the input is cleared and typing starts |
| `ConversationList.FloorOfFloor` | src/components/chat/conversation-list.tsx:81-82 | whole days taken from whole hours equal whole days of the age |
| `ConversationList.AgeOf` | src/components/chat/conversation-list.tsx:78-92 | days when the age is at least 24 h, hours from 1 h up to 24 h, minutes from 1 min up to 1 h, otherwise "just now" (future times included), each with its floor count |
| `ConversationList.LabelInjective` | src/components/chat/conversation-list.tsx:84-90 | different buckets or counts never render the same text |
| `ConversationList.FormatTime` | src/components/chat/conversation-list.tsx:78-92 | the shown text is the decimal count with d, h or m for the matching age range, and "agora" exactly below one minute |
| `ConversationList.Truncate` | src/components/chat/conversation-list.tsx:94-98 | counting UTF-16 code units, a message that fits is kept; a longer one becomes its first `maxLength` code units plus "...", of length `maxLength` + 3; a negative `maxLength` gives "..." |
| `ConversationList.TruncateIdempotent` | src/components/chat/conversation-list.tsx:94-98 | truncating a truncated preview changes nothing |
| `ConversationList.TruncateSplitsPair` | src/components/chat/conversation-list.tsx:94-98 | a cut right after `maxLength` BMP characters that are followed by a character above U+FFFF keeps only that character's high surrogate |
| `ConversationList.SenderPrefix` | src/components/chat/conversation-list.tsx:159 | "Você: " is shown exactly when the last message is from "me" |
| `UserList.Matches` | src/components/chat/user-list.tsx:63-66 | the empty term matches every user, and so does a term found in the name or e-mail as typed |
| `UserList.FilteredUsers` | src/components/chat/user-list.tsx:63-66 | the shown users are a subsequence of the list, a user is shown exactly when the lower-cased term occurs in the lower-cased name or e-mail, and an empty term shows everyone |
| `UserList.ExactOccurrenceFound` | src/components/chat/user-list.tsx:63-66 | a term occurring in the name or e-mail with the same letter case always finds the user |
| `UserList.NoUsersFoundIffNoneMatch` | src/components/chat/user-list.tsx:148 | the "no users found" message appears exactly when no listed user matches |
| `UserList.MockDirectory` | src/components/chat/user-list.tsx:22-80 | over the panel's five users, an empty search lists them all, the away user shows "Ausente" and the offline user shows "há 2 horas" |
| `UserList.MockSearchFindsAna` | src/components/chat/user-list.tsx:22-66 | searching the panel's list for "ana" finds Ana Silva |
| `UserList.StatusText` | src/components/chat/user-list.tsx:72-80 | "Online", "Ausente" and "Ocupado" for the three present states; offline shows a non-empty last-seen text, else "Offline"; never empty |
| `Pwa.GetDeviceInfo` | src/utils/pwa.ts:62-79 | iOS exactly for "iPad", "iPhone" or "iPod"; Android exactly for "Android"; mobile exactly for "mobi" or "android" in any case, so Android implies mobile; Chrome exactly for "Chrome"; Safari exactly for "Safari" without "Chrome" |
| `Pwa.RequestNotificationPermission` | src/utils/pwa.ts:36-52 | "denied" without a prompt when unsupported; a stored "granted" or "denied" is returned without a prompt; otherwise the prompt's answer |
| `Pwa.PromptOnlyWhenUndecided` | src/utils/pwa.ts:36-52 | the user is asked exactly when supported and undecided, and "granted" results only from a stored grant or a grant at the prompt |
| `Text.Trim` | src/hooks/useRealTimeMessages.tsx:85 | `trim()` is empty exactly for all-whitespace input; otherwise it has non-whitespace ends; in every case it occurs in the input with only whitespace before and after it |
| `Text.Contains` | src/components/chat/user-list.tsx:64-65 | the empty term is always found; a found term is no longer than the text, and its first character occurs in the text |
| `Text.ContainsAt` | src/components/chat/user-list.tsx:64-65 | `includes` holds exactly when the term occurs at some index |
| `Text.Utf16` | src/components/chat/conversation-list.tsx:95 | a text takes between one and two code units per character, and exactly one per character when all are below U+10000 |
| `Text.Utf16Append` | src/components/chat/conversation-list.tsx:95-96 | the code units of a concatenation are the concatenation of the code units |
| `Text.SplitOnSpace` | src/components/chat/chat-interface.tsx:99 | `split(' ')` gives at least one piece, and no piece contains a space |
| `Text.SplitJoinRoundTrip` | src/components/chat/chat-interface.tsx:99 | joining the pieces of `split(' ')` with spaces gives the name back |
| `Text.InitialsAreWordStarts` | src/components/chat/chat-interface.tsx:98-100 | the initials are the upper-cased first code units of the words, in order, with empty pieces contributing nothing |
| `Text.Initials` | src/components/chat/chat-interface.tsx:98-100 | there is at most one initial per piece of `split(' ')`, and none is a lower-case ASCII letter |
| `Text.InitialOfAstralWord` | src/components/chat/chat-interface.tsx:99 | a name starting with a character above U+FFFF gets only that character's high surrogate as its first initial |
| `Text.DecimalRoundTrip` | src/components/chat/conversation-list.tsx:85 | the decimal rendering of a count reads back as that count |

## Left out

- Supabase queries run in the backend, so their filtering and ordering are not modelled. This
  includes the `last_message_at desc nulls last` order. Their results are parameters: the load
  responses, the profile and last-message lookups (as maps) and the insert/update answers.
  `ResolveKeepsOrder` shows that the client keeps whatever order arrives.
- The realtime channel lifecycle is left out: subscribe, `removeChannel`, the `Promise.all`
  fan-out and interleavings of the async effects. This is event-loop scheduling, not sequential
  logic. So is the two-client get-or-create race.
- The auto-reply `setTimeout` of the chat window, the login delay and the presence heartbeat are
  left out. They are timers and DOM listeners.
- `Date.now()` and `toLocaleTimeString` are not modelled. The current time is an integer
  parameter (milliseconds). The locale clock format of the chat bubbles is left out.
- ConversationList.AgeOf: uses exact integer floor division. JavaScript divides in doubles,
  which agrees for any age under about 100,000 years.
- Text.Decimal: the plain decimal form. JavaScript switches to exponent notation from 10^21,
  which no day count reaches.
- Text.ToLower and Text.ToUpper: map ASCII letters only. They do not model Unicode case mapping
  (such as "ß" to "SS").
- Pwa.GetDeviceInfo: the `/i` test is modelled as an ASCII lower-case search, not the regular
  expression engine's Unicode case folding.
- Text.Trim: uses the exact ECMAScript whitespace and line-terminator set over code points.
  Every member of that set is below U+10000, so reading code units instead trims the same text.
- Text.ToLower: works on code points. It is used only for `includes` over well-formed text, where
  a code-unit match and a code-point match agree.
- RealTimeMessages.MessageStream.Send: treats a rejected update call like an update error. The
  client library reports network failures as returned errors.
- `registerSW`, `isPWA` and `shareContent` are left out, because they are browser APIs. `isPWA()`
  is a parameter of `GetDeviceInfo`.
- JSX rendering, styling, the status-indicator class maps, forms, the install prompt and page
  view toggles are left out. They are presentation with no logic beyond flag flips.
