# Chat app real-time core, modelled in Dafny

This project models the behaviour of a small chat application. The application has two halves:

- an Expo / React Native client;
- a Java WebSocket and servlet server.

The model covers the parts of both halves with discrete, sequential behaviour.

**Client connection.** The `WebSocketProvider` connection state machine (`Connection`) includes:

- socket creation gated on a positive user id;
- closing the previous socket;
- the `connected` flag;
- the `sendMessage` gate and the stamping of `userId` into every frame;
- the `useWebSocket` context guard.

**Client hooks.** The per-feature hooks are pure reducers over a closed `Envelope` datatype, one variant per inbound tag (`Hooks`). They can be mounted together and fed one envelope at a time (`ClientSync`). A generic replay function (`Replay`) states last-snapshot-wins and append-order properties over any sequence of envelopes.

**Client screen logic.**

- The string validators (`Validation`).
- The sign-up button (`SignUp`).
- The contact forms and the phone-entry screen (`ContactForms`).
- Chat-list search, recency sort and relative-time buckets (`ChatListView`, `Sorting`).
- Directory search, avatar and status label (`Directory`).
- Profile-image URL normalisation and the profile edit/save/cancel state machine (`Profile`).

**Server store and services.**

- The database as sequences of user, chat and friendship rows, with the entity defaults: a user starts ONLINE, a chat starts SENT, a friendship starts ACTIVE (`Store`).
- The session registry, chat partners, latest chat, unread counts, chat summaries, chat history with its SENT → READ update, and saving a chat (`ChatService`).
- Login and logout status changes, delivery receipts (SENT → DELIVERED), friend data, the user directory and the add-contact decision table (`UserService`).

**Server endpoint and servlets.**

- The WebSocket endpoint: query parsing on open, close and error handling, `type`-keyed dispatch, the handlers and `getIntValue` (`ChatEndPoint`).
- The request-validation cascades and replies of the user and profile servlets (`Controllers`).

**Modelling conventions.**

- Strings are `seq<char>`. Lower-casing is modelled on ASCII letters.
- Java's `Integer.parseInt` and JavaScript's `parseInt` are written out (`Strings`), including the 32-bit range check.
- JSON numbers are rationals `num/den`. `Number.intValue()` truncates toward zero and saturates at the 32-bit bounds.
- Timestamps are passed in as `now` parameters.
- Sessions are natural numbers. The server's outbound traffic is a list of `(session, frame)` deliveries.

## Model

| member | source | states |
|---|---|---|
| Protocol.TagsDistinguishVariants | src/socket/chat.ts:1-18 | two envelopes with the same tag are the same variant, so the hooks' tag tests select exactly one payload shape |
| Protocol.Encode | src/socket/useChatList.ts:12 | every outbound request carries its `type` tag and no `userId` of its own |
| Strings.JavaParseInt | src/java/socket/ChatEndPoint.java:36 | a string parses iff, after an optional sign, it is a non-empty run of ASCII digits, and the value lies in the 32-bit range |
| Strings.JavaParseIntOfIntToString | src/java/socket/ChatEndPoint.java:34-36 | every 32-bit integer printed in decimal parses back to itself |
| Strings.JsParseInt | App.tsx:86 | `parseInt(s, 10)` fails iff no digit follows the leading white space and optional sign |
| Strings.JsParseIntOfNatToString | App.tsx:86 | a stored decimal id up to 2^53 - 1 parses back to the same number |
| Connection.ProviderIdOf | App.tsx:86 | with nothing stored or an empty string the provider gets user id 0; for text `parseInt` rejects it gets NaN, modelled as 0, which the effect gates like 0 |
| Connection.ProviderIdOfStoredNumber | App.tsx:86 | a stored id string "n", for n up to 2^53 - 1, gives the provider the user id n |
| Connection.SocketUrl | src/socket/WebSocketProvider.tsx:29-30 | the socket URL is `wss://{host}/ChatApp/chat?userId={id}`, with host `localhost:8080` when unset or empty |
| Connection.CloseSocket | src/socket/WebSocketProvider.tsx:22-24 | a closed socket is no longer live and keeps its URL; closing a dead socket changes nothing |
| Connection.CloseCurrent | src/socket/WebSocketProvider.tsx:21-24 | closing the referenced socket leaves every other socket as it was and, from a valid provider, leaves no live socket |
| Connection.RunEffect | src/socket/WebSocketProvider.tsx:20-55 | a socket is created and referenced iff the id is positive; otherwise none is created and `connected` is false; the effect never sets `connected` |
| Connection.Cleanup | src/socket/WebSocketProvider.tsx:57-61 | cleanup leaves no live socket and keeps the reference |
| Connection.Mount | src/socket/WebSocketProvider.tsx:17-55 | mounting opens one socket iff the id is positive and starts disconnected |
| Connection.ChangeUserId | src/socket/WebSocketProvider.tsx:57-62 | an id change runs cleanup and then the effect, keeping the provider valid |
| Connection.SocketOpened | src/socket/WebSocketProvider.tsx:36-39 | an open event sets `connected` iff that socket was still connecting |
| Connection.SocketClosed | src/socket/WebSocketProvider.tsx:41-49 | a close or error event from a socket not yet closed clears `connected`; otherwise nothing changes |
| Connection.Stamp | src/socket/WebSocketProvider.tsx:66 | a frame holds the caller's fields plus `userId`, which overrides any caller value |
| Connection.SendMessage | src/socket/WebSocketProvider.tsx:64-68 | a frame is transmitted iff the referenced socket is OPEN, and it is the stamped frame |
| Connection.NoSendAfterInvalidId | src/socket/WebSocketProvider.tsx:64-68 | after switching to an id ≤ 0, nothing is sent and the provider is disconnected, although the reference still holds the old socket |
| Connection.SwitchLeavesOnlyNewSocketLive | src/socket/WebSocketProvider.tsx:21-35 | after an id change, only the newly created socket can be live |
| Connection.StaleCloseClearsConnected | src/socket/WebSocketProvider.tsx:41-44 | a late close event from the replaced socket clears `connected` while the new socket is open |
| Connection.Context | src/socket/WebSocketProvider.tsx:70-79 | the context exposes the referenced socket, the `connected` flag and the id |
| Connection.UseWebSocket | src/socket/WebSocketProvider.tsx:83-88 | outside a provider the hook fails with the fixed message; inside, it returns the context |
| Hooks.Subscribe | src/socket/useChatList.ts:27 | the listeners afterwards are exactly the old ones plus the new one |
| Hooks.Unsubscribe | src/socket/useChatList.ts:29-31 | the listeners afterwards are exactly the old ones minus that one; no other listener is touched |
| Hooks.CleanupRemovesOwnListener | src/socket/useChatList.ts:27-31 | cleanup after subscribe restores the listener set |
| Hooks.ChatListRequests | src/socket/useChatList.ts:10-12 | with a socket, one `get_chat_list` request; without one, none |
| Hooks.ChatListReduce | src/socket/useChatList.ts:17-19 | a `friend_list` envelope replaces the list with its payload; other tags leave it |
| Replay.Run | src/socket/useChatList.ts:14-19 | the listener handles envelopes one at a time, each on the state the previous one left; it carries no contract of its own, its meaning is given by Replay.RunAppend and Replay.LastPickWins |
| Replay.RunAppend | src/socket/useChatList.ts:14-19 | handling a stream in two parts equals handling it in one |
| Replay.LastPickWins | src/socket/useChatList.ts:17-19 | a state part that each envelope either overwrites or leaves holds the value of the last overwriting envelope, or its initial value |
| Hooks.ChatListLastSnapshotWins | src/socket/useChatList.ts:7-19 | after any envelope stream the list is the last `friend_list` payload, or empty if none came |
| Hooks.ChatListIdempotent | src/socket/useChatList.ts:17-19 | re-delivering an envelope changes nothing |
| Hooks.SingleChatRequests | src/socket/useSingleChat.ts:14-15 | with a socket, `get_single_chat` then `friend_data`, both for the friend id |
| Hooks.SingleChatReduce | src/socket/useSingleChat.ts:21-39 | snapshots replace the messages; a `new_message` is appended iff it involves the friend; `friend_data` replaces the friend, and one for a missing user (whose null payload the server's JSON writer drops) leaves it undefined; "involves" (`Involves`, useSingleChat.ts:31) means the friend is the recipient or the sender |
| Hooks.SingleChatStep | src/socket/useSingleChat.ts:17-40 | the listener for one friend id, as a reducer over envelopes; it carries no contract of its own, its meaning is given by Hooks.MessagesAfterSnapshot and Hooks.FriendLastSnapshotWins |
| Hooks.Accepted | src/socket/useSingleChat.ts:27-35 | the accepted pushes: at most one per envelope, each involving the friend, none without `new_message` envelopes |
| Hooks.MessagesAppendAccepted | src/socket/useSingleChat.ts:27-35 | a stream without snapshots appends exactly the accepted messages, in arrival order, without de-duplication |
| Hooks.MessagesAfterSnapshot | src/socket/useSingleChat.ts:21-35 | after a last snapshot S, the messages are S followed by the accepted messages after it |
| Hooks.FriendLastSnapshotWins | src/socket/useSingleChat.ts:37-39 | the friend is the user carried by the last `friend_data`; it stays undefined when none came or when that one was for a missing user |
| Hooks.AllUsersRequests | src/socket/getAllUsers.ts:10-12 | with a socket, one `get_all_users` request; without one, none |
| Hooks.AllUsersReduce | src/socket/getAllUsers.ts:18-20 | a `get_all_users` envelope replaces the list with its payload; other tags leave it |
| Hooks.AllUsersLastSnapshotWins | src/socket/getAllUsers.ts:7-20 | the list is the last directory payload, or empty if none came |
| Hooks.SendNewContactRequests | src/socket/useSendNewContact.ts:10-12 | sending a contact issues exactly one `save_new_contact` with that contact, unvalidated |
| Hooks.ContactResultReduce | src/socket/useSendNewContact.ts:21-25 | a result envelope sets the status and the text; other tags leave both |
| Hooks.ContactResultLastWins | src/socket/useSendNewContact.ts:19-26 | the state reflects the last result envelope received, or the initial empty state |
| Hooks.PingsSent | src/socket/useWebSocketPing.ts:9-16 | the keepalive runs iff there is a socket and it is connected (`PingActive`, useWebSocketPing.ts:9-11); then one ping per elapsed 30000 ms, otherwise none |
| ClientSync.ReduceView | src/socket/useSingleChat.ts:19-41 | a hook's view changes only for the tags it tracks, keeps its kind and its friend id |
| ClientSync.Deliver | src/socket/useChatList.ts:14-25 | delivering to all hooks keeps their number, kinds and listening flags |
| ClientSync.OnlyTrackingHooksChange | src/socket/useSingleChat.ts:19-41 | a hook changes only if it listens and tracks the envelope's tag |
| ClientSync.DetachedHookNeverChanges | src/socket/useChatList.ts:10 | a hook with no listener is unchanged by any envelope stream |
| ClientSync.EffectRequests | src/socket/getAllUsers.ts:10-12 | without a socket, no hook sends anything |
| ClientSync.RerunEffect | src/socket/useWebSocketPing.ts:9-31 | re-running an effect keeps the view, attaches a listener iff the hook's gate passes and sends the hook's requests |
| ClientSync.Unmount | src/socket/useWebSocketPing.ts:26-31 | unmounting detaches the listener and keeps the view |
| ClientSync.TimerPings | src/socket/useWebSocketPing.ts:12-16 | a keepalive hook with its effect in place sends one ping per whole 30000 ms; any other hook, or one torn down, sends none |
| ClientSync.PingsFollowEffect | src/socket/useWebSocketPing.ts:8-32 | after the effect runs, the pings are those the connection state allows; after unmount, none |
| ClientSync.ChangeFriend | src/socket/useSingleChat.ts:10-47 | a new friend id re-requests for the new peer but keeps the old messages |
| ClientSync.NoSocketNoTraffic | src/socket/useChatList.ts:10 | without a socket, an effect neither sends nor listens |
| ClientSync.Transmit | src/socket/WebSocketProvider.tsx:64-68 | the hooks' requests reach the wire all or none, according to the socket state |
| ClientSync.FramesCarryIdentity | src/socket/WebSocketProvider.tsx:66 | every transmitted frame carries its request type and the provider's user id |
| Validation.ValidateFirstName | src/util/Validation.ts:1-7 | an error iff the name is empty; white space passes |
| Validation.ValidateLastName | src/util/Validation.ts:8-14 | an error iff the name is empty, with the last-name message |
| Validation.BlankNamesPass | src/util/Validation.ts:1-14 | every non-empty name made only of white space is accepted by both name validators |
| Validation.DigitRunMeaning | src/util/Validation.ts:20-22 | the digit-run matcher accepts exactly the digit strings of the given length range |
| Validation.MatchesCountryCode | src/util/Validation.ts:17-21 | the country-code pattern matches iff the text is "+", a digit 1-9 and at most three more digits |
| Validation.MatchesPhoneNo | src/util/Validation.ts:28-33 | the phone pattern matches iff the text is 7 to 15 digits, the first 1-9 |
| Validation.ValidateCountryCode | src/util/Validation.ts:16-25 | empty gives "Country code is empty"; the result is null iff the pattern matches; anything else is "Invalid Country code" |
| Validation.ValidatePhoneNo | src/util/Validation.ts:27-37 | empty gives the required message; the result is null iff 7-15 digits with a first digit 1-9; otherwise "Invalid Contact Number" |
| Validation.PhoneDigits | src/util/Validation.ts:32-34 | a digit followed by digits is a digit string |
| Validation.ValidateProfileImage | src/util/Validation.ts:47-59 | a missing image, then a missing uri, then a missing or empty type are reported, in that order; any present type passes |
| Validation.ImageSizeNeverReported | src/util/Validation.ts:56-59 | the file-size message is never returned |
| SignUp.SetFirstName | src/screens/SignUpScreen.tsx:72 | editing the first name changes only that field |
| SignUp.SetLastName | src/screens/SignUpScreen.tsx:104 | editing the last name changes only that field |
| SignUp.NameEditsCommute | src/screens/SignUpScreen.tsx:72-104 | the two field edits commute |
| SignUp.SignUpPress | src/screens/SignUpScreen.tsx:131-148 | navigation iff both names pass; otherwise the first-name warning takes priority over the last-name warning |
| SignUp.FilledNamesNavigate | src/screens/SignUpScreen.tsx:146-148 | after typing two non-empty names the button navigates |
| Toasts.ErrorToast | src/screens/NewContactScreen.tsx:31-36 | a missing-field toast is an error toast titled "Error" carrying the message |
| ContactForms.FirstCallingCode | src/screens/NewContactScreen.tsx:73 | the calling code taken is the country's first one |
| ContactForms.SelectCountry | src/screens/NewContactScreen.tsx:70-74 | selecting a country sets only the calling code |
| ContactForms.SendNameForm | src/screens/NewContactScreen.tsx:30-66 | first name, then last name, then phone are checked; only a complete form sends a contact with id 0, status ACTIVE and the calling code, and all four fields are cleared |
| ContactForms.SecondSendLosesCallingCode | src/screens/NewContactScreen.tsx:62-65 | a second send without a new country sends an empty country code |
| ContactForms.NameFormSendsOneRequest | src/screens/NewContactScreen.tsx:50-61 | a complete form produces exactly one `save_new_contact` request |
| ContactForms.SendDisplayNameForm | src/screens/chatScreenTabs/NewContactScreen.tsx:35-63 | display name, then phone are checked; a send has empty first and last names and keeps the calling code for the next form |
| ContactForms.TabFormKeepsDefaultCode | src/screens/chatScreenTabs/NewContactScreen.tsx:25-62 | a fresh tab form sends "+94" and still holds "+94" afterwards |
| ContactForms.ResponseToast | src/screens/chatScreenTabs/NewContactScreen.tsx:66-82 | no toast until a result; success iff the status is true; the server's text, or the default when it is empty |
| ContactForms.ToastShowsServerReply | src/screens/chatScreenTabs/NewContactScreen.tsx:66-82 | a non-empty server reply is shown verbatim with the matching toast kind |
| ContactForms.CapLength | src/screens/ContactScreen.tsx:93 | input is cut to its first 10 characters |
| ContactForms.HandlePhoneChange | src/screens/ContactScreen.tsx:13-17 | continue is enabled (`ContinueEnabled`, ContactScreen.tsx:16) iff the capped input has 9 or 10 characters, all digits |
| ContactForms.Hint | src/screens/ContactScreen.tsx:103-112 | no hint for empty input; "✓ Valid number" iff the enable rule holds; otherwise the count of digits still missing to 10 |
| ContactForms.HintAgreesWithButton | src/screens/ContactScreen.tsx:103-139 | the hint is the valid-number text iff the button's `disabled` flag (`ContinueDisabled`, ContactScreen.tsx:139) is off; nine digits and a letter still ask for 0 more digits |
| ChatListView.FilterChats | src/screens/chatScreenTabs/HomeScreen.tsx:78-85 | a chat is kept iff its lower-cased name or last message contains the lower-cased search; each kept chat appears as often as in the input |
| ChatListView.FilterChatsAppend | src/screens/chatScreenTabs/HomeScreen.tsx:78-85 | filtering keeps the input order: it distributes over concatenation |
| ChatListView.EmptySearchKeepsAll | src/screens/chatScreenTabs/HomeScreen.tsx:78-85 | an empty search keeps every chat in order |
| ChatListView.SortByRecency | src/screens/chatScreenTabs/HomeScreen.tsx:86 | the output is a permutation of the input, newest first |
| ChatListView.VisibleChats | src/screens/chatScreenTabs/HomeScreen.tsx:78-86 | the shown list is a newest-first permutation of exactly the matching chats |
| ChatListView.FloorOfFloor | src/screens/chatScreenTabs/HomeScreen.tsx:24-39 | whole days of whole hours equal whole days of the difference |
| ChatListView.FormatTime | src/screens/chatScreenTabs/HomeScreen.tsx:24-39 | "now" under a minute, future times included; then minutes 1-59, hours 1-23, else days |
| ChatListView.UnreadBadge | src/screens/chatScreenTabs/HomeScreen.tsx:134-138 | a badge iff the count is positive; "99+" iff it exceeds 99; otherwise the count in decimal |
| ChatListView.UnreadBadgeReadsBack | src/screens/chatScreenTabs/HomeScreen.tsx:134-138 | a numeric badge is the decimal form of the unread count: at most two characters, denoting the count |
| ChatListView.EmptyTitle | src/screens/chatScreenTabs/HomeScreen.tsx:180 | "No conversations yet" iff the unfiltered list is empty, else "No chats found" |
| Sorting.InsertBy | src/screens/chatScreenTabs/HomeScreen.tsx:86 | inserting keeps the list sorted and adds exactly one element |
| Sorting.SortBy | src/screens/chatScreenTabs/HomeScreen.tsx:86 | sorting yields a sorted permutation |
| Sorting.InsertByWithKey | src/screens/chatScreenTabs/HomeScreen.tsx:86 | inserting puts the new entry before the entries with the same key and leaves their order alone |
| Sorting.SortByStable | src/screens/chatScreenTabs/HomeScreen.tsx:86 | the sort is stable: for every key, the entries with that key keep their input order |
| Directory.ScreenStep | src/screens/chatScreenTabs/NewChatScreen.tsx:32-38 | one envelope: a directory replaces the hook's list; a non-empty one also replaces the shown users and ends loading; anything else leaves the shown state |
| Directory.UpdateUsers | src/screens/chatScreenTabs/NewChatScreen.tsx:32-38 | a non-empty snapshot replaces the users and clears loading; an empty one changes nothing |
| Directory.ShownIsLastNonEmptyDirectory | src/screens/chatScreenTabs/NewChatScreen.tsx:32-38 | the screen shows the last non-empty directory received, or stays loading with no users |
| Directory.FilterUsers | src/screens/chatScreenTabs/NewChatScreen.tsx:43-48 | a blank search shows everyone; otherwise each matching user as many times as in the directory, and no other user |
| Directory.MatchingUsers | src/screens/chatScreenTabs/NewChatScreen.tsx:45-48 | a user is kept iff the lower-cased "first last" contains the lower-cased search or the number contains the raw search, with its multiplicity in the directory |
| Directory.MatchingUsersAppend | src/screens/chatScreenTabs/NewChatScreen.tsx:45-48 | filtering keeps the directory's order: it distributes over concatenation |
| Directory.AvatarUri | src/screens/chatScreenTabs/NewChatScreen.tsx:105-107 | a non-blank stored image is used; otherwise the placeholder service URL with the user's id |
| Directory.PlaceholdersDistinct | src/screens/chatScreenTabs/NewChatScreen.tsx:105-107 | users without a usable image get the service address followed by their id, so placeholders are equal iff the ids are |
| Directory.GreenDotLabels | src/screens/chatScreenTabs/NewChatScreen.tsx:116-126 | the dot is green (`ShowsOnline`, NewChatScreen.tsx:116) only for the exact statuses ONLINE and ACTIVE, and then sits next to the label "online" or "active"; a lower-case "online" status shows the same label with a grey dot |
| Directory.StatusLabel | src/screens/chatScreenTabs/NewChatScreen.tsx:126 | a missing status is "No status"; otherwise the status lower-cased with only its first "_" turned into a space |
| Directory.StatusLabelReplacesFirstUnderscoreOnly | src/screens/chatScreenTabs/NewChatScreen.tsx:126 | "A_B_C" is shown as "a b_c" |
| Directory.OpenChat | src/screens/chatScreenTabs/NewChatScreen.tsx:138-145 | tapping a user opens the chat with its id, "first last" and its avatar |
| Profile.FirstPortMatch | src/screens/chatScreenTabs/ProfileScreen.tsx:44 | finds the first position where ":digits" occurs |
| Profile.PathAfterPort | src/screens/chatScreenTabs/ProfileScreen.tsx:44-46 | the text after the first ":digits" is a proper suffix of the URL, absent iff there is no port |
| Profile.FallbackId | src/screens/chatScreenTabs/ProfileScreen.tsx:69-70 | the user id if non-zero, else a non-empty stored id, else nothing |
| Profile.StoredImageUrl | src/screens/chatScreenTabs/ProfileScreen.tsx:38-66 | local http URLs with a port are rebased; other http URLs are kept; "/" paths, "uploads/" paths and bare names are prefixed as the branches do, in that priority |
| Profile.ProfileImageUrl | src/screens/chatScreenTabs/ProfileScreen.tsx:31-78 | a non-blank image is normalised; otherwise the per-user image URL, or null when no id is known |
| Profile.RelativeImagesUseBase | src/screens/chatScreenTabs/ProfileScreen.tsx:56-65 | a non-http image always yields a URL under the API base |
| Profile.LocalUrlWithPortRebased | src/screens/chatScreenTabs/ProfileScreen.tsx:42-50 | "http://localhost:8080/a.png" becomes base + "/a.png" |
| Profile.LocalUrlWithoutPortKept | src/screens/chatScreenTabs/ProfileScreen.tsx:42-53 | "http://localhost/a.png" is returned unchanged |
| Profile.RollbackImage | src/screens/chatScreenTabs/ProfileScreen.tsx:297-300 | on upload failure the image is cleared only if it is still the uploaded one; nothing else changes |
| Profile.RollbackKeepsNewerPick | src/screens/chatScreenTabs/ProfileScreen.tsx:297-300 | a newer pick survives the failure of an older upload |
| Profile.Seed | src/screens/ProfileScreen.tsx:21-25 | the edit buffer copies the three editable fields |
| Profile.MountProfile | src/screens/ProfileScreen.tsx:20-25 | the screen mounts not editing, with the buffer seeded from the registration |
| Profile.RegistrationChanged | src/screens/ProfileScreen.tsx:21-25 | later registration changes do not reseed the buffer |
| Profile.HandleSave | src/screens/ProfileScreen.tsx:96-102 | save copies the buffer's three fields, keeps all others and leaves edit mode |
| Profile.HandleCancel | src/screens/ProfileScreen.tsx:104-111 | cancel reseeds the buffer, keeps the data and leaves edit mode |
| Profile.HeaderPress | src/screens/ProfileScreen.tsx:130 | the header button enters edit mode, or cancels when editing |
| Profile.EditFirstName | src/screens/ProfileScreen.tsx:194 | typing changes only the buffer's first name |
| Profile.EditLastName | src/screens/ProfileScreen.tsx:220 | typing changes only the buffer's last name |
| Profile.EditContactNo | src/screens/ProfileScreen.tsx:246 | typing changes only the buffer's number |
| Profile.PickImage | src/screens/ProfileScreen.tsx:72-77 | a completed pick changes only the profile image; a cancelled one changes nothing |
| Profile.CancelDiscardsEdits | src/screens/ProfileScreen.tsx:104-130 | editing then pressing the header again restores the saved data |
| Profile.SaveKeepsOtherFields | src/screens/ProfileScreen.tsx:72-102 | saving after edits and a pick keeps the picked image and the country code |
| Store.NewUser | src/java/entity/User.java:21-29 | a new user carries the given fields and starts ONLINE |
| Store.NewChat | src/java/entity/Chat.java:12-17 | the chat constructor drops its status argument, so the chat is SENT, with the given endpoints, text and files |
| Store.ChatConstructorIgnoresStatus | src/java/entity/Chat.java:12-17 | constructing with READ gives the same chat as with SENT |
| Store.NewFriendship | src/java/entity/FriendList.java:34 | a new friendship is ACTIVE |
| Store.FreshId | src/java/entity/Chat.java:18-21 | a generated key is positive and larger than every existing key |
| Store.SameKeysKeepValid | src/java/entity/User.java:45 | changing non-key user columns keeps the store valid |
| Store.FindUser | src/java/socket/UserService.java:153-162 | lookup by id finds the row with that id, none iff no row has it |
| Store.FindUserUnique | src/java/entity/User.java:21-29 | in a valid store, lookup returns the only row with that key |
| Store.WireUserOf | src/java/socket/UserService.java:298-307 | a user's JSON form copies its fields and status name |
| Store.ChatJson | src/java/socket/ChatService.java:284-289 | a chat's JSON form expands both endpoints from the user table |
| Store.Count | src/java/socket/UserService.java:350-358 | a row count is zero iff no row matches and full iff all match |
| Store.CountAppendOne | src/java/socket/UserService.java:365-375 | appending a row adds one to the count iff the row matches |
| ChatService.Register | src/java/socket/ChatService.java:34-37 | registering maps the id to the new session, replacing any previous one; other ids are unchanged |
| ChatService.Unregister | src/java/socket/ChatService.java:39-42 | unregistering removes only that id |
| ChatService.SendToUser | src/java/socket/ChatService.java:44-57 | a frame is delivered iff the id is registered with an open session, and then only to that session |
| ChatService.LatestRegistrationReceives | src/java/socket/ChatService.java:34-57 | after two registrations only the latest session receives; after unregistering nobody does |
| ChatService.Other | src/java/socket/ChatService.java:125-149 | the other party of a chat is the unique partner it links the user with |
| ChatService.Partners | src/java/socket/ChatService.java:125-149 | partners are exactly the users with a chat to or from the user, each once |
| ChatService.LatestChat | src/java/socket/ChatService.java:154-175 | none iff no chat links the pair; otherwise a chat between them with maximal update time |
| ChatService.UnreadCount | src/java/socket/ChatService.java:180-199 | counts chats partner → user not READ; zero iff none, DELIVERED included |
| ChatService.PartnerImage | src/java/socket/ChatService.java:87 | the summary image is the server's image folder, a segment that `Integer.parseInt` reads back as the partner's id, then "/profile1.png" |
| ChatService.SummaryFor | src/java/socket/ChatService.java:74-100 | a summary exists iff the pair has a chat and the partner exists, and describes that partner |
| ChatService.SummariesOf | src/java/socket/ChatService.java:74-100 | the summaries list one row per partner that has one, no more |
| ChatService.FriendChats | src/java/socket/ChatService.java:63-100 | the chat list has exactly one summary for each partner with a latest chat and a user record |
| ChatService.MarkRead | src/java/socket/ChatService.java:259-266 | only a SENT chat from the partner to the reader becomes READ |
| ChatService.ChatsBetween | src/java/socket/ChatService.java:243-255 | the history holds exactly the chats between the pair, in both directions |
| ChatService.ReadHistory | src/java/socket/ChatService.java:239-282 | the history is sorted by creation time and holds exactly the pair's chats; SENT chats to the reader become READ, nothing else changes |
| ChatService.HistoryReadLeavesOnlyDelivered | src/java/socket/ChatService.java:259-266 | after reading, no chat from the partner to the reader is SENT |
| ChatService.HistoryReadIdempotent | src/java/socket/ChatService.java:239-282 | reading the history twice equals reading it once |
| ChatService.HistoryReadKeepsValid | src/java/socket/ChatService.java:259-266 | reading keeps the store valid |
| ChatService.HistoryJson | src/java/socket/ChatService.java:284-289 | each history row becomes its chat JSON, in order |
| ChatService.SavedChat | src/java/socket/ChatService.java:321-330 | the stored chat is SENT from user to friend, with the message and a fresh id |
| ChatService.FriendsAfterChat | src/java/socket/ChatService.java:301-314 | a user → friend friendship is added only if absent; the reverse edge never is |
| ChatService.Announce | src/java/socket/ChatService.java:340-345 | two frames per reachable user, only to open sessions: the message to the first user first, and each user's list only to that user |
| ChatService.SaveNewChat | src/java/socket/ChatService.java:291-345 | with both users present, the chat is stored and announced to both; otherwise nothing changes |
| ChatService.DeliverChat | src/java/socket/ChatService.java:201-230 | the chat is appended after all existing ones, users and friendships unchanged, store valid |
| ChatService.NewestIsLatest | src/java/socket/ChatService.java:154-175 | a chat updated last becomes the pair's latest chat |
| ChatService.NewChatTopsBothLists | src/java/socket/ChatService.java:291-345 | after saving a chat, it is the latest chat of the pair |
| UserService.SetStatus | src/java/socket/UserService.java:50-51 | setting a status keeps every row's key |
| UserService.FindAfterSetStatus | src/java/socket/UserService.java:41-72 | after setting a status, only that user's status and update time differ; other users and unknown ids are unchanged |
| UserService.UpdateUserStatus | src/java/socket/UserService.java:41-72 | only an existing user's status and update time change; an unknown id changes nothing |
| UserService.UpdateUserStatusKeepsValid | src/java/socket/UserService.java:41-72 | a status change keeps the store valid |
| UserService.LogIn | src/java/socket/UserService.java:25-28 | login makes an existing user ONLINE and changes nothing else |
| UserService.LogOut | src/java/socket/UserService.java:30-33 | logout makes an existing user OFFLINE and changes nothing else |
| UserService.MarkDelivered | src/java/socket/UserService.java:113-114 | a receipt sets the status to DELIVERED and the update time to now, and nothing else |
| UserService.DeliverFrom | src/java/socket/UserService.java:100-117 | one friend's SENT chats to the user become DELIVERED, every other chat stays, positions kept |
| UserService.DeliverAll | src/java/socket/UserService.java:94-123 | the loop over friendships keeps the number of chats and each chat's id and message |
| UserService.DeliverAllMeaning | src/java/socket/UserService.java:86-117 | a chat becomes DELIVERED iff it is SENT to the user from an ACTIVE friend |
| UserService.UpdateFriendChatStatus | src/java/socket/UserService.java:78-139 | only while the user is ONLINE, SENT chats to them from ACTIVE friends become DELIVERED; nothing else changes |
| UserService.DeliveryKeepsUnreadCounts | src/java/socket/UserService.java:86-117 | delivery receipts leave every unread count unchanged |
| UserService.DeliveryIdempotent | src/java/socket/UserService.java:86-117 | a second receipt pass changes nothing |
| UserService.OfflineUserGetsNoReceipts | src/java/socket/UserService.java:86-90 | an offline user's chats are left as they are |
| UserService.GetFriendData | src/java/socket/UserService.java:147-182 | a `friend_data` envelope with the user's JSON, or a null payload iff the user is missing (the JSON writer then omits the key) |
| UserService.RequesterImage | src/java/socket/UserService.java:304 | the requester's image URL if the image exists, else empty |
| UserService.Dtos | src/java/socket/UserService.java:283-318 | one entry per stored user in query order; the lookup fails iff a friendship pair is duplicated |
| UserService.GetAllUsers | src/java/socket/UserService.java:276-328 | a `get_all_users` envelope with one entry per stored user, requester included, in query order |
| UserService.DirectoryListsRequesterWithOneImage | src/java/socket/UserService.java:283-318 | the requester is listed, and every entry carries the requester's image URL |
| UserService.FirstWithContact | src/java/socket/UserService.java:342-347 | the matched user has the contact number |
| UserService.StoredDisplayName | src/java/socket/UserService.java:371 | the stored display name is the given one, or "null" when absent |
| UserService.SaveNewContact | src/java/socket/UserService.java:330-405 | unknown number, already a friend, missing current user, else one friendship added; the status is true iff the store changed |
| UserService.SecondAddIsAlreadyFriend | src/java/socket/UserService.java:350-358 | adding the same contact twice answers "already your friend" and saves nothing |
| UserService.CountryCodeIgnored | src/java/socket/UserService.java:342-344 | the contact's country code never changes the outcome, because the lookup uses only the number |
| ChatEndPoint.QueryUser | src/java/socket/ChatEndPoint.java:34-36 | a connection is accepted iff the query starts with "userId=" and the rest parses as an int |
| ChatEndPoint.ClientQueryReadsBack | src/java/socket/ChatEndPoint.java:34-36 | the query the client builds for id n maps to exactly n |
| ChatEndPoint.OnOpen | src/java/socket/ChatEndPoint.java:28-69 | a rejected open closes the session; an accepted one maps, registers, marks ONLINE and sends one `friend_list` |
| ChatEndPoint.OnClose | src/java/socket/ChatEndPoint.java:71-85 | close always drops the mapping; it unregisters and marks OFFLINE only for an id > 0 |
| ChatEndPoint.OnError | src/java/socket/ChatEndPoint.java:87-102 | for a session mapped to a positive id, an error removes the session mapping, marks the user OFFLINE and unregisters it; any other session leaves the server unchanged; nothing is sent |
| ChatEndPoint.NumberIntValue | src/java/socket/ChatEndPoint.java:296 | a number's `intValue` truncates toward zero and saturates at the 32-bit bounds |
| ChatEndPoint.GetIntValue | src/java/socket/ChatEndPoint.java:294-306 | numbers are truncated, numeric strings parsed, anything else rejected |
| ChatEndPoint.ClientIdsReadBack | src/java/socket/ChatEndPoint.java:294-306 | an id sent as a number or as its decimal string reads back unchanged |
| ChatEndPoint.MessageText | src/java/socket/ChatEndPoint.java:268 | null gives "null", strings are kept, booleans become "true"/"false" |
| ChatEndPoint.Dispatch | src/java/socket/ChatEndPoint.java:122-163 | each handled tag selects its own handler; every other tag is unknown |
| ChatEndPoint.ClientRequestsReachTheirHandlers | src/java/socket/ChatEndPoint.java:122-163 | every request the client sends reaches a handler |
| ChatEndPoint.ImageRequestIsUnhandled | src/java/socket/ChatEndPoint.java:150-163 | `get_user_image` falls through to the unknown-type branch |
| ChatEndPoint.HandleSendChat | src/java/socket/ChatEndPoint.java:206-232 | a chat between existing users from the frame's ids is stored and delivered; otherwise nothing changes |
| ChatEndPoint.HandleSingleChat | src/java/socket/ChatEndPoint.java:247-263 | a missing friend id does nothing; otherwise the history is read and sent to the requester |
| ChatEndPoint.SaveNewChatRouted | src/java/socket/ChatService.java:336-345 | every frame `saveNewChat` sends goes to a registered open session |
| ChatEndPoint.SingleChatRouted | src/java/socket/ChatEndPoint.java:247-263 | the history reply goes only to a registered open session |
| ChatEndPoint.HandleSendMessage | src/java/socket/ChatEndPoint.java:265-277 | a message to an existing recipient is saved as a new chat and announced |
| ChatEndPoint.ContactOf | src/java/socket/ChatEndPoint.java:189-193 | the contact is read from the frame's `user` object |
| ChatEndPoint.Reply | src/java/socket/ChatEndPoint.java:171-204 | single-reply handlers answer the sender at most once; profile and unknown requests send nothing; a ping answers PONG |
| ChatEndPoint.OnMessage | src/java/socket/ChatEndPoint.java:104-169 | unmapped sessions and frames without a string type are ignored; every delivery goes to a registered open session |
| ChatEndPoint.ClaimedUserIdIgnored | src/java/socket/ChatEndPoint.java:106-120 | the frame's own `userId` never changes the outcome; the session's id is used |
| ChatEndPoint.SendChatActsForAnySender | src/java/socket/ChatEndPoint.java:206-232 | a session may store a chat in any other user's name |
| ChatEndPoint.PingAnsweredOnSameSession | src/java/socket/ChatEndPoint.java:181-187 | after a valid open, a ping gets exactly one PONG on that session |
| ChatEndPoint.StaleCloseSilencesNewSession | src/java/socket/ChatEndPoint.java:71-85 | closing an old session of a reconnected user unregisters the new session too |
| ChatEndPoint.NonPositiveIdOutlivesClose | src/java/socket/ChatEndPoint.java:74-79 | an id ≤ 0 accepted at open stays registered after close |
| Controllers.ImageUrl | src/java/controller/UserController.java:110-111 | the image URL is the base followed by "/profile-images/{id}/profile1.png" |
| Controllers.GetUser | src/java/controller/UserController.java:28-150 | no path or "/" is "User ID is required"; blank and non-numeric ids get their messages; success returns the user |
| Controllers.ParseWithLeadingZeros | src/java/controller/UserController.java:62 | a digit text with a leading zero parses like the text without it, and is never the decimal form of the id it parses to |
| Controllers.SevenWithZeros | src/java/controller/UserController.java:62 | "007" parses as 7 but differs from "7" |
| Controllers.LeadingZerosNameAnotherFolder | src/java/controller/UserController.java:102-111 | the image folder is checked under the raw id text: for every id text with a leading zero, the user is found but a picture stored under the plain id is not |
| Controllers.MissingField | src/java/controller/UserController.java:176-185 | first name, last name, country code, number, then image are checked in that order |
| Controllers.Insert | src/java/controller/UserController.java:203-211 | a registration appends one ONLINE user with a fresh positive id and keeps the store valid |
| Controllers.Register | src/java/controller/UserController.java:153-345 | the cascade, then the duplicate-number check; success stores the user and returns its id; any failure stores nothing |
| Controllers.RegisterKeepsValid | src/java/controller/UserController.java:203-211 | a user with a fresh positive key keeps the store valid |
| Controllers.RegisterKeepsContactsUnique | src/java/controller/UserController.java:191-198 | registration never creates two users with the same code and number |
| Controllers.InsertKeepsContactsUnique | src/java/controller/UserController.java:191-211 | inserting a number no user holds keeps contact numbers unique |
| Controllers.GetUserByIdText | src/java/controller/UserController.java:60-81 | a GET for a stored user's decimal id returns that user |
| Controllers.InsertReadsBack | src/java/controller/UserController.java:203-302 | the user just inserted is returned by a GET for its id |
| Controllers.RegisteredUserReadsBack | src/java/controller/UserController.java:277-302 | a successful registration's returned id reads back the same user |
| Controllers.SecondRegistrationRefused | src/java/controller/UserController.java:191-198 | registering the same number twice is refused and stores nothing |
| Controllers.UploadImage | src/java/controller/ProfileController.java:27-152 | missing id, missing image, bad id format and unknown user fail in that order; otherwise the URL is returned and echoed |
| Controllers.UploadThenGetUser | src/java/controller/ProfileController.java:93-110 | once the upload's folder (named by the id text) holds the picture, a GET under the same text returns the same user with the URL the upload returned |
| Controllers.ProfileGet | src/java/controller/ProfileController.java:154-167 | GET always fails with the fixed message |

## Left out

- Strings.JsParseInt: results are exact integers, where JavaScript rounds to a double from 2^53 up; the read-back lemmas are stated only up to `Number.MAX_SAFE_INTEGER`. Ids come from a 32-bit column, far below that bound. `${userId}` in the socket URL likewise switches to exponent form from 10^21, which `Connection.SocketUrl` does not model.
- Connection.ProviderIdOf: text that `parseInt` rejects gives the provider NaN. The model uses 0, because `userId && userId > 0` gates NaN exactly like 0. The NaN that the home screen displays is not modelled.
- Rendering, styling, navigation stacks, animation and theming are left out. They have no stateable logic.
- `SignInScreen`, `authProvider` and `themeProvider` are left out. The stored identity is an input, converted as `App.tsx` does.
- `useChat` and `useUserProfile` are left out. The first never fires its listener and the second returns nothing.
- The HTTP client module, `dateFormatter`, JSON parsing and the WebSocket transport are left out. Frames are modelled already decoded, as field maps.
- React effect scheduling is left out. Each hook is a reducer plus explicit mount, rerun and unmount steps.
- `ProfileService` performs an HTTP HEAD request and a file write, so it is left out. Whether the image exists is a boolean parameter (`imageFound`, `imageFolders`).
- Saving the uploaded image file and the servlet's file-system paths are left out.
- Hibernate sessions, transactions and rollback are left out, and so is `ConcurrentHashMap` thread-safety. The server is modelled as one request at a time.
- The in-session ACTIVE mutation inside `getAllUsers` is left out. It is only visible through Hibernate's session cache.
- `getMyProfileData` is not part of this model. The `use_user_profile` route therefore sends nothing.
- `updateFriendChatStatus` has no caller in the endpoint, so the model provides it only as a standalone operation.
- Timestamps are opaque integers, and the server's date formatting is left out.
- Partner order follows the first appearance of a chat, where the source iterates a `HashSet`. Ties between equal update times in the latest-chat query may pick a different chat from the database.
- Lower-casing covers ASCII letters only.
- ChatEndPoint.MessageText: a number's text is modelled only for whole numbers below 10^7 in magnitude, which print plainly. Other numbers and nested objects give no text, and the message is then ignored.
- ChatEndPoint.HandleSendChat: a missing or null message is stored and delivered with no text, because the cast yields a null string; the model ignores such a frame instead, since chat messages are modelled as strings. A message of any other non-string type makes the cast throw and is ignored, as modelled.
- ChatService.DeliverChat: the chat constructor sets no timestamps, and the base entity that may set them is not part of this model. The model stamps the new chat's creation and update times with `now`, and its place in the latest-chat and history orderings follows from that.
- Store.NewChat: the constructor's timestamps are taken to be the time of the call, `now`, as for ChatService.DeliverChat.
- Strings.JavaParseInt: `Integer.parseInt` also accepts non-ASCII Unicode decimal digits; the model accepts ASCII digits only.
- ContactForms.CapLength: JavaScript's `slice` counts UTF-16 code units, and the model counts characters. The two differ only for characters outside the Basic Multilingual Plane.
- ContactForms.HandlePhoneChange: the length test counts characters, not UTF-16 code units, as for ContactForms.CapLength.
- ContactForms.Hint: the remaining-digit count uses the character count, not the UTF-16 length, as for ContactForms.CapLength.
- Controllers.Register: exception texts are modelled only by their "Error: " prefix.
- Controllers.Insert: generated ids are unbounded. The 32-bit overflow of the auto-increment column is left out.
- The source's unreachable branches for a null saved user and a non-positive generated id are left out.
