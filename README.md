# shareMemo in Dafny

A model of the shareMemo iOS app. In the app, two users who are friends each
keep one shared memo in Cloud Firestore and edit it together.

The model covers the following parts of the app:

- **The Firestore store.** The model holds the user documents, each user's
  `friends` sub-collection and the `memos` collection. Its queries are
  `getUser`, `getFriends`, `getAllMemos`, `getMemosIncludingAnyOfUserUids` and
  `getLatestMemosForCurrentUser`. Its writes are `saveUser`, `deleteUser`,
  `createFriend`, `createFriendToBothUsers`, `saveMemo` and `createMemo`.
  - Listener registration and removal are modelled, including the listener
    that a second registration orphans.
  - The Firestore and Auth error-to-alert tables are modelled.
- **The `MemoService` façade.** It routes every failure to an
  `errorDidOccur(error, managerType)` report. It checks friendships, writes
  both friend edges, gates memo creation on "no shared memo yet", and finds
  the shared memo. `saveMemo` is debounced by 1.5 seconds.
- **The screens.** Each screen that drives the service is modelled:
  - the memo detail editing session;
  - the friend list, with its fail-fast parallel hydration;
  - the memo list, where pairs are appended as fetches finish;
  - memo creation;
  - user search and add-friend;
  - sign-up (image upload, then the auth account, then the user document);
  - sign-in;
  - password reset;
  - account deletion (re-authentication, then the auth account, then the user
    document).
- **The screens' rules.** The model includes the enable rules of the buttons
  and the character and length filters of the text fields.

Modelling choices:

- **Stored state.** The store is a class with maps and collections that its
  methods reassign. Each screen is a class holding its own fields, and the
  `MemoService` it talks to.
- **What the SDK reports.** Whatever the Firebase SDK would report comes in as
  a parameter: a possible error, the uid an account gets, an upload result,
  or the fresh document id `document()` picks.
- **Time.** Time is an integer count of milliseconds.
- **Completion callbacks.** A completion handler becomes a returned
  `Reply<T>`: `Completed(value)` when the completion runs with success,
  `Reported(report)` when the service calls `errorDidOccur` instead, and
  `Silent` when nothing is called back at all.
  - `getFriends` can call its completion several times. It is modelled as the
    whole sequence of its calls.
- **Task groups.** A task group is modelled by the order in which its child
  tasks finish.
- **The debounce timer.** The timer is a pending-save slot. An edit first
  fires a timer whose time has already come, which saves at its due time. The
  edit then re-arms the timer, so each edit is one step of `Replay`.
  `FireDebounceTimer` fires the timer when no edit follows.
- **Listener registrations.** Each registration has its own identity, and a
  screen's snapshots arrive only while its own registration is live.

## Model

| member | source | states |
|---|---|---|
| AlertValues.SentEmailAddress | shareMemo/Values/AlertValues.swift:37-38 | an address read back from a message, followed by the fixed "mail sent" suffix, is that message |
| AlertValues.FoundUsername | shareMemo/Values/AlertValues.swift:49-50 | a user name read back from a message, followed by the fixed "user found" suffix, is that message |
| AlertValues.SentEmailMessageRoundTrip | shareMemo/Values/AlertValues.swift:37-38 | the `sentEmail(e)` message ends with the suffix and gives back exactly `e` |
| AlertValues.UserFoundMessageRoundTrip | shareMemo/Values/AlertValues.swift:49-50 | the `userFound(n)` message ends with the suffix and gives back exactly `n` |
| AlertValues.MessageInjective | shareMemo/Values/AlertValues.swift:35-67 | two `AppError` values with the same message are equal: an alert text identifies its error |
| AlertValues.FixedMessageHasNoSuffix | shareMemo/Values/AlertValues.swift:39-66 | no message of a case without an argument ends with either parameterised suffix |
| AlertValues.LastCharactersDiffer | shareMemo/Values/AlertValues.swift:37-50 | a `sentEmail` message never equals a `userFound` message, whatever their arguments |
| AlertValues.ParameterisedMessagesDiffer | shareMemo/Values/AlertValues.swift:35-67 | equal messages where one side is parameterised come from the same case and argument |
| Models.DecodeUser | shareMemo/Models/User.swift:11-13 | a decoded user never carries a friend, and re-encoding it gives back the coded fields |
| Models.UserRoundTrip | shareMemo/Models/User.swift:3-13 | encoding then decoding returns the user exactly when it has no friend; in every case it returns the user with the friend dropped |
| InputRules.LengthCheckIsExact | shareMemo/MemoList/MemoListViewController.swift:192-195 | `currentLength - range.length + string.count <= max` holds exactly when the edited text has at most `max` characters |
| InputRules.AcceptedReplacementKeepsClass | shareMemo/SignIn/SignInViewController.swift:113-123 | if a field holds only class characters and the filter accepts the replacement, the edited field still holds only class characters |
| InputRules.ForeignCharacterRefused | shareMemo/SearchUser/SearchUserViewController.swift:128-135 | a replacement holding any character outside the class is refused |
| InputRules.MemoNameEditAccepted | shareMemo/MemoList/MemoListViewController.swift:190-196 | an edit is accepted exactly when the edited name has at most 15 characters; the create-memo sheet applies the same rule (CreateMemo/CreateMemoViewController.swift:92-99) |
| InputRules.CredentialEditAccepted | shareMemo/SignIn/SignInViewController.swift:113-123 | deletion always; otherwise accepted exactly when every character is in `[a-zA-Z0-9@._-]`; the password-reset (88-98), account-deletion (115-125) and sign-up e-mail and password filters are the same |
| FirebaseAuthManager.CreateUser | shareMemo/Managers/FirebaseAuthManager.swift:8-17 | an SDK error fails; an account gives a user with that uid and e-mail, an empty name and URL, and no friend; with neither, the completion never runs |
| FirebaseAuthManager.CallOutcome | shareMemo/Managers/FirebaseAuthManager.swift:40-49 | success exactly when the SDK reports no error; a failure carries that error |
| FirebaseAuthManager.CurrentUserCallOutcome | shareMemo/Managers/FirebaseAuthManager.swift:19-38 | without a signed-in user no completion runs; otherwise success exactly when there is no error |
| FirebaseAuthManager.AuthAlert | shareMemo/Managers/FirebaseAuthManager.swift:71-99 | the six recognised codes show their own message, and all but `userMismatch` are input errors; anything else gets "confirmation" with `someError` |
| FirebaseAuthManager.AuthAlertDistinguishesCodes | shareMemo/Managers/FirebaseAuthManager.swift:71-99 | two recognised auth codes with the same alert are the same code |
| DocCollection.DecodedMember | shareMemo/Managers/FirestoreManager.swift:101-112 | a friend is in the decoded list exactly when one of the documents decodes to it |
| DocCollection.DecodedLength | shareMemo/Managers/FirestoreManager.swift:101-112 | every friend document either decodes or counts as one failure |
| MemoQueries.WhereMember | shareMemo/Managers/FirestoreManager.swift:177 | a snapshot survives a `whereField` filter exactly when it is listed and its memo matches |
| MemoQueries.WhereAppend | shareMemo/Managers/FirestoreManager.swift:177 | filtering keeps listing order: it distributes over concatenation |
| MemoQueries.Tagged | shareMemo/Managers/FirestoreManager.swift:161-163 | a read memo carries its document id and otherwise the stored fields |
| MemoQueries.WithIds | shareMemo/Managers/FirestoreManager.swift:158-169 | one memo per snapshot, in order, the i-th tagged with the i-th document id |
| MemoQueries.InsertByLatestPermutes | shareMemo/Managers/FirestoreManager.swift:204 | inserting into the ordered result adds exactly that memo |
| MemoQueries.InsertByLatestBounded | shareMemo/Managers/FirestoreManager.swift:204 | insertion keeps every timestamp under a common bound |
| MemoQueries.InsertByLatestSorts | shareMemo/Managers/FirestoreManager.swift:204 | insertion into an ordered list keeps it ordered by `latestUpdate`, newest first |
| MemoQueries.NewestFirstSortsAndPermutes | shareMemo/Managers/FirestoreManager.swift:204 | `order(by: latestUpdate, descending: true)` returns a permutation of its input, newest first |
| MemoQueries.LatestMemosAreTheMembersNewestFirst | shareMemo/Managers/FirestoreManager.swift:200-225 | the latest-memos query lists exactly the memos including `uid`, newest first |
| MemoQueries.AnyOfMemosShareAMember | shareMemo/Managers/FirestoreManager.swift:175-197 | the any-of query lists exactly the memos sharing a member with `uids` |
| FirestoreManager.WithEdge | shareMemo/Managers/FirestoreManager.swift:129-147 | writing an edge makes it present, replaces only that document and keeps every other owner's edges and the listing invariant |
| FirestoreManager.WithEdgeIdempotent | shareMemo/Managers/FirestoreManager.swift:134-137 | writing the same edge twice equals writing it once |
| FirestoreManager.BothEdgesAfterTwoWrites | shareMemo/Managers/FirestoreManager.swift:118-127 | the two writes make the friendship symmetric and leave other owners alone |
| FirestoreManager.FirestoreAlert | shareMemo/Managers/FirestoreManager.swift:299-314 | `alreadyExists` and `notFound` get their own title and message; anything else is "confirmation" with `someError` |
| FirestoreManager.DocumentStore.GetUser | shareMemo/Managers/FirestoreManager.swift:43-62 | success exactly for an existing decodable document without an SDK error; the user carries the document id and no friend; missing documents fail with `notFound`, undecodable ones with a decoding error |
| FirestoreManager.DocumentStore.SaveUser | shareMemo/Managers/FirestoreManager.swift:65-83 | no uid fails with `someError`; otherwise the coded fields are written at the uid and read back as the same user |
| FirestoreManager.DocumentStore.DeleteUser | shareMemo/Managers/FirestoreManager.swift:85-93 | removes only the user document, after which reading it fails with `notFound`; the friend edges stay |
| FirestoreManager.DocumentStore.GetFriends | shareMemo/Managers/FirestoreManager.swift:95-115 | one failure call per undecodable edge, then one success with the decoded friends |
| FirestoreManager.DocumentStore.CreateFriend | shareMemo/Managers/FirestoreManager.swift:129-147 | either uid missing fails with `notFound`; otherwise exactly the edge `toUser -> friend` is written |
| FirestoreManager.DocumentStore.CreateFriendToBothUsers | shareMemo/Managers/FirestoreManager.swift:118-127 | the reverse edge is written only after the first succeeds; full success leaves both edges |
| FirestoreManager.DocumentStore.CollectMemos | shareMemo/Managers/FirestoreManager.swift:158-169 | the loop collects exactly the snapshots' memos with their ids, in order |
| FirestoreManager.DocumentStore.GetAllMemos | shareMemo/Managers/FirestoreManager.swift:149-172 | every memo with its id, or the SDK's error |
| FirestoreManager.DocumentStore.GetMemosIncludingAnyOfUserUids | shareMemo/Managers/FirestoreManager.swift:175-197 | the memos matching `arrayContainsAny`, with ids, in listing order |
| FirestoreManager.DocumentStore.GetLatestMemosForCurrentUser | shareMemo/Managers/FirestoreManager.swift:200-225 | the memos including `uid`, with ids, ordered newest first |
| FirestoreManager.DocumentStore.SaveMemo | shareMemo/Managers/FirestoreManager.swift:227-240 | no id fails with `someError`; otherwise the document holds the same name and members, the new content and time, and reads back as the edited memo |
| FirestoreManager.DocumentStore.CreateMemo | shareMemo/Managers/FirestoreManager.swift:242-257 | without a signed-in user fails with `someError`; otherwise adds, at the fresh id, the memo of the two users with empty content, with no existence check |
| FirestoreManager.DocumentStore.StartListeningMemoUpdates | shareMemo/Managers/FirestoreManager.swift:9-27 | a new registration, live nowhere before, with its own identity, is held; one held before is orphaned, not removed, so it stays live |
| FirestoreManager.DocumentStore.StopListeningMemoUpdates | shareMemo/Managers/FirestoreManager.swift:30-33 | removes only the held registration, which is then no longer live; orphaned ones stay live |
| FirestoreManager.DocumentStore.MemoSnapshot | shareMemo/Managers/FirestoreManager.swift:10-24 | a listener delivers the memo with its id, the SDK's error, or a decoding error for a missing document |
| FirestoreManager.CreatedMemoIsShared | shareMemo/Managers/FirestoreManager.swift:242-257 | a created memo is among the results of the any-of query for its two members |
| FirestoreManager.WrittenEdgeIsListed | shareMemo/Managers/FirestoreManager.swift:129-147 | after an edge write, the owner's decoded friend list contains that friend |
| MemoService.Routed | shareMemo/Managers/MemoService.swift:37-42 | app errors are reported with manager `.none`, every other error with `.firestore` |
| MemoService.Forward | shareMemo/Managers/MemoService.swift:69-78 | success passes the value on; failure is reported with the given manager type |
| MemoService.ContainsFriend | shareMemo/Managers/MemoService.swift:112 | true exactly when some friend's uid equals the user's uid; a user without a uid is nobody's friend |
| MemoService.FilterMemosKeepsExactly | shareMemo/Managers/MemoService.swift:213-217 | a memo is kept exactly when it includes every given uid |
| MemoService.FilterMemosKeepsOrder | shareMemo/Managers/MemoService.swift:213-217 | filtering distributes over concatenation: relative order is kept |
| MemoService.FilterMemosIgnoresUidOrder | shareMemo/Managers/MemoService.swift:213-217 | only the set of uids matters, not their order |
| MemoService.FilterMemosOfTagged | shareMemo/Managers/MemoService.swift:213-217 | the filter commutes with tagging memos with their ids |
| MemoService.NarrowingAnyOfToEvery | shareMemo/Managers/MemoService.swift:240-245 | running the all-of filter after the any-of query equals the all-of filter over everything |
| MemoService.WhereFirst | shareMemo/Managers/MemoService.swift:243-244 | a filter result is non-empty exactly when some snapshot matches, and its head is the first match |
| MemoService.SharedMemoIsFirstIncludingBoth | shareMemo/Managers/MemoService.swift:240-245 | the shared memo exists exactly when some memo includes both users, and it is the first such memo in listing order |
| MemoService.NoneTypeTitle | shareMemo/Managers/MemoService.swift:359-369 | each title comes exactly from its cases (`selfAddNotAllowed`; `alreadyExists`; not-logged-in, not-found and download failure), everything else is "confirmation" |
| MemoService.GetErrorMessageAndTitle | shareMemo/Managers/MemoService.swift:346-376 | `.firestore` and `.auth` use their manager's table; `.none` shows an app error's own message, and `someError` for anything else |
| MemoService.RoutedAppErrorShowsItsMessage | shareMemo/Managers/MemoService.swift:37-42 | an app error routed by the service is shown with its own message |
| MemoService.AppErrorUnderFirestoreTypeIsGeneric | shareMemo/Managers/MemoService.swift:350-354 | an app error shown with `.firestore` gets the generic `someError` alert |
| MemoService.Armed | shareMemo/Managers/MemoService.swift:180-185 | arming the debounce keeps the memo and text and falls due 1500 ms later |
| MemoService.BurstLeavesOnlyLastPending | shareMemo/Managers/MemoService.swift:180-185 | edits each under 1.5 s apart fire nothing in between and leave only the last one pending |
| MemoService.BurstSavesOnlyTheLastEdit | shareMemo/Managers/MemoService.swift:180-185 | a burst of edits saves only the last text, once |
| MemoService.SeparatedEditsAreBothSaved | shareMemo/Managers/MemoService.swift:180-185 | two edits at least 1.5 s apart are both saved, in order |
| MemoService.ReplayOneEditAtATime | shareMemo/Managers/MemoService.swift:180-185 | replaying edits one call at a time gives the same saves and pending timer as replaying them all at once |
| MemoService.MemoService.GetUser | shareMemo/Managers/MemoService.swift:32-45 | completes exactly when the store read succeeds, with the document's uid; failures are routed reports |
| MemoService.MemoService.GetUserAsync | shareMemo/Managers/MemoService.swift:47-66 | returns the store's result, and reports exactly the failures, routed |
| MemoService.MemoService.SetUserData | shareMemo/Managers/MemoService.swift:69-78 | writes the coded user at its uid; every failure is a `.firestore` report and changes nothing |
| MemoService.MemoService.DeleteUserFromFirestore | shareMemo/Managers/MemoService.swift:80-82 | passes the store's result through: the document is removed, or nothing changes and nothing is reported |
| MemoService.MemoService.FetchAllFriends | shareMemo/Managers/MemoService.swift:84-97 | not signed in reports `userNotLogin`; otherwise one decoding report per undecodable edge, then the friend list becomes the decoded friends |
| MemoService.MemoService.CheckIfUserIsAlreadyFriend | shareMemo/Managers/MemoService.swift:104-118 | the last event says whether some decoded friend has the user's uid; one decoding report precedes it per undecodable edge |
| MemoService.MemoService.ValidateFriendRequest | shareMemo/Managers/MemoService.swift:120-144 | refuses without a user or for oneself; otherwise reads the current user and writes both edges, each failure a `.firestore` report |
| MemoService.MemoService.GetFriendUidIfNoMemoExists | shareMemo/Managers/MemoService.swift:147-163 | completes with the friend's uid exactly when no memo includes both users, and is silent otherwise |
| MemoService.MemoService.StartListeningMemoUpdates | shareMemo/Managers/MemoService.swift:165-174 | registers a fresh registration on the memo and returns it, orphaning the registration held before |
| MemoService.MemoService.ListenerReply | shareMemo/Managers/MemoService.swift:165-174 | completes exactly for an existing memo without an SDK error, carrying its id and content; failures are `.firestore` reports |
| MemoService.MemoService.StopListeningMemoUpdates | shareMemo/Managers/MemoService.swift:176-178 | the held registration is gone; nothing else changes |
| MemoService.MemoService.DebounceTextUpdate | shareMemo/Managers/MemoService.swift:180-185 | one step of `Replay`: a pending save already due has fired and saved at its due time, then the pending save becomes this memo and text, due 1.5 s later |
| MemoService.MemoService.FireDebounceTimer | shareMemo/Managers/MemoService.swift:182-184 | a due pending save is written through `saveMemo`; one not yet due changes nothing |
| MemoService.MemoService.CreateMemo | shareMemo/Managers/MemoService.swift:187-200 | without a user, a `.none` `someError` report; otherwise the store's created memo |
| MemoService.MemoService.SaveMemo | shareMemo/Managers/MemoService.swift:202-210 | silent on success; a memo without an id is a `.firestore` report |
| MemoService.MemoService.GetLatestMemos | shareMemo/Managers/MemoService.swift:220-233 | the memo list becomes the current user's memos, newest first; failures are reported and keep the old list |
| MemoService.MemoService.FetchSharedMemo | shareMemo/Managers/MemoService.swift:235-250 | completes with nil exactly when no memo includes both users, else with the first one that does |
| MemoService.NoSharedMemoWhenFilterEmpty | shareMemo/Managers/MemoService.swift:155-157 | filtering all memos for both uids is empty exactly when no memo includes both |
| MemoService.UploadImage | shareMemo/Managers/MemoService.swift:253-266 | the URL on success; a failure is routed, so `failedDownloadUrl` is a `.none` report |
| MemoService.AuthReply | shareMemo/Managers/MemoService.swift:279-344 | silent exactly when the auth manager never completes; success passes through, and a failure is an `.auth` report |
| MemoDetail.MemoDetailSession.Open | shareMemo/MemoDetail/MemoDetailViewController.swift:9-15 | listens exactly when the memo has an id, with a registration of its own that was live nowhere before; the text starts as the memo's content |
| MemoDetail.MemoDetailSession.DeliverSnapshot | shareMemo/MemoDetail/MemoDetailViewController.swift:28-41 | only while this screen's own registration is live, a snapshot overwrites the text with the remote content; failures leave it |
| MemoDetail.MemoDetailSession.TextDidChange | shareMemo/MemoDetail/MemoDetailViewController.swift:43-46 | each edit is one step of `Replay` with the opened memo and the new text: an already-due save is written first, then the debounce is re-armed |
| MemoDetail.MemoDetailSession.ViewWillDisappear | shareMemo/MemoDetail/MemoDetailViewController.swift:22-26 | stops listening, so this screen's registration is no longer live unless it had been orphaned; then (`saveMemoIfNeeded`) saves once exactly when the text differs from the opened memo's content; the pending debounce stays |
| FriendList.FriendListScreen.GetFriendsDetails | shareMemo/FriendList/FriendListViewController.swift:77-99 | succeeds exactly when every fetch does, giving each friend's uid its fetched user and no other key; otherwise fails with the first failure in completion order |
| FriendList.FriendListScreen.FriendsDidChange | shareMemo/FriendList/FriendListViewController.swift:52-65 | the rows become the new list first; the details are replaced only when all fetches succeed, else they are kept and a `.firestore` alert is shown |
| FriendList.FriendListScreen.CellDetails | shareMemo/FriendList/FriendListViewController.swift:240-250 | a row within `friends` is configured exactly when its uid has details, with those details |
| FriendList.FriendListScreen.DidSelectRow | shareMemo/FriendList/FriendListViewController.swift:252-269 | opens the first memo shared with the row's friend, or the create-memo screen for that friend when there is none |
| FriendList.FriendListScreen.ShowMemoDetail | shareMemo/FriendList/FriendListViewController.swift:134-144 | pushes the detail screen whenever the fetch completes, with the first listed memo shared with the friend, or nil when none is |
| MemoList.Peer | shareMemo/MemoList/MemoListViewController.swift:54 | the first member different from the current uid, or none exactly when every member is the current uid |
| MemoList.FriendName | shareMemo/MemoList/MemoListViewController.swift:150-161 | the user name of the first stored pair with the row's memo id, or "" when no pair has it |
| MemoList.MemoListScreen.GetFriendsDetails | shareMemo/MemoList/MemoListViewController.swift:48-68 | nothing without a user or when some memo has no peer; else pairs are appended in completion order up to the first failure, which shows a `.firestore` alert; earlier pairs are never cleared |
| MemoList.MemoListScreen.CollectPairs | shareMemo/MemoList/MemoListViewController.swift:55-67 | one pair per finished child, in completion order, each the memo and its peer's fetched user, up to the first throwing child, whose error becomes a `.firestore` alert |
| MemoList.MemoListScreen.MemosDidChange | shareMemo/MemoList/MemoListViewController.swift:27-38 | the rows become the new memos, then the pairs are appended as above |
| CreateMemo.CreateMemoScreen.constructor | shareMemo/CreateMemo/CreateMemoViewController.swift:71-74 | the create button starts disabled |
| CreateMemo.CreateMemoScreen.EditingChanged | shareMemo/CreateMemo/CreateMemoViewController.swift:81-88 | the create button is enabled exactly when the name is not empty |
| CreateMemo.CreateMemoScreen.TappedCreate | shareMemo/CreateMemo/CreateMemoViewController.swift:29-53 | nothing without a friend; a memo is created only when none is shared yet, and then the sheet asks to show that friend's memo |
| CreateMemo.CreatedMemoBlocksAnotherCreation | shareMemo/CreateMemo/CreateMemoViewController.swift:32-35 | once created, a memo including both users is listed, so the gate refuses a second creation |
| SearchUser.ShouldChangeCharacters | shareMemo/SearchUser/SearchUserViewController.swift:126-136 | deletion always; otherwise accepted exactly when every character is in `[a-zA-Z0-9]` |
| SearchUser.AddFriendAlert | shareMemo/SearchUser/SearchUserViewController.swift:62-75 | the search-result alert whose message gives back the user's name |
| SearchUser.StepOf | shareMemo/SearchUser/SearchUserViewController.swift:43-53 | an already-friend answer raises `alreadyExists`; only a not-yet-friend answer offers the add-friend alert |
| SearchUser.SearchUserScreen.constructor | shareMemo/SearchUser/SearchUserViewController.swift:101-107 | the search button starts disabled |
| SearchUser.SearchUserScreen.EditingChanged | shareMemo/SearchUser/SearchUserViewController.swift:87-95 | the search button is enabled exactly when the field is not empty |
| SearchUser.SearchUserScreen.VerifyUser | shareMemo/SearchUser/SearchUserViewController.swift:27-59 | a failed read ends with its report; otherwise the last step refuses an existing friend with `alreadyExists` and offers anyone else |
| SearchUser.SearchUserScreen.AddFriend | shareMemo/SearchUser/SearchUserViewController.swift:77-85 | popped exactly when the friend request succeeds, and then each user holds the other as a friend; the friend map after every path, keeping the first edge when only the second write fails |
| SignUp.ShouldChangeCharacters | shareMemo/SignUp/SignUpViewController.swift:164-179 | deletion always; the user name at most 8 characters after the edit; e-mail and password only `[a-zA-Z0-9@._-]` characters |
| SignUp.SignUpScreen.constructor | shareMemo/SignUp/SignUpViewController.swift:120-125 | the register button starts disabled |
| SignUp.SignUpScreen.TextFieldDidChangeSelection | shareMemo/SignUp/SignUpViewController.swift:154-162 | enabled exactly when e-mail and user name are filled and the password has at least 6 characters |
| SignUp.SignUpScreen.TappedRegister | shareMemo/SignUp/SignUpViewController.swift:40-83 | upload, then account, then document, each only after the previous succeeded; once the account exists it is signed in; the saved user has the typed name and the uploaded or default URL |
| SignIn.SignInScreen.constructor | shareMemo/SignIn/SignInViewController.swift:87-92 | the login button starts disabled |
| SignIn.SignInScreen.EditingChanged | shareMemo/SignIn/SignInViewController.swift:99-108 | enabled exactly when the e-mail is filled and the password has at least 6 characters |
| SignIn.SignInScreen.SignIn | shareMemo/SignIn/SignInViewController.swift:39-48 | the tab bar is shown exactly on success; a failure is an `.auth` report and changes nothing |
| ResetPassword.SendPasswordReset | shareMemo/ResetPassword/ResetPasswordViewController.swift:30-53 | the alert appears exactly on success, titled "mail sent", and its message gives back the address |
| ResetPassword.ResetPasswordScreen.constructor | shareMemo/ResetPassword/ResetPasswordViewController.swift:65-69 | the send button starts disabled |
| ResetPassword.ResetPasswordScreen.EditingChanged | shareMemo/ResetPassword/ResetPasswordViewController.swift:55-62 | enabled exactly when the e-mail field is not empty |
| DeleteUser.DeleteUserScreen.constructor | shareMemo/DeleteUser/DeleteUserViewController.swift:75-79 | the delete button starts disabled |
| DeleteUser.DeleteUserScreen.EditingChanged | shareMemo/DeleteUser/DeleteUserViewController.swift:98-110 | enabled exactly when the e-mail is filled and the password has at least 6 characters |
| DeleteUser.DeleteUserScreen.Reauthenticate | shareMemo/DeleteUser/DeleteUserViewController.swift:50-66 | the delete confirmation is offered exactly when a signed-in user re-authenticates successfully |
| DeleteUser.DeleteUserScreen.ConfirmDelete | shareMemo/DeleteUser/DeleteUserViewController.swift:28-48 | the uid is read first; its document is deleted only after the auth account is; sign-up is shown only when both succeed |

## Left out

- Firebase, Storage and the network are not simulated. What they answer is a
  parameter of each operation.
- Firestore lists query results by document id. The model lists documents in
  first-write order instead, because it has no string order. Ties of the
  `latestUpdate` ordering are broken by that listing order.
- Memo documents are assumed always decodable. Half-decoded memo queries, which
  call their completion once per failure, are not modelled. Friend edges and
  user documents can be undecodable.
- Encoder failures in `saveUser`, `createFriend`, `saveMemo` and `createMemo`
  are not modelled: the model's values always encode.
- `$` in the regular expressions is taken as the end of the input. ICU also
  matches it before a final line terminator, and that case is left out.
- Lengths are counted in characters. Swift counts grapheme clusters and
  `NSRange` counts UTF-16 units.
- Concurrency is modelled by completion orders only. A task group is one
  completion order; the debounce timer is a pending slot, fired at its due time
  by the next edit or by `FireDebounceTimer`.
- `[weak self]` and a deallocated screen or service are not modelled. Every
  callback finds its receiver.
- MemoList.MemoListScreen.GetFriendsDetails: the `errorDidOccur` report of each
  failing child fetch is not returned, only the alert of the group's error. The
  same holds for FriendList.FriendListScreen.GetFriendsDetails.
- MemoList.MemoListScreen.GetFriendsDetails: the pairs are written to `memoAndFriendInfo` once, when the group ends, not one by one. Nothing in the model reads them in between.
- MemoDetail.MemoDetailSession.Open: a text view with no memo is modelled as
  starting empty.
- The debounce is not cancelled when the memo screen closes. A pending save
  can still fire after the close-time save. This follows the code.
- The close-time save compares with the content the memo had when it was
  opened, not with the last text saved.
- `updateMemoName` (the rename swipe of the memo list) and `updateProfileImage`
  are not modelled. Neither belongs to the modelled core.
- The friend-name label of the create-memo sheet is not modelled.
- `jpegData` returning nil, which makes registration stop silently, is not
  modelled.
- `logout` is not modelled.
- Auth session changes are modelled only as the store's `currentUid`. Sign-in
  and sign-up set it (sign-up as soon as the account exists), and account
  deletion clears it.
- Models/Friend.swift is not part of this model. `Friend` is taken to be a
  record holding one uid.
- Which screen is visible when `errorDidOccur` fires, and the alert it then
  presents, is not modelled. A report is returned instead.
