/**
 * Managers/MemoService.swift: the layer between the screens and the two
 * managers. It keeps the fetched `friends` and `memos` (whose `didSet`
 * notifies the screens), the pending debounced save, and routes every failure
 * to `errorDidOccur` tagged with the manager that should explain it.
 *
 * What a call hands back to its caller is a `Reply`: a completion value, one
 * `errorDidOccur` report, or nothing at all.
 */
module MemoService {
  import opened Wrappers
  import opened AlertValues
  import opened Errors
  import opened Models
  import opened ResourceValues
  import opened DocCollection
  import opened MemoQueries
  import FirebaseAuthManager
  import opened FirestoreManager

  /** `ManagerType`: `.firestore`, `.auth`, `.none`. */
  datatype ManagerType = FirestoreType | AuthType | NoneType

  /** One `errorDidOccur(error, managerType)` call. */
  datatype Report = Report(error: Error, kind: ManagerType)

  datatype Reply<T> = Completed(value: T) | Reported(report: Report) | Silent

  /** The `as? AppError` routing: the app's own errors are explained without a manager. */
  function Routed(e: Error): (r: Report)
    ensures r.error == e
    ensures r.kind == NoneType <==> e.App?
    ensures r.kind == FirestoreType <==> !e.App?
  {
    if e.App? then Report(e, NoneType) else Report(e, FirestoreType)
  }

  /** A completion that is passed on on success and reported with `kind` on failure. */
  function Forward<T>(r: Result<T, Error>, kind: ManagerType): (reply: Reply<T>)
    ensures reply.Completed? <==> r.Success?
    ensures r.Success? ==> reply.value == r.value
    ensures r.Failure? ==> reply == Reported(Report(r.error, kind))
  {
    match r
    case Success(v) => Completed(v)
    case Failure(e) => Reported(Report(e, kind))
  }

  /** The report of a call made while nobody is signed in. */
  const NotSignedIn: Report := Report(App(UserNotLogin), NoneType)

  // ---------------------------------------------------------------------------
  // Pure decisions

  /** `friends.contains { $0.uid == user.uid }`; a user without a uid is nobody's friend. */
  function ContainsFriend(friends: seq<Friend>, uid: Option<string>): (r: bool)
    ensures r <==> exists i :: 0 <= i < |friends| && Some(friends[i].uid) == uid
  {
    if friends == [] then false
    else Some(friends[0].uid) == uid || ContainsFriend(friends[1..], uid)
  }

  /** `filterMemos(uids:from:)`: the memos whose members include every one of `uids`. */
  function FilterMemos(uids: seq<string>, memos: seq<Memo>): (r: seq<Memo>)
    ensures |r| <= |memos|
  {
    if memos == [] then []
    else
      var last := memos[|memos| - 1];
      FilterMemos(uids, memos[..|memos| - 1]) + (if Matches(last, ContainsEvery(uids)) then [last] else [])
  }

  /** `filterMemos` keeps exactly the memos that include every uid. */
  lemma {:induction false} FilterMemosKeepsExactly(uids: seq<string>, memos: seq<Memo>, m: Memo)
    ensures m in FilterMemos(uids, memos) <==> m in memos && forall u :: u in uids ==> u in m.members
  {
    if memos != [] {
      var init := memos[..|memos| - 1];
      FilterMemosKeepsExactly(uids, init, m);
      assert memos == init + [memos[|memos| - 1]];
    }
  }

  /** `filterMemos` keeps the input order: filtering distributes over concatenation. */
  lemma {:induction false} FilterMemosKeepsOrder(uids: seq<string>, a: seq<Memo>, b: seq<Memo>)
    ensures FilterMemos(uids, a + b) == FilterMemos(uids, a) + FilterMemos(uids, b)
  {
    if b == [] {
      assert a + b == a;
    } else {
      var init := b[..|b| - 1];
      FilterMemosKeepsOrder(uids, a, init);
      assert (a + b)[..|a + b| - 1] == a + init;
      assert (a + b)[|a + b| - 1] == b[|b| - 1];
    }
  }

  /** Only the set of requested uids matters, not their order or repetitions. */
  lemma {:induction false} FilterMemosIgnoresUidOrder(u1: seq<string>, u2: seq<string>, memos: seq<Memo>)
    requires forall u :: u in u1 <==> u in u2
    ensures FilterMemos(u1, memos) == FilterMemos(u2, memos)
  {
    if memos != [] {
      FilterMemosIgnoresUidOrder(u1, u2, memos[..|memos| - 1]);
      var m := memos[|memos| - 1];
      assert Matches(m, ContainsEvery(u1)) == Matches(m, ContainsEvery(u2));
    }
  }

  /** Filtering the memos of a query result is filtering its snapshots: ids do not change members. */
  lemma {:induction false} FilterMemosOfTagged(uids: seq<string>, s: seq<Snapshot>)
    ensures FilterMemos(uids, WithIds(s)) == WithIds(Where(s, ContainsEvery(uids)))
  {
    if s != [] {
      var init := s[..|s| - 1];
      FilterMemosOfTagged(uids, init);
      assert WithIds(s)[..|s| - 1] == WithIds(init);
      WhereAppendLast(s, ContainsEvery(uids));
      WithIdsAppend(Where(init, ContainsEvery(uids)), if Matches(s[|s| - 1].1, ContainsEvery(uids)) then [s[|s| - 1]] else []);
    }
  }

  lemma WhereAppendLast(s: seq<Snapshot>, f: MembersFilter)
    requires s != []
    ensures Where(s, f) == Where(s[..|s| - 1], f) + (if Matches(s[|s| - 1].1, f) then [s[|s| - 1]] else [])
  {
  }

  lemma WithIdsAppend(a: seq<Snapshot>, b: seq<Snapshot>)
    ensures WithIds(a + b) == WithIds(a) + WithIds(b)
  {
    assert forall i :: 0 <= i < |a + b| ==> WithIds(a + b)[i] == (WithIds(a) + WithIds(b))[i];
  }

  /**
   * A memo holding every one of `uids` (at least one) holds one of them, so
   * narrowing the `arrayContainsAny` result by `filterMemos` loses nothing.
   */
  lemma {:induction false} NarrowingAnyOfToEvery(s: seq<Snapshot>, uids: seq<string>)
    requires |uids| > 0
    ensures Where(Where(s, ArrayContainsAny(uids)), ContainsEvery(uids)) == Where(s, ContainsEvery(uids))
  {
    if s != [] {
      var init := s[..|s| - 1];
      var last := s[|s| - 1];
      NarrowingAnyOfToEvery(init, uids);
      var w := Where(init, ArrayContainsAny(uids));
      WhereAppendLast(s, ArrayContainsAny(uids));
      WhereAppendLast(s, ContainsEvery(uids));
      if Matches(last.1, ContainsEvery(uids)) {
        assert uids[0] in uids;
        assert Matches(last.1, ArrayContainsAny(uids));
      }
      if Matches(last.1, ArrayContainsAny(uids)) {
        WhereAppend(w, [last], ContainsEvery(uids));
        assert [last][..0] == [];
        assert Where([last], ContainsEvery(uids)) == if Matches(last.1, ContainsEvery(uids)) then [last] else [];
      } else {
        assert Where(s, ArrayContainsAny(uids)) == w;
      }
    }
  }

  /** The first snapshot of a filtered listing is the first listed one that matches. */
  lemma {:induction false} WhereFirst(s: seq<Snapshot>, f: MembersFilter)
    ensures Where(s, f) != [] <==> exists i :: 0 <= i < |s| && Matches(s[i].1, f)
    ensures Where(s, f) != [] ==>
      exists i :: 0 <= i < |s| && Where(s, f)[0] == s[i] && Matches(s[i].1, f) &&
        forall j :: 0 <= j < i ==> !Matches(s[j].1, f)
  {
    if s != [] {
      var init := s[..|s| - 1];
      WhereFirst(init, f);
      assert forall j :: 0 <= j < |init| ==> init[j] == s[j];
    }
  }

  /** Some listed memo document includes both users. */
  predicate SomeMemoIncludesBoth(s: seq<Snapshot>, cur: string, friendUid: string) {
    exists i :: 0 <= i < |s| && cur in s[i].1.members && friendUid in s[i].1.members
  }

  /** `filteredMemos.first` of `fetchSharedMemo`. */
  function SharedMemo(cur: string, friendUid: string, memos: seq<Memo>): Option<Memo> {
    var filtered := FilterMemos([cur, friendUid], memos);
    if filtered == [] then None else Some(filtered[0])
  }

  /**
   * On a listing of memo documents, `fetchSharedMemo`'s answer is the first
   * listed memo that includes both users, with its id; nil when none does.
   */
  lemma SharedMemoIsFirstIncludingBoth(s: seq<Snapshot>, cur: string, friendUid: string)
    ensures var r := SharedMemo(cur, friendUid, WithIds(Where(s, ArrayContainsAny([cur, friendUid]))));
      (r.Some? <==> exists i :: 0 <= i < |s| && cur in s[i].1.members && friendUid in s[i].1.members) &&
      (r.Some? ==>
        exists i :: (0 <= i < |s| && r.value == Tagged(s[i]) &&
          cur in s[i].1.members && friendUid in s[i].1.members &&
          forall j :: 0 <= j < i ==> !(cur in s[j].1.members && friendUid in s[j].1.members)))
  {
    var uids := [cur, friendUid];
    FilterMemosOfTagged(uids, Where(s, ArrayContainsAny(uids)));
    NarrowingAnyOfToEvery(s, uids);
    WhereFirst(s, ContainsEvery(uids));
    forall i | 0 <= i < |s|
      ensures Matches(s[i].1, ContainsEvery(uids)) <==> cur in s[i].1.members && friendUid in s[i].1.members
    {
    }
  }

  /** The title of an `AppError` explained without a manager (`.none`). */
  function NoneTypeTitle(a: AppError): (t: AlertTitle)
    ensures t == InputError <==> a == SelfAddNotAllowed
    ensures t == SearchResult <==> a == AlreadyExists
    ensures t == FetchDataError <==> a == UserNotLogin || a == NotFound || a == FailedDownloadUrl
    ensures t == Confirmation <==> !(a == SelfAddNotAllowed || a == AlreadyExists || a == UserNotLogin || a == NotFound || a == FailedDownloadUrl)
  {
    match a
    case UserNotLogin => FetchDataError
    case NotFound => FetchDataError
    case SelfAddNotAllowed => InputError
    case AlreadyExists => SearchResult
    case FailedDownloadUrl => FetchDataError
    case _ => Confirmation
  }

  /** `getErrorMessageAndTitle(error:managerType:)`. */
  function GetErrorMessageAndTitle(e: Error, kind: ManagerType): (a: Alert)
    ensures kind == FirestoreType ==> a == FirestoreAlert(e)
    ensures kind == AuthType ==> a == FirebaseAuthManager.AuthAlert(e)
    ensures kind == NoneType && e.App? ==> a == Alert(NoneTypeTitle(e.app), Message(e.app))
    ensures kind == NoneType && !e.App? ==> a == Alert(Confirmation, Message(SomeError))
  {
    match kind
    case FirestoreType => FirestoreAlert(e)
    case AuthType => FirebaseAuthManager.AuthAlert(e)
    case NoneType =>
      if e.App? then Alert(NoneTypeTitle(e.app), Message(e.app)) else Alert(Confirmation, Message(SomeError))
  }

  /** An error raised by the app itself and routed by `as? AppError` is shown with its own message. */
  lemma RoutedAppErrorShowsItsMessage(a: AppError)
    ensures GetErrorMessageAndTitle(Routed(App(a)).error, Routed(App(a)).kind).message == Message(a)
  {
  }

  /** An app error reported as a Firestore error loses its message: the Firestore mapping only knows codes. */
  lemma AppErrorUnderFirestoreTypeIsGeneric(a: AppError)
    ensures GetErrorMessageAndTitle(App(a), FirestoreType) == Alert(Confirmation, Message(SomeError))
  {
  }

  // ---------------------------------------------------------------------------
  // The debounce timer as a trace

  /** The scheduled one-shot timer: it will save `text` into `memo` at time `due`. */
  datatype PendingSave = PendingSave(memo: Memo, text: string, due: int)

  /** The timer `debounceTextUpdate` schedules at time `now`. */
  function Armed(memo: Memo, text: string, now: int): (p: PendingSave)
    ensures p.memo == memo && p.text == text && p.due - now == MemoTextUpdateIntervalMs
  {
    PendingSave(memo, text, now + MemoTextUpdateIntervalMs)
  }

  /** One call of `debounceTextUpdate(memo:text:)` at time `at`. */
  datatype Edit = Edit(memo: Memo, text: string, at: int)

  /**
   * Replays a sequence of edits against the timer: a pending timer whose time
   * has come by the next edit fires first; every edit then replaces the
   * pending timer. Yields the saves fired and the timer left pending.
   */
  function Replay(pending: Option<PendingSave>, edits: seq<Edit>): (seq<PendingSave>, Option<PendingSave>)
    decreases |edits|
  {
    if edits == [] then ([], pending)
    else
      var e := edits[0];
      var fired := if pending.Some? && pending.value.due <= e.at then [pending.value] else [];
      var rest := Replay(Some(Armed(e.memo, e.text, e.at)), edits[1..]);
      (fired + rest.0, rest.1)
  }

  /** All the saves of a sequence of edits, once the last timer has fired too. */
  function SavesOf(edits: seq<Edit>): seq<PendingSave> {
    var r := Replay(None, edits);
    r.0 + (if r.1.Some? then [r.1.value] else [])
  }

  /** Every edit comes less than the debounce interval after the one before it. */
  predicate IsBurst(edits: seq<Edit>) {
    forall k :: 0 < k < |edits| ==> edits[k - 1].at <= edits[k].at < edits[k - 1].at + MemoTextUpdateIntervalMs
  }

  lemma {:induction false} BurstLeavesOnlyLastPending(prev: Edit, edits: seq<Edit>)
    requires IsBurst([prev] + edits)
    ensures var last := ([prev] + edits)[|edits|];
      Replay(Some(Armed(prev.memo, prev.text, prev.at)), edits) == ([], Some(Armed(last.memo, last.text, last.at)))
    decreases |edits|
  {
    if edits != [] {
      assert ([prev] + edits)[0] == prev && ([prev] + edits)[1] == edits[0];
      assert edits[0].at < prev.at + MemoTextUpdateIntervalMs;
      assert [edits[0]] + edits[1..] == edits;
      assert IsBurst([edits[0]] + edits[1..]) by {
        forall k | 0 < k < |edits|
          ensures edits[k - 1].at <= edits[k].at < edits[k - 1].at + MemoTextUpdateIntervalMs
        {
          assert ([prev] + edits)[k] == edits[k - 1] && ([prev] + edits)[k + 1] == edits[k];
        }
      }
      BurstLeavesOnlyLastPending(edits[0], edits[1..]);
      assert ([edits[0]] + edits[1..])[|edits[1..]|] == ([prev] + edits)[|edits|];
      var empty: seq<PendingSave> := [];
      assert empty + empty == empty;
    }
  }

  /**
   * Of a burst of `debounceTextUpdate` calls, only the last (memo, text) is
   * ever saved, once, one interval after the last call.
   */
  lemma BurstSavesOnlyTheLastEdit(edits: seq<Edit>)
    requires |edits| > 0 && IsBurst(edits)
    ensures var last := edits[|edits| - 1];
      SavesOf(edits) == [Armed(last.memo, last.text, last.at)]
  {
    BurstLeavesOnlyLastPending(edits[0], edits[1..]);
    assert [edits[0]] + edits[1..] == edits;
  }

  /**
   * Replaying edits one call at a time is replaying them all at once: the
   * saves of `edits + [e]` are those of `edits` followed by those of `e`
   * against the timer `edits` left pending.
   */
  lemma {:induction false} ReplayOneEditAtATime(pending: Option<PendingSave>, edits: seq<Edit>, e: Edit)
    ensures var r := Replay(pending, edits); var s := Replay(r.1, [e]);
      Replay(pending, edits + [e]) == (r.0 + s.0, s.1)
    decreases |edits|
  {
    if edits == [] {
      assert edits + [e] == [e];
      var s := Replay(pending, [e]);
      assert Replay(pending, edits) == ([], pending);
      assert [] + s.0 == s.0;
    } else {
      var head := edits[0];
      assert (edits + [e])[0] == head;
      assert (edits + [e])[1..] == edits[1..] + [e];
      ReplayOneEditAtATime(Some(Armed(head.memo, head.text, head.at)), edits[1..], e);
      var fired := if pending.Some? && pending.value.due <= head.at then [pending.value] else [];
      var r := Replay(Some(Armed(head.memo, head.text, head.at)), edits[1..]);
      var s := Replay(r.1, [e]);
      assert Replay(pending, edits) == (fired + r.0, r.1);
      assert fired + (r.0 + s.0) == (fired + r.0) + s.0;
    }
  }

  /** The memos once the timer `p` has fired at its due time: `saveMemo` stores the text if the memo has an id. */
  function AfterSave(memos: Collection<Memo>, p: PendingSave): Collection<Memo> {
    if p.memo.id.Some? then memos.Put(p.memo.id.value, Memo(None, p.memo.name, p.memo.members, p.text, p.due))
    else memos
  }

  /** Two edits further apart than the interval are both saved, in order. */
  lemma SeparatedEditsAreBothSaved(e1: Edit, e2: Edit)
    requires e1.at + MemoTextUpdateIntervalMs <= e2.at
    ensures SavesOf([e1, e2]) == [Armed(e1.memo, e1.text, e1.at), Armed(e2.memo, e2.text, e2.at)]
  {
    var a1, a2 := Armed(e1.memo, e1.text, e1.at), Armed(e2.memo, e2.text, e2.at);
    assert [e1, e2][1..] == [e2];
    assert [e2][1..] == [];
    assert Replay(Some(a2), []) == ([], Some(a2));
    assert [a1] + [] == [a1] && [] + [a1] == [a1];
    assert Replay(Some(a1), [e2]) == ([a1], Some(a2));
    assert Replay(None, [e1, e2]) == ([a1], Some(a2));
  }

  // ---------------------------------------------------------------------------
  // The service object

  class MemoService {
    const store: DocumentStore
    /** `friends`; every assignment notifies `friendsDidChange`. */
    var friends: seq<Friend>
    /** `memos`; every assignment notifies `memosDidChange`. */
    var memos: seq<Memo>
    /** `debounceTimer`, while it is scheduled and has not fired. */
    var pendingSave: Option<PendingSave>

    ghost predicate Valid()
      reads this, store
    {
      store.Valid()
    }

    constructor (store: DocumentStore)
      requires store.Valid()
      ensures Valid() && this.store == store
      ensures friends == [] && memos == [] && pendingSave == None
    {
      this.store := store;
      friends := [];
      memos := [];
      pendingSave := None;
    }

    /** The signed-in user's uid, `firebaseAuthManager.currentUid`. */
    function CurrentUid(): Option<string>
      reads this, store
    {
      store.currentUid
    }

    /** `getUser(documentId:completion:)`: the user, or a report routed by `as? AppError`. */
    function GetUser(documentId: string, sdkError: Option<Error>): (reply: Reply<User>)
      reads this, store
      ensures reply.Completed? <==> store.GetUser(documentId, sdkError).Success?
      ensures reply.Completed? ==> reply.value.uid == Some(documentId)
      ensures reply.Reported? ==> reply.report == Routed(store.GetUser(documentId, sdkError).error)
      ensures sdkError.None? && documentId !in store.users ==> reply == Reported(Report(App(NotFound), NoneType))
    {
      match store.GetUser(documentId, sdkError)
      case Success(u) => Completed(u)
      case Failure(e) => Reported(Routed(e))
    }

    /**
     * The `async throws` `getUser(documentId:)`: the awaiting caller gets the
     * result, and a failure is also reported, routed by `as? AppError`.
     */
    function GetUserAsync(documentId: string, sdkError: Option<Error>): (r: (Result<User, Error>, Option<Report>))
      reads this, store
      ensures r.0 == store.GetUser(documentId, sdkError)
      ensures r.1.Some? <==> r.0.Failure?
      ensures r.1.Some? ==> r.1.value == Routed(r.0.error)
    {
      var result := store.GetUser(documentId, sdkError);
      (result, if result.Failure? then Some(Routed(result.error)) else None)
    }

    /** `setUserData(user:)`: every failure, `someError` for a user without uid included, is a Firestore report. */
    method SetUserData(user: User, sdkError: Option<Error>) returns (reply: Reply<()>)
      requires Valid()
      modifies store
      ensures Valid()
      ensures user.uid.None? ==> reply == Reported(Report(App(SomeError), FirestoreType)) && store.users == old(store.users)
      ensures user.uid.Some? && sdkError.Some? ==> reply == Reported(Report(sdkError.value, FirestoreType)) && store.users == old(store.users)
      ensures user.uid.Some? && sdkError.None? ==>
        reply == Completed(()) && store.users == old(store.users)[user.uid.value := Decodable(EncodeUser(user))]
      ensures store.friends == old(store.friends) && store.memos == old(store.memos) && store.currentUid == old(store.currentUid)
      ensures store.memoListener == old(store.memoListener) && store.orphanedListeners == old(store.orphanedListeners)
    {
      var r := store.SaveUser(user, sdkError);
      reply := Forward(r, FirestoreType);
    }

    /** `deleteUserFromFirestore(uid:)` hands the store's result straight to the caller. */
    method DeleteUserFromFirestore(uid: string, sdkError: Option<Error>) returns (r: Result<(), Error>)
      requires Valid()
      modifies store
      ensures Valid()
      ensures sdkError.Some? ==> r == Failure(sdkError.value) && store.users == old(store.users)
      ensures sdkError.None? ==> r == Success(()) && store.users == old(store.users) - {uid}
      ensures store.friends == old(store.friends) && store.memos == old(store.memos) && store.currentUid == old(store.currentUid)
      ensures store.memoListener == old(store.memoListener) && store.orphanedListeners == old(store.orphanedListeners)
    {
      r := store.DeleteUser(uid, sdkError);
    }

    /**
     * `fetchAllFriends(currentUserUid:)`. The argument is ignored: the signed-in
     * uid is used. Each completion of `getFriends` is handled in turn: a
     * failure is reported, the success replaces `friends` and notifies.
     */
    method FetchAllFriends(currentUserUid: string, sdkError: Option<Error>) returns (events: seq<Reply<seq<Friend>>>)
      requires Valid()
      modifies this
      ensures Valid()
      ensures CurrentUid().None? ==> events == [Reported(NotSignedIn)] && friends == old(friends)
      ensures CurrentUid().Some? && sdkError.Some? ==>
        events == [Reported(Report(sdkError.value, FirestoreType))] && friends == old(friends)
      ensures CurrentUid().Some? && sdkError.None? ==>
        var docs := store.FriendDocs(CurrentUid().value);
        |events| == UndecodableCount(docs) + 1 &&
        events[|events| - 1] == Completed(Decoded(docs)) &&
        (forall k :: 0 <= k < |events| - 1 ==> events[k] == Reported(Report(Decoding, FirestoreType))) &&
        friends == Decoded(docs)
      ensures memos == old(memos) && pendingSave == old(pendingSave)
    {
      if store.currentUid.None? {
        return [Reported(NotSignedIn)];
      }
      var calls := store.GetFriends(store.currentUid.value, sdkError);
      events := [];
      for i := 0 to |calls|
        invariant |events| == i
        invariant forall k :: 0 <= k < i ==> events[k] == Forward(calls[k], FirestoreType)
        invariant i == 0 || calls[i - 1].Failure? ==> friends == old(friends)
        invariant i > 0 && calls[i - 1].Success? ==> friends == calls[i - 1].value
        invariant memos == old(memos) && pendingSave == old(pendingSave)
      {
        match calls[i] {
          case Success(fetchedFriends) =>
            friends := fetchedFriends;
          case Failure(_) =>
        }
        events := events + [Forward(calls[i], FirestoreType)];
      }
    }

    /**
     * `checkIfUserIsAlreadyFriend(user:)`: one answer per completion of
     * `getFriends`, true exactly when a fetched friend has the user's uid.
     */
    method CheckIfUserIsAlreadyFriend(user: User, sdkError: Option<Error>) returns (events: seq<Reply<bool>>)
      requires Valid()
      ensures CurrentUid().None? ==> events == [Reported(NotSignedIn)]
      ensures CurrentUid().Some? && sdkError.Some? ==> events == [Reported(Report(sdkError.value, FirestoreType))]
      ensures CurrentUid().Some? && sdkError.None? ==>
        var docs := store.FriendDocs(CurrentUid().value);
        |events| == UndecodableCount(docs) + 1 &&
        (forall k :: 0 <= k < |events| - 1 ==> events[k] == Reported(Report(Decoding, FirestoreType))) &&
        events[|events| - 1].Completed? &&
        (events[|events| - 1].value <==> exists f :: f in Decoded(docs) && Some(f.uid) == user.uid)
    {
      if store.currentUid.None? {
        return [Reported(NotSignedIn)];
      }
      var calls := store.GetFriends(store.currentUid.value, sdkError);
      events := [];
      for i := 0 to |calls|
        invariant |events| == i
        invariant forall k :: 0 <= k < i ==>
          events[k] == (if calls[k].Success? then Completed(ContainsFriend(calls[k].value, user.uid))
                        else Reported(Report(calls[k].error, FirestoreType)))
      {
        match calls[i] {
          case Success(fetched) =>
            events := events + [Completed(ContainsFriend(fetched, user.uid))];
          case Failure(e) =>
            events := events + [Reported(Report(e, FirestoreType))];
        }
      }
    }

    /**
     * `validateFriendRequest(user:)`: refuses when nobody is signed in or the
     * user is the signed-in one; otherwise reads the current user and writes
     * both friend edges. Store failures are Firestore reports.
     */
    method ValidateFriendRequest(user: User, getUserError: Option<Error>, firstError: Option<Error>, secondError: Option<Error>)
      returns (reply: Reply<()>)
      requires Valid()
      modifies store
      ensures Valid()
      ensures CurrentUid().None? ==> reply == Reported(NotSignedIn) && store.friends == old(store.friends)
      ensures CurrentUid().Some? && user.uid == CurrentUid() ==>
        reply == Reported(Report(App(SelfAddNotAllowed), NoneType)) && store.friends == old(store.friends)
      ensures CurrentUid().Some? && user.uid != CurrentUid() ==>
        var cur := CurrentUid().value;
        var fetched := old(store.GetUser(cur, getUserError));
        (fetched.Failure? ==> reply == Reported(Report(fetched.error, FirestoreType)) && store.friends == old(store.friends)) &&
        (fetched.Success? && user.uid.None? ==>
          reply == Reported(Report(App(NotFound), FirestoreType)) && store.friends == old(store.friends)) &&
        (fetched.Success? && user.uid.Some? ==>
          (firstError.Some? ==> reply == Reported(Report(firstError.value, FirestoreType)) && store.friends == old(store.friends)) &&
          (firstError.None? && secondError.Some? ==>
            reply == Reported(Report(secondError.value, FirestoreType)) && store.friends == WithEdge(old(store.friends), cur, user.uid.value)) &&
          (firstError.None? && secondError.None? ==>
            reply == Completed(()) && store.friends == WithEdge(WithEdge(old(store.friends), cur, user.uid.value), user.uid.value, cur)))
      ensures store.users == old(store.users) && store.memos == old(store.memos) && store.currentUid == old(store.currentUid)
      ensures store.memoListener == old(store.memoListener) && store.orphanedListeners == old(store.orphanedListeners)
    {
      if store.currentUid.None? {
        return Reported(NotSignedIn);
      }
      var cur := store.currentUid.value;
      if user.uid == Some(cur) {
        return Reported(Report(App(SelfAddNotAllowed), NoneType));
      }
      var fetched := store.GetUser(cur, getUserError);
      if fetched.Failure? {
        return Reported(Report(fetched.error, FirestoreType));
      }
      var r := store.CreateFriendToBothUsers(fetched.value, user, firstError, secondError);
      reply := Forward(r, FirestoreType);
    }

    /**
     * `getFriendUidIfNoMemoExists(friendUid:)`: completes with the friend's uid
     * when no memo includes both users; when one does, nothing happens at all.
     */
    method GetFriendUidIfNoMemoExists(friendUid: string, sdkError: Option<Error>) returns (reply: Reply<string>)
      requires Valid()
      ensures CurrentUid().None? ==> reply == Reported(NotSignedIn)
      ensures CurrentUid().Some? && sdkError.Some? ==> reply == Reported(Report(sdkError.value, FirestoreType))
      ensures CurrentUid().Some? && sdkError.None? ==>
        var cur := CurrentUid().value;
        var s := store.MemoSnapshots();
        (reply == Completed(friendUid) <==> !SomeMemoIncludesBoth(s, cur, friendUid)) &&
        (reply != Completed(friendUid) ==> reply == Silent)
    {
      if store.currentUid.None? {
        return Reported(NotSignedIn);
      }
      var cur := store.currentUid.value;
      var r := store.GetAllMemos(sdkError);
      if r.Failure? {
        return Reported(Report(r.error, FirestoreType));
      }
      var filteredMemos := FilterMemos([cur, friendUid], r.value);
      if filteredMemos == [] {
        reply := Completed(friendUid);
      } else {
        reply := Silent;
      }
      NoSharedMemoWhenFilterEmpty(store.MemoSnapshots(), cur, friendUid);
    }

    /** `startListeningMemoUpdates(memoId:)`: registers the listener on the store. */
    method StartListeningMemoUpdates(memoId: string) returns (reg: Registration)
      requires Valid()
      modifies store
      ensures Valid()
      ensures reg.memoId == memoId && !old(store.IsLive(reg))
      ensures store.memoListener == Some(reg)
      ensures store.orphanedListeners == old(store.orphanedListeners) + (if old(store.memoListener).Some? then [old(store.memoListener).value] else [])
      ensures store.users == old(store.users) && store.friends == old(store.friends) && store.memos == old(store.memos)
      ensures store.currentUid == old(store.currentUid)
    {
      reg := store.StartListeningMemoUpdates(memoId);
    }

    /** A snapshot delivered to the listener reaches the screen as a memo; an error is a Firestore report. */
    function ListenerReply(memoId: string, sdkError: Option<Error>): (reply: Reply<Memo>)
      reads this, store
      ensures reply.Completed? <==> sdkError.None? && memoId in store.memos.docs
      ensures reply.Completed? ==> reply.value.id == Some(memoId) && reply.value.content == store.memos.docs[memoId].content
      ensures reply.Reported? ==> reply.report.kind == FirestoreType
    {
      Forward(store.MemoSnapshot(memoId, sdkError), FirestoreType)
    }

    /** `stopListeningMemoUpdates()`. */
    method StopListeningMemoUpdates()
      requires Valid()
      modifies store
      ensures Valid()
      ensures store.memoListener == None && store.orphanedListeners == old(store.orphanedListeners)
      ensures store.users == old(store.users) && store.friends == old(store.friends) && store.memos == old(store.memos)
      ensures store.currentUid == old(store.currentUid)
    {
      store.StopListeningMemoUpdates();
    }

    /**
     * `debounceTextUpdate(memo:text:)` at time `now`: a pending timer whose
     * time came before `now` has already fired and saved at its due time;
     * the call then replaces the pending timer with one due an interval from
     * now. `fired` is the save that went out in between, so each call is one
     * step of `Replay`.
     */
    method DebounceTextUpdate(memo: Memo, text: string, now: int) returns (fired: seq<PendingSave>, reply: Reply<()>)
      requires Valid()
      modifies this, store
      ensures Valid()
      ensures (fired, pendingSave) == Replay(old(pendingSave), [Edit(memo, text, now)])
      ensures pendingSave == Some(Armed(memo, text, now))
      ensures fired == [] ==> reply == Silent && store.memos == old(store.memos)
      ensures |fired| == 1 ==>
        store.memos == AfterSave(old(store.memos), fired[0]) &&
        reply == (if fired[0].memo.id.None? then Reported(Report(App(SomeError), FirestoreType)) else Silent)
      ensures friends == old(friends) && memos == old(memos)
      ensures store.users == old(store.users) && store.friends == old(store.friends) && store.currentUid == old(store.currentUid)
      ensures store.memoListener == old(store.memoListener) && store.orphanedListeners == old(store.orphanedListeners)
    {
      fired, reply := [], Silent;
      if pendingSave.Some? && pendingSave.value.due <= now {
        fired := [pendingSave.value];
        reply := FireDebounceTimer(pendingSave.value.due);
      }
      pendingSave := Some(Armed(memo, text, now));
      assert Replay(Some(Armed(memo, text, now)), []) == ([], Some(Armed(memo, text, now)));
      assert fired + [] == fired;
    }

    /** The pending timer fires at time `now` if its time has come, and saves its text. */
    method FireDebounceTimer(now: int) returns (reply: Reply<()>)
      requires Valid()
      modifies this, store
      ensures Valid()
      ensures old(pendingSave).None? || now < old(pendingSave).value.due ==>
        reply == Silent && pendingSave == old(pendingSave) && store.memos == old(store.memos)
      ensures old(pendingSave).Some? && old(pendingSave).value.due <= now ==>
        var p := old(pendingSave).value;
        pendingSave == None &&
        (p.memo.id.None? ==> reply == Reported(Report(App(SomeError), FirestoreType)) && store.memos == old(store.memos)) &&
        (p.memo.id.Some? ==> reply == Silent && store.memos == old(store.memos).Put(p.memo.id.value, Memo(None, p.memo.name, p.memo.members, p.text, now)))
      ensures friends == old(friends) && memos == old(memos)
      ensures store.users == old(store.users) && store.friends == old(store.friends) && store.currentUid == old(store.currentUid)
      ensures store.memoListener == old(store.memoListener) && store.orphanedListeners == old(store.orphanedListeners)
    {
      reply := Silent;
      if pendingSave.Some? && pendingSave.value.due <= now {
        var p := pendingSave.value;
        pendingSave := None;
        reply := SaveMemo(p.memo, p.text, now);
      }
    }

    /** `createMemo(friendUid:memoName:)`: failures are routed by `as? AppError`. */
    method CreateMemo(friendUid: string, memoName: string, freshId: string, now: int) returns (reply: Reply<()>)
      requires Valid()
      modifies store
      ensures Valid()
      ensures CurrentUid().None? ==> reply == Reported(Report(App(SomeError), NoneType)) && store.memos == old(store.memos)
      ensures CurrentUid().Some? ==>
        reply == Completed(()) &&
        store.memos == old(store.memos).Put(freshId, Memo(Some(freshId), memoName, [CurrentUid().value, friendUid], "", now))
      ensures store.users == old(store.users) && store.friends == old(store.friends) && store.currentUid == old(store.currentUid)
      ensures store.memoListener == old(store.memoListener) && store.orphanedListeners == old(store.orphanedListeners)
    {
      var r := store.CreateMemo(friendUid, memoName, freshId, now);
      reply := if r.Success? then Completed(()) else Reported(Routed(r.error));
    }

    /** `saveMemo(memo:content:)`: silent on success, a Firestore report on failure. */
    method SaveMemo(memo: Memo, content: string, now: int) returns (reply: Reply<()>)
      requires Valid()
      modifies store
      ensures Valid()
      ensures memo.id.None? ==> reply == Reported(Report(App(SomeError), FirestoreType)) && store.memos == old(store.memos)
      ensures memo.id.Some? ==>
        reply == Silent && store.memos == old(store.memos).Put(memo.id.value, Memo(None, memo.name, memo.members, content, now))
      ensures store.users == old(store.users) && store.friends == old(store.friends) && store.currentUid == old(store.currentUid)
      ensures store.memoListener == old(store.memoListener) && store.orphanedListeners == old(store.orphanedListeners)
    {
      var r := store.SaveMemo(memo, content, now);
      reply := if r.Success? then Silent else Reported(Report(r.error, FirestoreType));
    }

    /** `getLatestMemos()`: the signed-in user's memos, newest first, replace `memos` and notify. */
    method GetLatestMemos(sdkError: Option<Error>) returns (reply: Reply<seq<Memo>>)
      requires Valid()
      modifies this
      ensures Valid()
      ensures CurrentUid().None? ==> reply == Reported(NotSignedIn) && memos == old(memos)
      ensures CurrentUid().Some? && sdkError.Some? ==> reply == Reported(Report(sdkError.value, FirestoreType)) && memos == old(memos)
      ensures CurrentUid().Some? && sdkError.None? ==>
        memos == WithIds(NewestFirst(Where(store.MemoSnapshots(), ArrayContains(CurrentUid().value)))) &&
        reply == Completed(memos)
      ensures friends == old(friends) && pendingSave == old(pendingSave)
    {
      if store.currentUid.None? {
        return Reported(NotSignedIn);
      }
      var r := store.GetLatestMemosForCurrentUser(store.currentUid.value, sdkError);
      match r {
        case Success(fetched) =>
          memos := fetched;
          reply := Completed(fetched);
        case Failure(e) =>
          reply := Reported(Report(e, FirestoreType));
      }
    }

    /**
     * `fetchSharedMemo(friendUid:)`: the first fetched memo including both the
     * signed-in user and the friend, or nil when there is none.
     */
    method FetchSharedMemo(friendUid: string, sdkError: Option<Error>) returns (reply: Reply<Option<Memo>>)
      requires Valid()
      ensures CurrentUid().None? ==> reply == Reported(NotSignedIn)
      ensures CurrentUid().Some? && sdkError.Some? ==> reply == Reported(Report(sdkError.value, FirestoreType))
      ensures CurrentUid().Some? && sdkError.None? ==>
        var cur := CurrentUid().value;
        var s := store.MemoSnapshots();
        reply.Completed? &&
        (reply.value.Some? <==> exists i :: 0 <= i < |s| && cur in s[i].1.members && friendUid in s[i].1.members) &&
        (reply.value.Some? ==>
          exists i :: (0 <= i < |s| && reply.value.value == Tagged(s[i]) &&
            cur in s[i].1.members && friendUid in s[i].1.members &&
            forall j :: 0 <= j < i ==> !(cur in s[j].1.members && friendUid in s[j].1.members)))
    {
      if store.currentUid.None? {
        return Reported(NotSignedIn);
      }
      var cur := store.currentUid.value;
      var r := store.GetMemosIncludingAnyOfUserUids([cur, friendUid], sdkError);
      if r.Failure? {
        return Reported(Report(r.error, FirestoreType));
      }
      SharedMemoIsFirstIncludingBoth(store.MemoSnapshots(), cur, friendUid);
      reply := Completed(SharedMemo(cur, friendUid, r.value));
    }
  }

  /** `filterMemos` over all memos is empty exactly when no memo includes both users. */
  lemma NoSharedMemoWhenFilterEmpty(s: seq<Snapshot>, cur: string, friendUid: string)
    ensures FilterMemos([cur, friendUid], WithIds(s)) == [] <==> !SomeMemoIncludesBoth(s, cur, friendUid)
  {
    FilterMemosOfTagged([cur, friendUid], s);
    WhereFirst(s, ContainsEvery([cur, friendUid]));
    forall i | 0 <= i < |s|
      ensures Matches(s[i].1, ContainsEvery([cur, friendUid])) <==> cur in s[i].1.members && friendUid in s[i].1.members
    {
    }
  }

  /** `uploadImage(imageData:)`: the URL, or a failure routed by `as? AppError`. */
  function UploadImage(upload: Result<string, Error>): (reply: Reply<string>)
    ensures upload.Success? ==> reply == Completed(upload.value)
    ensures upload.Failure? ==> reply == Reported(Routed(upload.error))
    ensures upload == Failure(App(FailedDownloadUrl)) ==> reply.report.kind == NoneType
  {
    match upload
    case Success(url) => Completed(url)
    case Failure(e) => Reported(Routed(e))
  }

  /**
   * The auth pass-throughs (`createUser`, `deleteUserFromAuth`, `signIn`,
   * `sendPasswordReset`, `logout`, `reauthenticate`): a completion the auth
   * manager never makes stays silent; a failure is an auth report.
   */
  function AuthReply<T>(r: Option<Result<T, Error>>): (reply: Reply<T>)
    ensures reply.Silent? <==> r.None?
    ensures r.Some? && r.value.Success? ==> reply == Completed(r.value.value)
    ensures r.Some? && r.value.Failure? ==> reply == Reported(Report(r.value.error, AuthType))
  {
    match r
    case None => Silent
    case Some(result) => Forward(result, AuthType)
  }
}
