/**
 * Managers/FirestoreManager.swift over an in-memory document store.
 *
 * The `users` collection holds each user's coded fields; under each user lies a
 * `friends` sub-collection of friend edges; the `memos` collection holds the
 * shared memos. `currentUid` is `Auth.auth().currentUser?.uid`. A backend
 * failure of a call (network, permissions) is a parameter `sdkError`.
 */
module FirestoreManager {
  import opened Wrappers
  import opened AlertValues
  import opened Errors
  import opened Models
  import opened DocCollection
  import opened MemoQueries

  type Edges = Collection<Doc<Friend>>

  /** The `friends` sub-collection of `owner`; a user without one has an empty one. */
  function EdgesOf(fs: map<string, Edges>, owner: string): Edges {
    if owner in fs then fs[owner] else Empty()
  }

  /** Every sub-collection lists its documents. */
  ghost predicate EdgesValid(fs: map<string, Edges>) {
    forall o :: o in fs ==> fs[o].Valid()
  }

  /** `owner` holds an edge keyed by `friendUid` whose document is `Friend(uid: friendUid)`. */
  predicate HasEdge(fs: map<string, Edges>, owner: string, friendUid: string) {
    owner in fs && friendUid in fs[owner].docs && fs[owner].docs[friendUid] == Decodable(Friend(friendUid))
  }

  /**
   * The write of `createFriend`: `setData` on `users/owner/friends/friendUid`.
   * Only that one document of the store changes.
   */
  function WithEdge(fs: map<string, Edges>, owner: string, friendUid: string): (r: map<string, Edges>)
    ensures r.Keys == fs.Keys + {owner}
    ensures HasEdge(r, owner, friendUid)
    ensures forall o :: o in fs && o != owner ==> r[o] == fs[o]
    ensures r[owner].docs == EdgesOf(fs, owner).docs[friendUid := Decodable(Friend(friendUid))]
    ensures EdgesValid(fs) ==> EdgesValid(r)
  {
    fs[owner := EdgesOf(fs, owner).Put(friendUid, Decodable(Friend(friendUid)))]
  }

  /** Writing the same edge again changes nothing: edges are overwritten, never duplicated. */
  lemma WithEdgeIdempotent(fs: map<string, Edges>, owner: string, friendUid: string)
    ensures WithEdge(WithEdge(fs, owner, friendUid), owner, friendUid) == WithEdge(fs, owner, friendUid)
  {
    var once := WithEdge(fs, owner, friendUid);
    assert EdgesOf(once, owner).Put(friendUid, Decodable(Friend(friendUid))) == once[owner];
  }

  /** The two writes of `createFriendToBothUsers` make the friendship symmetric and keep the other edges. */
  lemma BothEdgesAfterTwoWrites(fs: map<string, Edges>, a: string, b: string)
    ensures var r := WithEdge(WithEdge(fs, a, b), b, a);
      HasEdge(r, a, b) && HasEdge(r, b, a) &&
      forall o :: o in fs && o != a && o != b ==> r[o] == fs[o]
  {
  }

  /** `getErrorMessageAndTitle(error:)` of the Firestore manager. */
  function FirestoreAlert(e: Error): (a: Alert)
    ensures e == Firestore(CodeAlreadyExists) ==> a == Alert(SearchResult, Message(AlreadyExists))
    ensures e == Firestore(CodeNotFound) ==> a == Alert(FetchDataError, Message(NotFound))
    ensures a.title == Confirmation <==> !(e.Firestore? && e.firestoreCode != CodeOther)
    ensures a.title == Confirmation ==> a.message == Message(SomeError)
  {
    if e.Firestore? then
      match e.firestoreCode
      case CodeAlreadyExists => Alert(SearchResult, Message(AlreadyExists))
      case CodeNotFound => Alert(FetchDataError, Message(NotFound))
      case CodeOther => Alert(Confirmation, Message(SomeError))
    else
      Alert(Confirmation, Message(SomeError))
  }

  /** One `addSnapshotListener` registration on the memo `memoId`; `id` tells registrations apart. */
  datatype Registration = Registration(id: nat, memoId: string)

  class DocumentStore {
    var currentUid: Option<string>
    var users: map<string, Doc<UserFields>>
    var friends: map<string, Edges>
    var memos: Collection<Memo>
    /** The registration `memoListener` holds. */
    var memoListener: Option<Registration>
    /** Registrations replaced by a later `startListeningMemoUpdates` without being removed. */
    var orphanedListeners: seq<Registration>
    /** The identity the next registration gets. */
    var nextRegistration: nat

    ghost predicate Valid()
      reads this
    {
      memos.Valid() && EdgesValid(friends) &&
      (memoListener.Some? ==> memoListener.value.id < nextRegistration) &&
      (forall r :: r in orphanedListeners ==> r.id < nextRegistration)
    }

    constructor (currentUid: Option<string>)
      ensures Valid()
      ensures this.currentUid == currentUid
      ensures users == map[] && friends == map[] && memos == Empty()
      ensures memoListener == None && orphanedListeners == []
    {
      nextRegistration := 0;
      this.currentUid := currentUid;
      users := map[];
      friends := map[];
      memos := Empty();
      memoListener := None;
      orphanedListeners := [];
    }

    /**
     * `getUser(documentId:)`: the decoded user carrying the document id; the
     * backend's error; a decoding error; or `notFound` for a missing document.
     */
    function GetUser(documentId: string, sdkError: Option<Error>): (r: Result<User, Error>)
      reads this
      ensures r.Success? <==> sdkError.None? && documentId in users && users[documentId].Decodable?
      ensures r.Success? ==>
        r.value.uid == Some(documentId) && r.value.friend.None? &&
        EncodeUser(r.value) == users[documentId].value.(uid := Some(documentId))
      ensures sdkError.Some? ==> r == Failure(sdkError.value)
      ensures sdkError.None? && documentId !in users ==> r == Failure(App(NotFound))
      ensures sdkError.None? && documentId in users && users[documentId].Undecodable? ==> r == Failure(Decoding)
    {
      if sdkError.Some? then Failure(sdkError.value)
      else if documentId !in users then Failure(App(NotFound))
      else match users[documentId]
        case Decodable(f) => Success(DecodeUser(f).(uid := Some(documentId)))
        case Undecodable => Failure(Decoding)
    }

    /** `saveUser(user:)`: writes the coded fields at the user's uid; fails with `someError` without one. */
    method SaveUser(user: User, sdkError: Option<Error>) returns (r: Result<(), Error>)
      requires Valid()
      modifies this
      ensures Valid()
      ensures user.uid.None? ==> r == Failure(App(SomeError)) && users == old(users)
      ensures user.uid.Some? && sdkError.Some? ==> r == Failure(sdkError.value) && users == old(users)
      ensures user.uid.Some? && sdkError.None? ==>
        r == Success(()) && users == old(users)[user.uid.value := Decodable(EncodeUser(user))] &&
        GetUser(user.uid.value, None) == Success(user.(friend := None))
      ensures friends == old(friends) && memos == old(memos) && currentUid == old(currentUid)
      ensures memoListener == old(memoListener) && orphanedListeners == old(orphanedListeners)
    {
      if user.uid.None? {
        return Failure(App(SomeError));
      }
      if sdkError.Some? {
        return Failure(sdkError.value);
      }
      users := users[user.uid.value := Decodable(EncodeUser(user))];
      r := Success(());
    }

    /** `deleteUser(uid:)`: removes the user document only; its `friends` sub-collection stays. */
    method DeleteUser(uid: string, sdkError: Option<Error>) returns (r: Result<(), Error>)
      requires Valid()
      modifies this
      ensures Valid()
      ensures sdkError.Some? ==> r == Failure(sdkError.value) && users == old(users)
      ensures sdkError.None? ==>
        r == Success(()) && users == old(users) - {uid} && GetUser(uid, None) == Failure(App(NotFound))
      ensures friends == old(friends) && memos == old(memos) && currentUid == old(currentUid)
      ensures memoListener == old(memoListener) && orphanedListeners == old(orphanedListeners)
    {
      if sdkError.Some? {
        return Failure(sdkError.value);
      }
      users := users - {uid};
      r := Success(());
    }

    /** The friend-edge documents of `owner`, in listing order. */
    function FriendDocs(owner: string): seq<Doc<Friend>>
      requires Valid()
      reads this
    {
      EdgesOf(friends, owner).Values()
    }

    /**
     * `getFriends(currentUserUid:)`, as the sequence of its completion calls. The
     * `return` inside `forEach` only leaves the closure: every undecodable edge
     * reports a failure and the loop goes on, and the success with the decoded
     * friends is reported last in any case.
     */
    method GetFriends(currentUserUid: string, sdkError: Option<Error>) returns (calls: seq<Result<seq<Friend>, Error>>)
      requires Valid()
      ensures sdkError.Some? ==> calls == [Failure(sdkError.value)]
      ensures sdkError.None? ==>
        var docs := FriendDocs(currentUserUid);
        |calls| == UndecodableCount(docs) + 1 &&
        calls[|calls| - 1] == Success(Decoded(docs)) &&
        forall k :: 0 <= k < |calls| - 1 ==> calls[k] == Failure(Decoding)
    {
      if sdkError.Some? {
        return [Failure(sdkError.value)];
      }
      var docs := FriendDocs(currentUserUid);
      var friendsArray: seq<Friend> := [];
      calls := [];
      for i := 0 to |docs|
        invariant friendsArray == Decoded(docs[..i])
        invariant |calls| == UndecodableCount(docs[..i])
        invariant forall k :: 0 <= k < |calls| ==> calls[k] == Failure(Decoding)
      {
        assert docs[..i + 1][..i] == docs[..i];
        match docs[i] {
          case Decodable(friend) =>
            friendsArray := friendsArray + [friend];
          case Undecodable =>
            calls := calls + [Failure(Decoding)];
        }
      }
      assert docs[..|docs|] == docs;
      calls := calls + [Success(friendsArray)];
    }

    /**
     * `createFriend(friend:toUser:)`: fails with `notFound` when either user has
     * no uid; otherwise writes the edge `toUser -> friend`.
     */
    method CreateFriend(friend: User, toUser: User, sdkError: Option<Error>) returns (r: Result<(), Error>)
      requires Valid()
      modifies this
      ensures Valid()
      ensures toUser.uid.None? || friend.uid.None? ==> r == Failure(App(NotFound)) && friends == old(friends)
      ensures toUser.uid.Some? && friend.uid.Some? && sdkError.Some? ==>
        r == Failure(sdkError.value) && friends == old(friends)
      ensures toUser.uid.Some? && friend.uid.Some? && sdkError.None? ==>
        r == Success(()) && friends == WithEdge(old(friends), toUser.uid.value, friend.uid.value)
      ensures users == old(users) && memos == old(memos) && currentUid == old(currentUid)
      ensures memoListener == old(memoListener) && orphanedListeners == old(orphanedListeners)
    {
      if toUser.uid.None? || friend.uid.None? {
        return Failure(App(NotFound));
      }
      if sdkError.Some? {
        return Failure(sdkError.value);
      }
      friends := WithEdge(friends, toUser.uid.value, friend.uid.value);
      r := Success(());
    }

    /**
     * `createFriendToBothUsers(currentUser:newFriend:)`: the edge
     * `currentUser -> newFriend` first, and the reverse edge only once that
     * write has succeeded. A failing second write leaves the first edge in place.
     */
    method CreateFriendToBothUsers(currentUser: User, newFriend: User, firstError: Option<Error>, secondError: Option<Error>)
      returns (r: Result<(), Error>)
      requires Valid()
      modifies this
      ensures Valid()
      ensures currentUser.uid.None? || newFriend.uid.None? ==> r == Failure(App(NotFound)) && friends == old(friends)
      ensures currentUser.uid.Some? && newFriend.uid.Some? ==>
        var a, b := currentUser.uid.value, newFriend.uid.value;
        (firstError.Some? ==> r == Failure(firstError.value) && friends == old(friends)) &&
        (firstError.None? && secondError.Some? ==> r == Failure(secondError.value) && friends == WithEdge(old(friends), a, b)) &&
        (firstError.None? && secondError.None? ==>
          r == Success(()) && friends == WithEdge(WithEdge(old(friends), a, b), b, a) &&
          HasEdge(friends, a, b) && HasEdge(friends, b, a))
      ensures users == old(users) && memos == old(memos) && currentUid == old(currentUid)
      ensures memoListener == old(memoListener) && orphanedListeners == old(orphanedListeners)
    {
      r := CreateFriend(newFriend, currentUser, firstError);
      if r.Success? {
        r := CreateFriend(currentUser, newFriend, secondError);
      }
    }

    /** The memo documents in listing order. */
    function MemoSnapshots(): seq<Snapshot>
      requires Valid()
      reads this
    {
      memos.Listing()
    }

    /** The `forEach` of the memo queries: copy each document id into its memo, in order. */
    static method CollectMemos(snapshots: seq<Snapshot>) returns (memoArray: seq<Memo>)
      ensures memoArray == WithIds(snapshots)
    {
      memoArray := [];
      for i := 0 to |snapshots|
        invariant |memoArray| == i
        invariant forall k :: 0 <= k < i ==> memoArray[k] == Tagged(snapshots[k])
      {
        var memo := snapshots[i].1.(id := Some(snapshots[i].0));
        memoArray := memoArray + [memo];
      }
    }

    /** `getAllMemos()`: every memo, each with its document id. */
    method GetAllMemos(sdkError: Option<Error>) returns (r: Result<seq<Memo>, Error>)
      requires Valid()
      ensures sdkError.Some? ==> r == Failure(sdkError.value)
      ensures sdkError.None? ==> r == Success(WithIds(MemoSnapshots()))
    {
      if sdkError.Some? {
        return Failure(sdkError.value);
      }
      var memoArray := CollectMemos(MemoSnapshots());
      r := Success(memoArray);
    }

    /** `getMemosIncludingAnyOfUserUids(_:)`: the memos sharing a member with `uids`. */
    method GetMemosIncludingAnyOfUserUids(uids: seq<string>, sdkError: Option<Error>) returns (r: Result<seq<Memo>, Error>)
      requires Valid()
      ensures sdkError.Some? ==> r == Failure(sdkError.value)
      ensures sdkError.None? ==> r == Success(WithIds(Where(MemoSnapshots(), ArrayContainsAny(uids))))
    {
      if sdkError.Some? {
        return Failure(sdkError.value);
      }
      var memoArray := CollectMemos(Where(MemoSnapshots(), ArrayContainsAny(uids)));
      r := Success(memoArray);
    }

    /** `getLatestMemosForCurrentUser(uid:)`: the memos including `uid`, newest first. */
    method GetLatestMemosForCurrentUser(uid: string, sdkError: Option<Error>) returns (r: Result<seq<Memo>, Error>)
      requires Valid()
      ensures sdkError.Some? ==> r == Failure(sdkError.value)
      ensures sdkError.None? ==> r == Success(WithIds(NewestFirst(Where(MemoSnapshots(), ArrayContains(uid)))))
    {
      if sdkError.Some? {
        return Failure(sdkError.value);
      }
      var memoArray := CollectMemos(NewestFirst(Where(MemoSnapshots(), ArrayContains(uid))));
      r := Success(memoArray);
    }

    /**
     * `saveMemo(memo:content:)`: fails with `someError` when the memo has no id;
     * otherwise overwrites that document with the same name and members, the new
     * content and the time `now`. Success is reported as soon as the write is issued.
     */
    method SaveMemo(memo: Memo, content: string, now: int) returns (r: Result<(), Error>)
      requires Valid()
      modifies this
      ensures Valid()
      ensures memo.id.None? ==> r == Failure(App(SomeError)) && memos == old(memos)
      ensures memo.id.Some? ==>
        var id := memo.id.value;
        r == Success(()) &&
        memos == old(memos).Put(id, Memo(None, memo.name, memo.members, content, now)) &&
        Tagged((id, memos.docs[id])) == memo.(content := content, latestUpdate := now)
      ensures users == old(users) && friends == old(friends) && currentUid == old(currentUid)
      ensures memoListener == old(memoListener) && orphanedListeners == old(orphanedListeners)
    {
      if memo.id.None? {
        return Failure(App(SomeError));
      }
      var newMemo := Memo(None, memo.name, memo.members, content, now);
      memos := memos.Put(memo.id.value, newMemo);
      r := Success(());
    }

    /**
     * `createMemo(friendUid:memoName:)`: fails with `someError` when nobody is
     * signed in; otherwise stores, at the fresh document id `freshId`, a memo
     * shared by the current user and the friend, with empty content. Nothing
     * checks whether such a memo exists already.
     */
    method CreateMemo(friendUid: string, memoName: string, freshId: string, now: int) returns (r: Result<(), Error>)
      requires Valid()
      modifies this
      ensures Valid()
      ensures currentUid.None? ==> r == Failure(App(SomeError)) && memos == old(memos)
      ensures currentUid.Some? ==>
        r == Success(()) &&
        memos == old(memos).Put(freshId, Memo(Some(freshId), memoName, [currentUid.value, friendUid], "", now))
      ensures users == old(users) && friends == old(friends) && currentUid == old(currentUid)
      ensures memoListener == old(memoListener) && orphanedListeners == old(orphanedListeners)
    {
      if currentUid.None? {
        return Failure(App(SomeError));
      }
      var memo := Memo(Some(freshId), memoName, [currentUid.value, friendUid], "", now);
      memos := memos.Put(freshId, memo);
      r := Success(());
    }

    /**
     * `startListeningMemoUpdates(memoId:)`: registers a new listener on the
     * memo and keeps it in `memoListener`; a registration held before is
     * overwritten without being removed, so it stays live.
     */
    method StartListeningMemoUpdates(memoId: string) returns (reg: Registration)
      requires Valid()
      modifies this
      ensures Valid()
      ensures reg.memoId == memoId && !old(IsLive(reg))
      ensures memoListener == Some(reg)
      ensures orphanedListeners == old(orphanedListeners) + (if old(memoListener).Some? then [old(memoListener).value] else [])
      ensures users == old(users) && friends == old(friends) && memos == old(memos) && currentUid == old(currentUid)
    {
      reg := Registration(nextRegistration, memoId);
      if memoListener.Some? {
        orphanedListeners := orphanedListeners + [memoListener.value];
      }
      memoListener := Some(reg);
      nextRegistration := nextRegistration + 1;
    }

    /** `stopListeningMemoUpdates()`: removes the held registration. */
    method StopListeningMemoUpdates()
      requires Valid()
      modifies this
      ensures Valid()
      ensures memoListener == None
      ensures orphanedListeners == old(orphanedListeners)
      ensures users == old(users) && friends == old(friends) && memos == old(memos) && currentUid == old(currentUid)
    {
      memoListener := None;
    }

    /** The registration has not been removed: its closure still runs on every snapshot. */
    predicate IsLive(reg: Registration)
      reads this
    {
      memoListener == Some(reg) || reg in orphanedListeners
    }

    /**
     * What a listener on `memoId` delivers for the current state of the memo:
     * the memo with its id, the backend's error, or a decoding error when the
     * document does not exist.
     */
    function MemoSnapshot(memoId: string, sdkError: Option<Error>): (r: Result<Memo, Error>)
      reads this
      ensures sdkError.Some? ==> r == Failure(sdkError.value)
      ensures sdkError.None? && memoId in memos.docs ==> r == Success(Tagged((memoId, memos.docs[memoId])))
      ensures sdkError.None? && memoId !in memos.docs ==> r == Failure(Decoding)
    {
      if sdkError.Some? then Failure(sdkError.value)
      else if memoId in memos.docs then Success(memos.docs[memoId].(id := Some(memoId)))
      else Failure(Decoding)
    }
  }

  /** A created memo is found by the shared-memo query of either member. */
  lemma CreatedMemoIsShared(memos: Collection<Memo>, freshId: string, memoName: string, cur: string, friendUid: string, now: int)
    requires memos.Valid()
    ensures var after := memos.Put(freshId, Memo(Some(freshId), memoName, [cur, friendUid], "", now));
      var created := Memo(Some(freshId), memoName, [cur, friendUid], "", now);
      created in WithIds(Where(after.Listing(), ArrayContainsAny([cur, friendUid])))
  {
    var after := memos.Put(freshId, Memo(Some(freshId), memoName, [cur, friendUid], "", now));
    var p := (freshId, after.docs[freshId]);
    ListingHasEveryDocument(after, freshId);
    AnyOfMemosShareAMember(after.Listing(), [cur, friendUid]);
    assert Matches(p.1, ArrayContainsAny([cur, friendUid])) by {
      assert cur in [cur, friendUid];
    }
  }

  /** An edge written for a friend shows up among the decoded friends `getFriends` completes with. */
  lemma WrittenEdgeIsListed(fs: map<string, Edges>, owner: string, friendUid: string)
    requires EdgesValid(fs)
    ensures Friend(friendUid) in Decoded(EdgesOf(WithEdge(fs, owner, friendUid), owner).Values())
  {
    var r := WithEdge(fs, owner, friendUid);
    ListingHasEveryDocument(r[owner], friendUid);
    DecodedMember(r[owner].Values(), Friend(friendUid));
  }
}
