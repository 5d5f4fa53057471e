/**
 * MemoDetail/MemoDetailViewController.swift: the editing session of one memo.
 * Opening listens for remote changes and shows the memo's content; every
 * remote snapshot overwrites the text; every edit re-arms the debounced save;
 * closing stops listening and then saves once if the text differs from the
 * content the memo had when it was opened.
 */
module MemoDetail {
  import opened Wrappers
  import opened AlertValues
  import opened Errors
  import opened Models
  import opened DocCollection
  import opened MemoQueries
  import opened FirestoreManager
  import opened MemoService

  class MemoDetailSession {
    const service: MemoService
    /** The memo handed over by the presenting screen; never refreshed afterwards. */
    const memo: Option<Memo>
    /** The listener this screen registered in `viewDidLoad`, if it registered one. */
    const registration: Option<Registration>
    /** `memoTextView.text`. */
    var text: string

    ghost predicate Valid()
      reads this, service, service.store
    {
      service.Valid() &&
      (registration.Some? <==> memo.Some? && memo.value.id.Some?) &&
      (registration.Some? ==> registration.value.memoId == memo.value.id.value)
    }

    /** `viewDidLoad`: listen only if the memo has an id, then show its content. */
    constructor Open(service: MemoService, memo: Option<Memo>)
      requires service.Valid()
      modifies service.store
      ensures Valid() && this.service == service && this.memo == memo
      ensures text == (if memo.Some? then memo.value.content else "")
      ensures memo.Some? && memo.value.id.Some? ==>
        registration.Some? && old(service.store.memoListener) != registration &&
        registration.value !in old(service.store.orphanedListeners) &&
        service.store.memoListener == registration &&
        service.store.orphanedListeners ==
          old(service.store.orphanedListeners) + (if old(service.store.memoListener).Some? then [old(service.store.memoListener).value] else [])
      ensures !(memo.Some? && memo.value.id.Some?) ==>
        service.store.memoListener == old(service.store.memoListener) &&
        service.store.orphanedListeners == old(service.store.orphanedListeners)
      ensures service.store.memos == old(service.store.memos) && service.store.users == old(service.store.users)
      ensures service.store.friends == old(service.store.friends) && service.store.currentUid == old(service.store.currentUid)
    {
      this.service := service;
      this.memo := memo;
      if memo.Some? && memo.value.id.Some? {
        var reg := service.StartListeningMemoUpdates(memo.value.id.value);
        registration := Some(reg);
      } else {
        registration := None;
      }
      text := if memo.Some? then memo.value.content else "";
    }

    /**
     * The listener delivers the memo's current state. A delivered memo
     * overwrites the text whatever it held; a failure leaves it alone (after
     * the service has reported it). Only this screen's own registration calls
     * it, and only while that registration is live: once removed, nothing is delivered.
     */
    method DeliverSnapshot(sdkError: Option<Error>) returns (reply: Reply<Memo>)
      requires Valid()
      modifies this
      ensures Valid()
      ensures var live := registration.Some? && service.store.IsLive(registration.value);
        (!live ==> reply == Silent && text == old(text)) &&
        (live ==> reply == service.ListenerReply(memo.value.id.value, sdkError)) &&
        (live && sdkError.None? && memo.value.id.value in service.store.memos.docs ==>
          text == service.store.memos.docs[memo.value.id.value].content) &&
        (live && !(sdkError.None? && memo.value.id.value in service.store.memos.docs) ==> text == old(text))
    {
      reply := Silent;
      if registration.Some? && service.store.IsLive(registration.value) {
        reply := service.ListenerReply(memo.value.id.value, sdkError);
        if reply.Completed? {
          text := reply.value.content;
        }
      }
    }

    /**
     * `textViewDidChange`: the new text and the memo as opened go to the
     * debounce. `fired` is the earlier save whose timer ran out before this
     * edit, written at its due time.
     */
    method TextDidChange(newText: string, now: int) returns (fired: seq<PendingSave>, reply: Reply<()>)
      requires Valid()
      modifies this, service, service.store
      ensures Valid()
      ensures text == newText
      ensures memo.Some? ==> (fired, service.pendingSave) == Replay(old(service.pendingSave), [Edit(memo.value, newText, now)])
      ensures memo.None? ==> fired == [] && service.pendingSave == old(service.pendingSave)
      ensures fired == [] ==> reply == Silent && service.store.memos == old(service.store.memos)
      ensures |fired| == 1 ==>
        service.store.memos == AfterSave(old(service.store.memos), fired[0]) &&
        reply == (if fired[0].memo.id.None? then Reported(Report(App(SomeError), FirestoreType)) else Silent)
      ensures service.friends == old(service.friends) && service.memos == old(service.memos)
      ensures service.store.users == old(service.store.users) && service.store.friends == old(service.store.friends)
      ensures service.store.currentUid == old(service.store.currentUid)
      ensures service.store.memoListener == old(service.store.memoListener)
      ensures service.store.orphanedListeners == old(service.store.orphanedListeners)
    {
      text := newText;
      fired, reply := [], Silent;
      if memo.Some? {
        fired, reply := service.DebounceTextUpdate(memo.value, text, now);
      }
    }

    /**
     * `viewWillDisappear`: stop listening, then `saveMemoIfNeeded`. The save
     * compares with the content the memo had when it was opened. A debounced
     * save still pending is not cancelled.
     */
    method ViewWillDisappear(now: int) returns (reply: Reply<()>)
      requires Valid()
      modifies service.store
      ensures Valid()
      ensures service.store.memoListener == None
      ensures service.store.orphanedListeners == old(service.store.orphanedListeners)
      ensures registration.Some? && registration.value !in old(service.store.orphanedListeners) ==>
        !service.store.IsLive(registration.value)
      ensures memo.Some? && text != memo.value.content ==>
        (memo.value.id.None? ==>
          reply == Reported(Report(App(SomeError), FirestoreType)) && service.store.memos == old(service.store.memos)) &&
        (memo.value.id.Some? ==>
          reply == Silent &&
          service.store.memos == old(service.store.memos).Put(memo.value.id.value, Memo(None, memo.value.name, memo.value.members, text, now)))
      ensures !(memo.Some? && text != memo.value.content) ==> reply == Silent && service.store.memos == old(service.store.memos)
      ensures service.pendingSave == old(service.pendingSave)
      ensures service.store.users == old(service.store.users) && service.store.friends == old(service.store.friends)
      ensures service.store.currentUid == old(service.store.currentUid)
    {
      service.StopListeningMemoUpdates();
      reply := Silent;
      if memo.Some? && text != memo.value.content {
        reply := service.SaveMemo(memo.value, text, now);
      }
    }
  }
}
