/**
 * The pure side of the memo queries in Managers/FirestoreManager.swift: the
 * server-side filters (`arrayContains`, `arrayContainsAny`), the
 * `order(by: latestUpdate, descending: true)` ordering, and the client step
 * that copies each document id into the decoded memo.
 */
module MemoQueries {
  import opened Wrappers
  import opened Models

  /** A listed memo document: (document id, stored memo). */
  type Snapshot = (string, Memo)

  /**
   * A condition on a memo's members: the two `whereField` queries, and the
   * client-side `allSatisfy` of `filterMemos`.
   */
  datatype MembersFilter =
    | ArrayContains(uid: string)          // `whereField(members, arrayContains: uid)`
    | ArrayContainsAny(uids: seq<string>) // `whereField(members, arrayContainsAny: uids)`
    | ContainsEvery(every: seq<string>)   // `uids.allSatisfy { memo.members.contains($0) }`

  predicate Matches(m: Memo, f: MembersFilter) {
    match f
    case ArrayContains(uid) => uid in m.members
    case ArrayContainsAny(uids) => exists u :: u in uids && u in m.members
    case ContainsEvery(uids) => forall u :: u in uids ==> u in m.members
  }

  /** The snapshots whose memo matches `f`, in listing order. */
  function Where(s: seq<Snapshot>, f: MembersFilter): (r: seq<Snapshot>)
    ensures |r| <= |s|
  {
    if s == [] then []
    else Where(s[..|s| - 1], f) + (if Matches(s[|s| - 1].1, f) then [s[|s| - 1]] else [])
  }

  /** A snapshot survives the filter exactly when it was listed and its memo passes. */
  lemma {:induction false} WhereMember(s: seq<Snapshot>, f: MembersFilter, x: Snapshot)
    ensures x in Where(s, f) <==> x in s && Matches(x.1, f)
  {
    if s != [] {
      var init := s[..|s| - 1];
      WhereMember(init, f, x);
      assert s == init + [s[|s| - 1]];
    }
  }

  /** Filtering keeps the listing order: it distributes over concatenation. */
  lemma {:induction false} WhereAppend(a: seq<Snapshot>, b: seq<Snapshot>, f: MembersFilter)
    ensures Where(a + b, f) == Where(a, f) + Where(b, f)
  {
    if b == [] {
      assert a + b == a;
    } else {
      var init := b[..|b| - 1];
      WhereAppend(a, init, f);
      assert (a + b)[..|a + b| - 1] == a + init;
      assert (a + b)[|a + b| - 1] == b[|b| - 1];
    }
  }

  /** `memo.id = snapshot.documentID` on a decoded memo. */
  function Tagged(p: Snapshot): (m: Memo)
    ensures m.id == Some(p.0)
    ensures m.name == p.1.name && m.members == p.1.members
    ensures m.content == p.1.content && m.latestUpdate == p.1.latestUpdate
  {
    p.1.(id := Some(p.0))
  }

  /** The memos a query completes with: each snapshot's memo carrying its document id. */
  function WithIds(s: seq<Snapshot>): (r: seq<Memo>)
    ensures |r| == |s|
    ensures forall i :: 0 <= i < |s| ==> r[i] == Tagged(s[i])
  {
    seq(|s|, i requires 0 <= i < |s| => Tagged(s[i]))
  }

  /** A memo is in the completed list exactly when some listed snapshot carries it. */
  lemma WithIdsMember(s: seq<Snapshot>, m: Memo)
    ensures m in WithIds(s) <==> exists p :: p in s && Tagged(p) == m
  {
    if m in WithIds(s) {
      var i :| 0 <= i < |s| && WithIds(s)[i] == m;
      assert s[i] in s;
    }
    if exists p :: p in s && Tagged(p) == m {
      var p :| p in s && Tagged(p) == m;
      var i :| 0 <= i < |s| && s[i] == p;
      assert WithIds(s)[i] == m;
    }
  }

  /** Newest first: `latestUpdate` never increases along the sequence. */
  predicate IsNewestFirst(s: seq<Snapshot>) {
    forall i, j :: 0 <= i < j < |s| ==> s[i].1.latestUpdate >= s[j].1.latestUpdate
  }

  /** Inserts `x` after every snapshot at least as recent, so equal times keep their order. */
  function InsertByLatest(t: seq<Snapshot>, x: Snapshot): (r: seq<Snapshot>)
    ensures |r| == |t| + 1
  {
    if t == [] then [x]
    else if t[0].1.latestUpdate < x.1.latestUpdate then [x] + t
    else [t[0]] + InsertByLatest(t[1..], x)
  }

  /** `order(by: latestUpdate, descending: true)` over the listed snapshots. */
  function NewestFirst(s: seq<Snapshot>): (r: seq<Snapshot>)
    ensures |r| == |s|
  {
    if s == [] then [] else InsertByLatest(NewestFirst(s[..|s| - 1]), s[|s| - 1])
  }

  /** No snapshot of `s` was updated after `v`. */
  predicate NoneAfter(s: seq<Snapshot>, v: int) {
    forall k :: 0 <= k < |s| ==> s[k].1.latestUpdate <= v
  }

  lemma {:induction false} InsertByLatestPermutes(t: seq<Snapshot>, x: Snapshot)
    ensures multiset(InsertByLatest(t, x)) == multiset(t) + multiset{x}
  {
    if t != [] && t[0].1.latestUpdate >= x.1.latestUpdate {
      InsertByLatestPermutes(t[1..], x);
      assert t == [t[0]] + t[1..];
    }
  }

  lemma {:induction false} InsertByLatestBounded(t: seq<Snapshot>, x: Snapshot, v: int)
    requires NoneAfter(t, v) && x.1.latestUpdate <= v
    ensures NoneAfter(InsertByLatest(t, x), v)
  {
    if t != [] && t[0].1.latestUpdate >= x.1.latestUpdate {
      InsertByLatestBounded(t[1..], x, v);
    }
  }

  /** Prefixing a snapshot at least as recent as everything after it keeps newest-first order. */
  lemma ConsNewestFirst(a: Snapshot, rest: seq<Snapshot>)
    requires IsNewestFirst(rest) && NoneAfter(rest, a.1.latestUpdate)
    ensures IsNewestFirst([a] + rest)
  {
    var r := [a] + rest;
    forall i, j | 0 <= i < j < |r|
      ensures r[i].1.latestUpdate >= r[j].1.latestUpdate
    {
      assert r[j] == rest[j - 1];
      if i > 0 {
        assert r[i] == rest[i - 1];
      }
    }
  }

  lemma {:induction false} InsertByLatestSorts(t: seq<Snapshot>, x: Snapshot)
    requires IsNewestFirst(t)
    ensures IsNewestFirst(InsertByLatest(t, x))
  {
    if t != [] {
      if t[0].1.latestUpdate < x.1.latestUpdate {
        ConsNewestFirst(x, t);
      } else {
        InsertByLatestSorts(t[1..], x);
        assert NoneAfter(t[1..], t[0].1.latestUpdate) by {
          forall k | 0 <= k < |t[1..]|
            ensures t[1..][k].1.latestUpdate <= t[0].1.latestUpdate
          {
            assert t[1..][k] == t[k + 1];
          }
        }
        InsertByLatestBounded(t[1..], x, t[0].1.latestUpdate);
        ConsNewestFirst(t[0], InsertByLatest(t[1..], x));
      }
    }
  }

  /** The ordering is a permutation of the listing that puts the most recent update first. */
  lemma {:induction false} NewestFirstSortsAndPermutes(s: seq<Snapshot>)
    ensures IsNewestFirst(NewestFirst(s))
    ensures multiset(NewestFirst(s)) == multiset(s)
  {
    if s != [] {
      var init := s[..|s| - 1];
      NewestFirstSortsAndPermutes(init);
      InsertByLatestSorts(NewestFirst(init), s[|s| - 1]);
      InsertByLatestPermutes(NewestFirst(init), s[|s| - 1]);
      assert s == init + [s[|s| - 1]];
    }
  }

  /**
   * `getLatestMemosForCurrentUser(uid:)` completes with exactly the listed memos
   * whose members contain `uid`, each carrying its id, most recently updated first.
   */
  lemma LatestMemosAreTheMembersNewestFirst(s: seq<Snapshot>, uid: string)
    ensures var r := WithIds(NewestFirst(Where(s, ArrayContains(uid))));
      (forall i, j :: 0 <= i < j < |r| ==> r[i].latestUpdate >= r[j].latestUpdate) &&
      (forall m :: m in r ==> uid in m.members) &&
      (forall p :: p in s ==> (Tagged(p) in r <==> uid in p.1.members))
  {
    var f := ArrayContains(uid);
    var w := Where(s, f);
    var n := NewestFirst(w);
    var r := WithIds(n);
    NewestFirstSortsAndPermutes(w);
    forall m | m in r
      ensures uid in m.members
    {
      WithIdsMember(n, m);
      var p :| p in n && Tagged(p) == m;
      assert p in multiset(w);
      WhereMember(s, f, p);
    }
    forall p | p in s
      ensures Tagged(p) in r <==> uid in p.1.members
    {
      WithIdsMember(n, Tagged(p));
      WhereMember(s, f, p);
      if uid in p.1.members {
        assert p in multiset(n);
      }
    }
  }

  /**
   * `getMemosIncludingAnyOfUserUids(_:)` completes with exactly the listed memos
   * that share at least one member with `uids`, in listing order.
   */
  lemma AnyOfMemosShareAMember(s: seq<Snapshot>, uids: seq<string>)
    ensures var r := WithIds(Where(s, ArrayContainsAny(uids)));
      (forall m :: m in r ==> Matches(m, ArrayContainsAny(uids))) &&
      (forall p :: p in s ==> (Tagged(p) in r <==> Matches(p.1, ArrayContainsAny(uids))))
  {
    var f := ArrayContainsAny(uids);
    var w := Where(s, f);
    forall m | m in WithIds(w)
      ensures Matches(m, ArrayContainsAny(uids))
    {
      WithIdsMember(w, m);
      var p :| p in w && Tagged(p) == m;
      WhereMember(s, f, p);
    }
    forall p | p in s
      ensures Tagged(p) in WithIds(w) <==> Matches(p.1, ArrayContainsAny(uids))
    {
      WithIdsMember(w, Tagged(p));
      WhereMember(s, f, p);
    }
  }
}
