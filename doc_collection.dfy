/**
 * An in-memory stand-in for a Firestore collection: documents by id, plus the
 * order in which the backend lists them. A document may fail to decode into
 * the model type, which `data(as:)` reports as an error.
 */
module DocCollection {
  /** A stored document: either it decodes to a value, or `data(as:)` throws. */
  datatype Doc<T> = Decodable(value: T) | Undecodable

  /** `order` names every key of the collection exactly once. */
  ghost predicate Lists(order: seq<string>, keys: set<string>) {
    (forall i, j :: 0 <= i < j < |order| ==> order[i] != order[j]) &&
    (forall k :: k in order <==> k in keys)
  }

  datatype Collection<T> = Collection(docs: map<string, T>, order: seq<string>) {
    ghost predicate Valid() {
      Lists(order, docs.Keys)
    }

    /** `setData` on document `k`: overwrites an existing document, lists a new one last. */
    function Put(k: string, v: T): (c: Collection<T>)
      ensures c.docs == docs[k := v]
      ensures k in docs ==> c.order == order
      ensures k !in docs ==> c.order == order + [k]
      ensures Valid() ==> c.Valid()
    {
      if k in docs then Collection(docs[k := v], order) else Collection(docs[k := v], order + [k])
    }

    /** The documents as the backend delivers them: (document id, document) in listing order. */
    function Listing(): (s: seq<(string, T)>)
      requires Valid()
      ensures |s| == |order|
      ensures forall i :: 0 <= i < |s| ==> s[i].0 == order[i] && s[i].1 == docs[order[i]]
    {
      seq(|order|, i requires 0 <= i < |order| => (order[i], docs[order[i]]))
    }

    /** The documents alone, in listing order. */
    function Values(): (s: seq<T>)
      requires Valid()
      ensures |s| == |order|
      ensures forall i :: 0 <= i < |s| ==> s[i] == docs[order[i]]
    {
      seq(|order|, i requires 0 <= i < |order| => docs[order[i]])
    }
  }

  function Empty<T>(): (c: Collection<T>)
    ensures c.Valid() && c.docs == map[]
  {
    Collection(map[], [])
  }

  /** Every stored document is listed, and only stored documents are. */
  lemma ListingHasEveryDocument<T>(c: Collection<T>, k: string)
    requires c.Valid() && k in c.docs
    ensures (k, c.docs[k]) in c.Listing()
    ensures c.docs[k] in c.Values()
  {
    var i :| 0 <= i < |c.order| && c.order[i] == k;
    assert c.Listing()[i] == (k, c.docs[k]);
    assert c.Values()[i] == c.docs[k];
  }

  /** The values of the documents that decode, in order. */
  function Decoded<T>(docs: seq<Doc<T>>): seq<T> {
    if docs == [] then []
    else Decoded(docs[..|docs| - 1]) + (match docs[|docs| - 1] case Decodable(v) => [v] case Undecodable => [])
  }

  /** How many documents fail to decode. */
  function UndecodableCount<T>(docs: seq<Doc<T>>): nat {
    if docs == [] then 0
    else UndecodableCount(docs[..|docs| - 1]) + (if docs[|docs| - 1].Undecodable? then 1 else 0)
  }

  /** A value is among the decoded ones exactly when a document decodes to it. */
  lemma {:induction false} DecodedMember<T>(docs: seq<Doc<T>>, x: T)
    ensures x in Decoded(docs) <==> Decodable(x) in docs
  {
    if docs != [] {
      var init := docs[..|docs| - 1];
      DecodedMember(init, x);
      assert docs == init + [docs[|docs| - 1]];
    }
  }

  /** Decoding drops exactly the undecodable documents. */
  lemma {:induction false} DecodedLength<T>(docs: seq<Doc<T>>)
    ensures |Decoded(docs)| + UndecodableCount(docs) == |docs|
  {
    if docs != [] {
      DecodedLength(docs[..|docs| - 1]);
    }
  }
}
