/** A MongoDB collection as the controllers see it: documents keyed by their
    ObjectId, with fresh ids handed out on insertion. Queries that scan the
    collection (`find`, `findOne`, `countDocuments`) enumerate the ids below
    `nextId`, so they visit documents in insertion order. */
module Collections {
  import opened Common

  class Collection<T> {
    var docs: map<Id, T>
    var nextId: Id

    /** Every stored id was handed out before, so `nextId` is always fresh. */
    ghost predicate Valid()
      reads this
    {
      forall id :: id in docs ==> id < nextId
    }

    constructor ()
      ensures Valid() && docs == map[] && nextId == 0
    {
      docs := map[];
      nextId := 0;
    }

    /** `Model.create(doc)` / `new Model(doc).save()`: store under a fresh id. */
    method Insert(d: T) returns (id: Id)
      requires Valid()
      modifies this
      ensures Valid() && nextId > old(nextId)
      ensures id == old(nextId) && id !in old(docs) && docs == old(docs)[id := d]
    {
      id := nextId;
      docs := docs[id := d];
      nextId := nextId + 1;
    }

    /** `doc.save()` on a document that was read from the collection. */
    method Replace(id: Id, d: T)
      requires Valid() && id in docs
      modifies this
      ensures Valid() && nextId == old(nextId)
      ensures docs == old(docs)[id := d]
    {
      docs := docs[id := d];
    }

    /** `findByIdAndDelete`: the document is gone (a hard delete). */
    method Remove(id: Id)
      requires Valid()
      modifies this
      ensures Valid() && nextId == old(nextId)
      ensures docs == old(docs) - {id}
    {
      docs := docs - {id};
    }
  }

  /** `findOne(filter)`: the first document below `bound`, in id order, that
      satisfies `p`. */
  function FindFirst<T>(docs: map<Id, T>, bound: nat, p: T -> bool): (r: Option<Id>)
    ensures r.Some? ==> r.value < bound && r.value in docs && p(docs[r.value])
    ensures r.Some? ==> forall j :: 0 <= j < r.value && j in docs ==> !p(docs[j])
    ensures r.None? ==> forall j :: 0 <= j < bound && j in docs ==> !p(docs[j])
  {
    if bound == 0 then None
    else
      var earlier := FindFirst(docs, bound - 1, p);
      if earlier.Some? then earlier
      else if bound - 1 in docs && p(docs[bound - 1]) then Some(bound - 1)
      else None
  }

  /** `find(filter)` in natural order: the ids below `bound` whose documents
      satisfy `p`, ascending. */
  function IdsWhere<T>(docs: map<Id, T>, bound: nat, p: T -> bool): (r: seq<Id>)
    ensures forall i :: 0 <= i < |r| ==> r[i] < bound && r[i] in docs && p(docs[r[i]])
    ensures forall j :: 0 <= j < bound && j in docs && p(docs[j]) ==> j in r
    ensures forall i, k :: 0 <= i < k < |r| ==> r[i] < r[k]
  {
    if bound == 0 then []
    else
      var earlier := IdsWhere(docs, bound - 1, p);
      if bound - 1 in docs && p(docs[bound - 1]) then earlier + [bound - 1] else earlier
  }

  /** `countDocuments(filter)`. */
  function CountWhere<T>(docs: map<Id, T>, bound: nat, p: T -> bool): nat {
    |IdsWhere(docs, bound, p)|
  }

  /** Over a valid collection, the enumeration finds every matching document:
      the query misses nothing that is stored. */
  lemma FindFirstComplete<T>(docs: map<Id, T>, bound: nat, p: T -> bool, id: Id)
    requires forall k :: k in docs ==> k < bound
    requires id in docs && p(docs[id])
    ensures FindFirst(docs, bound, p).Some?
    ensures id in IdsWhere(docs, bound, p)
  {
  }

  /** A query no stored document satisfies finds nothing. */
  lemma FindFirstMisses<T>(docs: map<Id, T>, bound: nat, p: T -> bool)
    requires forall k :: k in docs ==> !p(docs[k])
    ensures FindFirst(docs, bound, p).None?
  {
  }

  /** Two filters that agree on every document select the same ids. */
  lemma {:induction false} IdsWhereAgree<T>(docs: map<Id, T>, bound: nat, p: T -> bool, q: T -> bool)
    requires forall d :: p(d) == q(d)
    ensures IdsWhere(docs, bound, p) == IdsWhere(docs, bound, q)
  {
    if bound > 0 {
      IdsWhereAgree(docs, bound - 1, p, q);
    }
  }

  /** The ids below `bound` of the stored documents that satisfy `p`. */
  ghost function Matches<T>(docs: map<Id, T>, bound: nat, p: T -> bool): set<Id> {
    set j | j in docs && j < bound && p(docs[j])
  }

  lemma MatchesStep<T>(docs: map<Id, T>, bound: nat, p: T -> bool)
    requires bound > 0
    ensures bound - 1 !in Matches(docs, bound - 1, p)
    ensures Matches(docs, bound, p)
         == Matches(docs, bound - 1, p) + (if bound - 1 in docs && p(docs[bound - 1]) then {bound - 1} else {})
  {
  }

  /** A matching id set is counted exactly: the count is the number of
      distinct stored documents that satisfy the filter. */
  lemma {:induction false} CountIsCardinality<T>(docs: map<Id, T>, bound: nat, p: T -> bool)
    ensures CountWhere(docs, bound, p) == |Matches(docs, bound, p)|
  {
    if bound > 0 {
      CountIsCardinality(docs, bound - 1, p);
      MatchesStep(docs, bound, p);
    }
  }
}
