/** The index builder: an inverted index maps each term to the set of the
    documents whose text contains it. */
module InvertedIndex {
  import opened Tokenizer

  type DocId = string

  type Index = map<string, set<DocId>>

  /** `index.get(w, set())`: the posting set of w, empty when w is not
      indexed. */
  function Lookup(index: Index, w: string): (s: set<DocId>)
    ensures w !in index ==> s == {}
  {
    if w in index then index[w] else {}
  }

  /** Every document id that occurs in some posting set. */
  function Postings(index: Index): set<DocId> {
    set w, d | w in index && d in index[w] :: d
  }

  /** A looked-up posting set only names documents of the index. */
  lemma LookupWithinPostings(index: Index, w: string)
    ensures Lookup(index, w) <= Postings(index)
  {
    if w in index {
      forall d | d in index[w]
        ensures d in Postings(index)
      {
      }
    }
  }

  /** index is the inverted index of docs: d is posted under w exactly when w is
      a term of d's text, and no term is kept with an empty posting set. */
  ghost predicate IsIndexOf(index: Index, docs: map<DocId, string>) {
    && (forall w, d {:trigger d in Lookup(index, w)} :: d in Lookup(index, w) <==> d in docs && w in Tokenize(docs[d]))
    && (forall w :: w in index ==> index[w] != {})
  }

  /** Adds document d to the posting set of each of its terms, one term at a
      time; no other posting set changes. */
  method AddDocument(index0: Index, d: DocId, words: set<string>) returns (index: Index)
    requires forall w :: w in index0 ==> index0[w] != {}
    ensures forall w, e :: e in Lookup(index, w) <==> e in Lookup(index0, w) || (e == d && w in words)
    ensures forall w :: w in index ==> index[w] != {}
  {
    index := index0;
    var rest := words;
    while rest != {}
      invariant rest <= words
      invariant forall w, e :: e in Lookup(index, w) <==> e in Lookup(index0, w) || (e == d && w in words && w !in rest)
      invariant forall w :: w in index ==> index[w] != {}
      decreases rest
    {
      var w :| w in rest;
      ghost var before := index;
      index := index[w := Lookup(index, w) + {d}];
      rest := rest - {w};
      assert forall x :: x != w ==> Lookup(index, x) == Lookup(before, x);
    }
  }

  /** Builds the index one document at a time (the order in which the
      documents and their terms are visited does not matter). */
  method BuildInvertedIndex(docs: map<DocId, string>) returns (index: Index)
    ensures IsIndexOf(index, docs)
    ensures forall w :: w in index ==> index[w] <= docs.Keys
    ensures Postings(index) <= docs.Keys
    ensures docs == map[] ==> index == map[]
  {
    index := map[];
    var pending := docs.Keys;
    ghost var done: set<DocId> := {};
    while pending != {}
      invariant pending !! done && pending + done == docs.Keys
      invariant forall w, e :: e in Lookup(index, w) <==> e in done && w in Tokenize(docs[e])
      invariant forall w :: w in index ==> index[w] != {}
      decreases pending
    {
      var d :| d in pending;
      index := AddDocument(index, d, Tokenize(docs[d]));
      done := done + {d};
      pending := pending - {d};
    }
    IndexWithinDocs(index, docs);
  }

  /** The posting sets of an inverted index only name documents of the
      collection, and an empty collection has an empty index. */
  lemma IndexWithinDocs(index: Index, docs: map<DocId, string>)
    requires IsIndexOf(index, docs)
    ensures forall w :: w in index ==> index[w] <= docs.Keys
    ensures Postings(index) <= docs.Keys
    ensures docs == map[] ==> index == map[]
  {
    forall w | w in index
      ensures index[w] <= docs.Keys
    {
      assert Lookup(index, w) == index[w];
    }
  }

  /** The inverted index of a collection is unique: building it twice, in any
      order, gives the same map. */
  lemma {:induction false} IndexIsUnique(docs: map<DocId, string>, i1: Index, i2: Index)
    requires IsIndexOf(i1, docs) && IsIndexOf(i2, docs)
    ensures i1 == i2
  {
    forall w | w in i1 || w in i2
      ensures w in i1 && w in i2 && i1[w] == i2[w]
    {
      forall d
        ensures d in Lookup(i1, w) <==> d in Lookup(i2, w)
      {
      }
      if w in i1 {
        var d :| d in i1[w];
        assert d in Lookup(i1, w);
        assert d in Lookup(i2, w);
      }
      if w in i2 {
        var d :| d in i2[w];
        assert d in Lookup(i2, w);
        assert d in Lookup(i1, w);
      }
      assert Lookup(i1, w) == Lookup(i2, w);
    }
    assert i1.Keys == i2.Keys;
  }

  /** A term that occurs in no document has an empty posting set. */
  lemma UnknownTermHasNoPostings(index: Index, docs: map<DocId, string>, w: string)
    requires IsIndexOf(index, docs)
    requires forall d :: d in docs ==> w !in Tokenize(docs[d])
    ensures w !in index && Lookup(index, w) == {}
  {
    forall d
      ensures d !in Lookup(index, w)
    {
    }
    assert Lookup(index, w) == {};
  }
}
