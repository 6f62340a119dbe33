/**
 * The App component's `filteredDocs`: the document list narrowed to one type,
 * then to the documents matching the search box, then sorted by the chosen
 * order. Nothing here changes the list it is given.
 */
module DocQuery {
  import opened Text
  import opened Calendar
  import opened Sorting
  import opened DocumentsModel

  /** The type filter; "All" lets every document through. */
  function OfType(docs: seq<Doc>, docType: string): (r: seq<Doc>)
    ensures |r| <= |docs|
    ensures multiset(r) <= multiset(docs)
  {
    if docs == [] then []
    else
      assert docs == [docs[0]] + docs[1..];
      (if docType == "All" || docs[0].docType == docType then [docs[0]] else []) + OfType(docs[1..], docType)
  }

  /** One step of the type filter on a non-empty list. */
  lemma OfTypeCons(s: seq<Doc>, docType: string)
    requires s != []
    ensures OfType(s, docType) == (if docType == "All" || s[0].docType == docType then [s[0]] else []) + OfType(s[1..], docType)
  {
  }

  /** The type filter keeps the order of what it keeps: it distributes over concatenation. */
  lemma {:induction false} OfTypeAppend(a: seq<Doc>, b: seq<Doc>, docType: string)
    ensures OfType(a + b, docType) == OfType(a, docType) + OfType(b, docType)
  {
    if a == [] {
      assert a + b == b;
    } else {
      var head := if docType == "All" || a[0].docType == docType then [a[0]] else [];
      OfTypeAppend(a[1..], b, docType);
      var x, y := OfType(a[1..], docType), OfType(b, docType);
      assert OfType(a + b, docType) == head + (x + y) by {
        AppendHeadTail(a, b);
        OfTypeCons(a + b, docType);
      }
      assert OfType(a, docType) == head + x by {
        OfTypeCons(a, docType);
      }
      AppendAssoc(head, x, y);
    }
  }

  /** The query the search box yields: trimmed, then lower-cased. */
  function Query(search: string): string {
    ToLower(Trim(search))
  }

  /** Some tag of the document contains `q`, compared lower-cased. */
  predicate TagMatches(tags: seq<string>, q: string) {
    exists t :: t in tags && Contains(ToLower(t), q)
  }

  /** A document matches a non-empty query through its name, its owner or one of its tags. */
  predicate Matches(d: Doc, q: string) {
    Contains(ToLower(d.name), q) || Contains(ToLower(d.owner), q) || TagMatches(d.tags, q)
  }

  function Matching(docs: seq<Doc>, q: string): (r: seq<Doc>)
    ensures |r| <= |docs|
    ensures multiset(r) <= multiset(docs)
  {
    if docs == [] then []
    else
      assert docs == [docs[0]] + docs[1..];
      (if Matches(docs[0], q) then [docs[0]] else []) + Matching(docs[1..], q)
  }

  /** The search keeps the order of what it keeps: it distributes over concatenation. */
  lemma {:induction false} MatchingAppend(a: seq<Doc>, b: seq<Doc>, q: string)
    ensures Matching(a + b, q) == Matching(a, q) + Matching(b, q)
  {
    if a == [] {
      assert a + b == b;
    } else {
      var head := if Matches(a[0], q) then [a[0]] else [];
      MatchingAppend(a[1..], b, q);
      var x, y := Matching(a[1..], q), Matching(b, q);
      assert Matching(a + b, q) == head + (x + y) by {
        AppendHeadTail(a, b);
      }
      assert Matching(a, q) == head + x;
      AppendAssoc(head, x, y);
    }
  }

  /** The search filter: a blank query keeps everything. */
  function Search(docs: seq<Doc>, search: string): seq<Doc> {
    if Query(search) == [] then docs else Matching(docs, Query(search))
  }

  // ------------------------------------------------------------------
  // The comparators, as "may stay before"

  /** `updated_desc`: newer first. */
  predicate UpdatedDesc(a: Doc, b: Doc) {
    AtOrBefore(b.updated, a.updated)
  }

  /** `updated_asc`: older first. */
  predicate UpdatedAsc(a: Doc, b: Doc) {
    AtOrBefore(a.updated, b.updated)
  }

  /** `name_asc`. */
  predicate NameAsc(a: Doc, b: Doc) {
    StrLe(a.name, b.name)
  }

  /** `name_desc`. */
  predicate NameDesc(a: Doc, b: Doc) {
    StrLe(b.name, a.name)
  }

  /** Any other `sortBy`: the comparator answers 0 for every pair. */
  predicate Unordered(a: Doc, b: Doc) {
    true
  }

  function OrderFor(sortBy: string): (Doc, Doc) -> bool {
    if sortBy == "updated_desc" then UpdatedDesc
    else if sortBy == "updated_asc" then UpdatedAsc
    else if sortBy == "name_asc" then NameAsc
    else if sortBy == "name_desc" then NameDesc
    else Unordered
  }

  /** `filteredDocs`. */
  function FilteredDocs(docs: seq<Doc>, docType: string, search: string, sortBy: string): seq<Doc> {
    StableSort(OrderFor(sortBy), Search(OfType(docs, docType), search))
  }

  // ------------------------------------------------------------------
  // What the pipeline promises

  lemma {:induction false} OfTypeMembers(docs: seq<Doc>, docType: string, d: Doc)
    ensures d in OfType(docs, docType) <==> d in docs && (docType == "All" || d.docType == docType)
  {
    if docs != [] {
      OfTypeMembers(docs[1..], docType, d);
      assert docs == [docs[0]] + docs[1..];
    }
  }

  lemma {:induction false} MatchingMembers(docs: seq<Doc>, q: string, d: Doc)
    ensures d in Matching(docs, q) <==> d in docs && Matches(d, q)
  {
    if docs != [] {
      MatchingMembers(docs[1..], q, d);
      assert docs == [docs[0]] + docs[1..];
    }
  }

  /** The query is empty exactly when the search box holds only white space. */
  lemma QueryEmpty(search: string)
    ensures Query(search) == [] <==> AllSpace(search)
  {
    TrimEmpty(search);
    assert |Query(search)| == |Trim(search)|;
  }

  /** A search box holding only white space keeps every document, in order. */
  lemma BlankSearchKeepsAll(docs: seq<Doc>, search: string)
    requires AllSpace(search)
    ensures Search(docs, search) == docs
  {
    QueryEmpty(search);
  }

  /** Otherwise a document is kept exactly when the query occurs in its lower-cased name, owner or some tag. */
  lemma SearchKeepsMatches(docs: seq<Doc>, search: string, d: Doc)
    requires !AllSpace(search)
    ensures d in Search(docs, search) <==>
      d in docs &&
      (|| (exists i :: OccursAt(ToLower(d.name), Query(search), i))
       || (exists i :: OccursAt(ToLower(d.owner), Query(search), i))
       || (exists t :: t in d.tags && Contains(ToLower(t), Query(search))))
  {
    QueryEmpty(search);
    MatchingMembers(docs, Query(search), d);
    ContainsIff(ToLower(d.name), Query(search));
    ContainsIff(ToLower(d.owner), Query(search));
  }

  /** The search keeps the order of what it keeps: when every document matches, nothing changes. */
  lemma {:induction false} MatchingAllKeepsOrder(docs: seq<Doc>, q: string)
    requires forall k :: 0 <= k < |docs| ==> Matches(docs[k], q)
    ensures Matching(docs, q) == docs
  {
    if docs != [] {
      MatchingAllKeepsOrder(docs[1..], q);
    }
  }

  lemma UpdatedDescOrders()
    ensures TotalPreorder(UpdatedDesc)
  {
  }

  lemma UpdatedAscOrders()
    ensures TotalPreorder(UpdatedAsc)
  {
  }

  lemma NameAscOrders()
    ensures TotalPreorder(NameAsc)
  {
    forall a: Doc, b: Doc ensures NameAsc(a, b) || NameAsc(b, a) {
      StrLeTotal(a.name, b.name);
    }
    forall a: Doc, b: Doc, c: Doc | NameAsc(a, b) && NameAsc(b, c) ensures NameAsc(a, c) {
      StrLeTransitive(a.name, b.name, c.name);
    }
  }

  lemma NameDescOrders()
    ensures TotalPreorder(NameDesc)
  {
    forall a: Doc, b: Doc ensures NameDesc(a, b) || NameDesc(b, a) {
      StrLeTotal(a.name, b.name);
    }
    forall a: Doc, b: Doc, c: Doc | NameDesc(a, b) && NameDesc(b, c) ensures NameDesc(a, c) {
      StrLeTransitive(c.name, b.name, a.name);
    }
  }

  /** Every comparator the view can choose is a total preorder. */
  lemma OrderForOrders(sortBy: string)
    ensures TotalPreorder(OrderFor(sortBy))
  {
    UpdatedDescOrders();
    UpdatedAscOrders();
    NameAscOrders();
    NameDescOrders();
  }

  /** Every listed document comes from `docs` and has the chosen type, unless that is "All". */
  lemma FilteredFromDocs(docs: seq<Doc>, docType: string, search: string, sortBy: string, d: Doc)
    requires d in FilteredDocs(docs, docType, search, sortBy)
    ensures d in docs && (docType == "All" || d.docType == docType)
  {
    var typed := OfType(docs, docType);
    assert d in multiset(Search(typed, search));
    if Query(search) != [] {
      MatchingMembers(typed, Query(search), d);
    }
    OfTypeMembers(docs, docType, d);
  }

  /** The result is a permutation of the filtered documents, so no longer than `docs`. */
  lemma FilteredIsPermutation(docs: seq<Doc>, docType: string, search: string, sortBy: string)
    ensures multiset(FilteredDocs(docs, docType, search, sortBy)) == multiset(Search(OfType(docs, docType), search))
    ensures multiset(FilteredDocs(docs, docType, search, sortBy)) <= multiset(docs)
    ensures |FilteredDocs(docs, docType, search, sortBy)| <= |docs|
  {
  }

  /** `updated_desc` lists newest first. */
  lemma FilteredNewestFirst(docs: seq<Doc>, docType: string, search: string)
    ensures var r := FilteredDocs(docs, docType, search, "updated_desc");
      forall i, j :: 0 <= i < j < |r| ==> AtOrBefore(r[j].updated, r[i].updated)
  {
    UpdatedDescOrders();
    StableSortSorted(UpdatedDesc, Search(OfType(docs, docType), search));
  }

  /** `updated_asc` lists oldest first. */
  lemma FilteredOldestFirst(docs: seq<Doc>, docType: string, search: string)
    ensures var r := FilteredDocs(docs, docType, search, "updated_asc");
      forall i, j :: 0 <= i < j < |r| ==> AtOrBefore(r[i].updated, r[j].updated)
  {
    UpdatedAscOrders();
    StableSortSorted(UpdatedAsc, Search(OfType(docs, docType), search));
  }

  /** `name_asc` orders by name, ascending. */
  lemma FilteredByNameAsc(docs: seq<Doc>, docType: string, search: string)
    ensures var r := FilteredDocs(docs, docType, search, "name_asc");
      forall i, j :: 0 <= i < j < |r| ==> StrLe(r[i].name, r[j].name)
  {
    NameAscOrders();
    StableSortSorted(NameAsc, Search(OfType(docs, docType), search));
  }

  /** `name_desc` orders by name, descending. */
  lemma FilteredByNameDesc(docs: seq<Doc>, docType: string, search: string)
    ensures var r := FilteredDocs(docs, docType, search, "name_desc");
      forall i, j :: 0 <= i < j < |r| ==> StrLe(r[j].name, r[i].name)
  {
    NameDescOrders();
    StableSortSorted(NameDesc, Search(OfType(docs, docType), search));
  }

  /** Any other `sortBy` leaves the filtered documents in list order. */
  lemma FilteredUnsortedKeepsOrder(docs: seq<Doc>, docType: string, search: string, sortBy: string)
    requires sortBy !in {"updated_desc", "updated_asc", "name_asc", "name_desc"}
    ensures FilteredDocs(docs, docType, search, sortBy) == Search(OfType(docs, docType), search)
  {
    SortedUnchanged(Unordered, Search(OfType(docs, docType), search));
  }

  /** Documents the chosen order cannot tell apart keep their list order. */
  lemma FilteredIsStable(docs: seq<Doc>, docType: string, search: string, sortBy: string, p: Doc)
    ensures EqualTo(OrderFor(sortBy), p, FilteredDocs(docs, docType, search, sortBy))
         == EqualTo(OrderFor(sortBy), p, Search(OfType(docs, docType), search))
  {
    OrderForOrders(sortBy);
    StableSortIsStable(OrderFor(sortBy), p, Search(OfType(docs, docType), search));
  }
}
