/** The retriever: a first-match linear scan of the store that compares the
    lower-cased query with each lower-cased title. */
module Retriever {
  import opened Text
  import opened Documents

  /** The test applied to one record: the lower-cased query is a substring of
      the lower-cased title. The content is never looked at, and a query
      longer than the title never matches. */
  predicate Matches(query: string, d: Doc): (r: bool)
    ensures r ==> |query| <= |d.title|
  {
    Contains(Lower(query), Lower(d.title))
  }

  /** `k` is the position of the first record of `docs` that matches `query`. */
  ghost predicate IsFirstMatch(docs: seq<Doc>, query: string, k: int) {
    && 0 <= k < |docs|
    && Matches(query, docs[k])
    && forall j :: 0 <= j < k ==> !Matches(query, docs[j])
  }

  /** Retrieval over a given list of records: the content of the first record
      whose title matches, or the sentinel when none does. Whatever it returns
      is the sentinel or the content of one of the records. */
  function Retrieve(docs: seq<Doc>, query: string): (r: string)
    ensures r == NotFound || exists k :: 0 <= k < |docs| && r == docs[k].content
  {
    if docs == [] then NotFound
    else if Matches(query, docs[0]) then docs[0].content
    else Retrieve(docs[1..], query)
  }

  /** `retrieve_doc`: the scan over the fixed store, returning early on the
      first match. It only reads the store. */
  method RetrieveDoc(query: string) returns (r: string)
    ensures r == Retrieve(Store, query)
  {
    var i := 0;
    while i < |Store|
      invariant 0 <= i <= |Store|
      invariant Retrieve(Store[i..], query) == Retrieve(Store, query)
    {
      if Matches(query, Store[i]) {
        return Store[i].content;
      }
      assert Store[i..][1..] == Store[i + 1..];
      i := i + 1;
    }
    return NotFound;
  }

  /** When some title matches, the result is the content of the first such
      record; later matches are ignored. */
  lemma {:induction false} RetrieveFirstMatch(docs: seq<Doc>, query: string, k: int)
    requires IsFirstMatch(docs, query, k)
    ensures Retrieve(docs, query) == docs[k].content
  {
    if k > 0 {
      assert !Matches(query, docs[0]);
      assert forall j :: 0 <= j < k - 1 ==> docs[1..][j] == docs[j + 1];
      RetrieveFirstMatch(docs[1..], query, k - 1);
    }
  }

  /** When no title matches, the result is exactly the sentinel. */
  lemma {:induction false} RetrieveNoMatch(docs: seq<Doc>, query: string)
    requires forall k :: 0 <= k < |docs| ==> !Matches(query, docs[k])
    ensures Retrieve(docs, query) == NotFound
  {
    if docs != [] {
      assert forall k :: 0 <= k < |docs| - 1 ==> docs[1..][k] == docs[k + 1];
      RetrieveNoMatch(docs[1..], query);
    }
  }

  /** When some title matches, there is a first matching record and the result
      is its content. */
  lemma {:induction false} RetrieveSomeMatch(docs: seq<Doc>, query: string, m: int)
    requires 0 <= m < |docs| && Matches(query, docs[m])
    ensures exists k :: k <= m && IsFirstMatch(docs, query, k) && Retrieve(docs, query) == docs[k].content
  {
    if Matches(query, docs[0]) {
      assert IsFirstMatch(docs, query, 0);
    } else {
      assert docs[1..][m - 1] == docs[m];
      RetrieveSomeMatch(docs[1..], query, m - 1);
      var k' :| k' <= m - 1 && IsFirstMatch(docs[1..], query, k') && Retrieve(docs[1..], query) == docs[1..][k'].content;
      assert forall j :: 0 < j <= k' ==> docs[j] == docs[1..][j - 1];
      assert IsFirstMatch(docs, query, k' + 1);
    }
  }

  /** Queries that differ only in the case of ASCII letters give the same
      result. */
  lemma {:induction false} RetrieveIgnoresQueryCase(docs: seq<Doc>, q1: string, q2: string)
    requires SameUpToCase(q1, q2)
    ensures Retrieve(docs, q1) == Retrieve(docs, q2)
  {
    SameUpToCaseLower(q1, q2);
    if docs != [] {
      RetrieveIgnoresQueryCase(docs[1..], q1, q2);
    }
  }

  /** Stores whose titles differ only in the case of ASCII letters, with the
      same contents, give the same result. */
  lemma {:induction false} RetrieveIgnoresTitleCase(docs1: seq<Doc>, docs2: seq<Doc>, query: string)
    requires |docs1| == |docs2|
    requires forall k :: 0 <= k < |docs1| ==>
      SameUpToCase(docs1[k].title, docs2[k].title) && docs1[k].content == docs2[k].content
    ensures Retrieve(docs1, query) == Retrieve(docs2, query)
  {
    if docs1 != [] {
      SameUpToCaseLower(docs1[0].title, docs2[0].title);
      assert forall k :: 0 <= k < |docs1| - 1 ==> docs1[1..][k] == docs1[k + 1] && docs2[1..][k] == docs2[k + 1];
      RetrieveIgnoresTitleCase(docs1[1..], docs2[1..], query);
    }
  }

  /** The empty query is a substring of every title, so with a non-empty list
      it selects the first record. */
  lemma RetrieveEmptyQuery(docs: seq<Doc>)
    requires docs != []
    ensures Retrieve(docs, "") == docs[0].content
  {
  }

  /** On the store, the sentinel comes back exactly when no title matches:
      no stored content is the sentinel text. */
  lemma StoreSentinelIffNoMatch(query: string)
    ensures Retrieve(Store, query) == NotFound <==> forall k :: 0 <= k < |Store| ==> !Matches(query, Store[k])
  {
    if m :| 0 <= m < |Store| && Matches(query, Store[m]) {
      RetrieveSomeMatch(Store, query, m);
      SentinelIsNoStoredContent();
    } else {
      RetrieveNoMatch(Store, query);
    }
  }

  /** Looking up a title by its exact text returns that record's content. */
  lemma RetrieveMebrie()
    ensures Retrieve(Store, "Mebrie Awoke") == MebrieContent
  {
    ContainsSelf(Lower(MebrieTitle));
  }

  /** A lower-case query finds a title written with capitals, and the first
      record is skipped because its title is too short to contain it. */
  lemma RetrieveEducationLowerCase()
    ensures Retrieve(Store, "ethiopian higher education") == EducationContent
  {
    var q := "ethiopian higher education";
    assert SameUpToCase(q, EducationTitle);
    SameUpToCaseLower(q, EducationTitle);
    ContainsSelf(Lower(EducationTitle));
    assert Store[1..] == [Doc(EducationTitle, EducationContent)];
  }

  /** A query that no title contains yields the sentinel. */
  lemma RetrieveUnknownTopic()
    ensures Retrieve(Store, "nonexistent-topic-xyz") == NotFound
  {
    var q := "nonexistent-topic-xyz";
    assert Lower(q)[11] == '-';
    LowerKeepsAbsent('-', MebrieTitle);
    LowerKeepsAbsent('-', EducationTitle);
    MissingCharNotContained(Lower(q), Lower(MebrieTitle), 11);
    MissingCharNotContained(Lower(q), Lower(EducationTitle), 11);
    RetrieveNoMatch(Store, q);
  }

  lemma JimmaInContent()
    ensures OccursAt("Jimma", EducationContent, 65)
  {
    var before := "Ethiopia has many universities including" + " Addis Ababa University, ";
    var rest := " University, and Mekelle University.";
    assert "Jimma University, and Mekelle University." == "Jimma" + rest;
    assert EducationContent == before + "Jimma" + rest;
    OccursBetween(before, "Jimma", rest);
  }

  /** Only titles are searched: "Jimma" occurs in the second record's content
      but in no title, so the result is the sentinel. */
  lemma RetrieveSearchesTitlesOnly()
    ensures Contains("Jimma", Store[1].content)
    ensures Retrieve(Store, "Jimma") == NotFound
  {
    JimmaInContent();
    var q := "Jimma";
    assert Lower(q)[0] == 'j';
    LowerKeepsAbsent('j', MebrieTitle);
    LowerKeepsAbsent('j', EducationTitle);
    MissingCharNotContained(Lower(q), Lower(MebrieTitle), 0);
    MissingCharNotContained(Lower(q), Lower(EducationTitle), 0);
    RetrieveNoMatch(Store, q);
  }
}
