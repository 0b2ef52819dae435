/**
 * The filter engine of `filterAndDisplayData`: which records of the loaded
 * dataset are kept for a given faculty selector and free-text query.
 */
module Filtering {
  import opened Text

  /** One personnel record: field name to field value, as parsed from the JSON array. */
  type Record = map<string, string>

  /** The field the dedicated faculty selector is matched against. */
  const NameField: string := "Faculty Name"

  /**
   * JavaScript truthiness of `item[key]` for string values: the field is
   * present (not `undefined`) and not the empty string.
   */
  predicate Truthy(item: Record, key: string) {
    key in item && item[key] != []
  }

  /**
   * The selector test, for an already normalised selector: an empty selector
   * lets every record through; otherwise the record must have a name whose
   * lower-cased text contains the selector. A record without the field fails.
   */
  predicate NameTest(item: Record, faculty: string) {
    faculty == [] || (NameField in item && Contains(Lower(item[NameField]), faculty))
  }

  /**
   * The query test, for an already normalised query: an empty query lets
   * every record through; otherwise some field value, lower-cased, must
   * contain the query.
   */
  predicate QueryTest(item: Record, query: string) {
    query == [] || exists key :: key in item && Contains(Lower(item[key]), query)
  }

  /** The predicate handed to `allData.filter`. */
  predicate Keep(item: Record, faculty: string, query: string) {
    NameTest(item, faculty) && QueryTest(item, query)
  }

  /** `allData.filter(...)` with normalised criteria: the kept records, in their original order. */
  function Filtered(data: seq<Record>, faculty: string, query: string): (r: seq<Record>)
    ensures |r| <= |data|
    ensures forall x :: x in r ==> x in data && Keep(x, faculty, query)
  {
    if data == [] then []
    else if Keep(data[0], faculty, query) then [data[0]] + Filtered(data[1..], faculty, query)
    else Filtered(data[1..], faculty, query)
  }

  /** `sub` can be obtained from `s` by deleting elements, without reordering. */
  predicate IsSubsequence<T(==)>(sub: seq<T>, s: seq<T>)
    decreases |s|
  {
    if sub == [] then true
    else if s == [] then false
    else if sub[0] == s[0] then IsSubsequence(sub[1..], s[1..])
    else IsSubsequence(sub, s[1..])
  }

  /** A record is in the result exactly when it is in the dataset and passes both tests. */
  lemma {:induction false} FilteredMembership(data: seq<Record>, faculty: string, query: string, x: Record)
    ensures x in Filtered(data, faculty, query) <==> x in data && Keep(x, faculty, query)
    decreases |data|
  {
    if data != [] {
      FilteredMembership(data[1..], faculty, query, x);
      assert data == [data[0]] + data[1..];
    }
  }

  /** With a selector set, a record that has no faculty name is never kept. */
  lemma NamelessRecordDropped(data: seq<Record>, faculty: string, query: string, x: Record)
    requires faculty != [] && NameField !in x
    ensures x !in Filtered(data, faculty, query)
  {
    FilteredMembership(data, faculty, query, x);
  }

  /** The result keeps the dataset's order: it is a subsequence of it. */
  lemma {:induction false} FilteredIsSubsequence(data: seq<Record>, faculty: string, query: string)
    ensures IsSubsequence(Filtered(data, faculty, query), data)
    decreases |data|
  {
    if data != [] {
      var rest := Filtered(data[1..], faculty, query);
      FilteredIsSubsequence(data[1..], faculty, query);
      if !Keep(data[0], faculty, query) {
        SubsequenceOfTail(rest, data);
      }
    }
  }

  /** A subsequence of the tail is a subsequence of the whole. */
  lemma {:induction false} SubsequenceOfTail<T>(sub: seq<T>, s: seq<T>)
    requires s != [] && IsSubsequence(sub, s[1..])
    ensures IsSubsequence(sub, s)
    decreases |s|, 0
  {
    if sub != [] && sub[0] == s[0] {
      SubsequenceDropHead(sub, s[1..]);
    }
  }

  /** If `sub` is a subsequence of `s`, so is `sub` without its head. */
  lemma {:induction false} SubsequenceDropHead<T>(sub: seq<T>, s: seq<T>)
    requires sub != [] && IsSubsequence(sub, s)
    ensures IsSubsequence(sub[1..], s)
    decreases |s|, 1
  {
    if sub[0] != s[0] {
      SubsequenceDropHead(sub, s[1..]);
    }
    if sub[1..] != [] {
      SubsequenceOfTail(sub[1..], s);
    }
  }

  /** With an empty selector and an empty query the whole dataset is kept, in order. */
  lemma {:induction false} FilteredNoCriteria(data: seq<Record>)
    ensures Filtered(data, [], []) == data
    decreases |data|
  {
    if data != [] {
      FilteredNoCriteria(data[1..]);
    }
  }

  /** Filtering the result again with the same criteria changes nothing. */
  lemma {:induction false} FilteredIdempotent(data: seq<Record>, faculty: string, query: string)
    ensures Filtered(Filtered(data, faculty, query), faculty, query) == Filtered(data, faculty, query)
    decreases |data|
  {
    if data != [] {
      FilteredIdempotent(data[1..], faculty, query);
    }
  }

  /** Filtering distributes over concatenation of datasets. */
  lemma {:induction false} FilteredAppend(a: seq<Record>, b: seq<Record>, faculty: string, query: string)
    ensures Filtered(a + b, faculty, query) == Filtered(a, faculty, query) + Filtered(b, faculty, query)
    decreases |a|
  {
    if a != [] {
      assert (a + b)[1..] == a[1..] + b;
      FilteredAppend(a[1..], b, faculty, query);
    } else {
      assert a + b == b;
    }
  }

  /**
   * The selector is case-insensitive: a record passes the selector test for
   * one raw input exactly when it passes for any input with the same letters
   * in another case.
   */
  lemma SelectorIgnoresCase(item: Record, rawA: string, rawB: string)
    requires Lower(rawA) == Lower(rawB)
    ensures NameTest(item, Normalize(rawA)) <==> NameTest(item, Normalize(rawB))
  {
    NormalizeIgnoresCase(rawA, rawB);
  }

  /** A selector of only whitespace is no restriction at all. */
  lemma BlankSelector(item: Record, raw: string)
    requires AllSpace(raw)
    ensures NameTest(item, Normalize(raw))
  {
    NormalizeEmptyIff(raw);
  }

  /** The two records of the worked example: Jane Doe of CS and John Roe of EE. */
  function Jane(): Record { map["Faculty Name" := "Jane Doe", "Department" := "CS"] }
  function John(): Record { map["Faculty Name" := "John Roe", "Department" := "EE"] }

  /** Typing "jane" in the selector, with an empty search box, keeps only Jane Doe. */
  lemma SelectJaneExample(data: seq<Record>, selector: string, search: string)
    requires data == [Jane(), John()] && selector == "jane" && search == ""
    ensures Filtered(data, Normalize(selector), Normalize(search)) == [Jane()]
  {
    JaneInput(selector);
    NormalizeEmptyIff(search);
    JaneSelected(data, Normalize(selector), Normalize(search));
  }

  lemma JaneInput(selector: string)
    requires selector == "jane"
    ensures Normalize(selector) == "jane"
  {
    NormalizeFixed(selector);
  }

  lemma JaneSelected(data: seq<Record>, faculty: string, query: string)
    requires data == [Jane(), John()] && faculty == "jane" && query == ""
    ensures Filtered(data, faculty, query) == [Jane()]
  {
    JaneMatchesJane();
    JohnMissesJane();
  }

  lemma JaneMatchesJane()
    ensures Keep(Jane(), "jane", "")
  {
    assert Lower(Jane()[NameField]) == "jane doe";
    assert IsPrefix("jane", "jane doe");
  }

  lemma JohnMissesJane()
    ensures !Keep(John(), "jane", "")
  {
    assert Lower(John()[NameField]) == "john roe";
    NoPairNoContains("john roe", "jane");
  }

  /** Typing "ee" in the search box, with an empty selector, keeps only John Roe, whose department is "EE". */
  lemma SearchEeExample(data: seq<Record>, selector: string, search: string)
    requires data == [Jane(), John()] && selector == "" && search == "ee"
    ensures Filtered(data, Normalize(selector), Normalize(search)) == [John()]
  {
    NormalizeEmptyIff(selector);
    EeInput(search);
    JohnFound(data, Normalize(selector), Normalize(search));
  }

  lemma EeInput(search: string)
    requires search == "ee"
    ensures Normalize(search) == "ee"
  {
    NormalizeFixed(search);
  }

  lemma JohnFound(data: seq<Record>, faculty: string, query: string)
    requires data == [Jane(), John()] && faculty == "" && query == "ee"
    ensures Filtered(data, faculty, query) == [John()]
  {
    assert Keep(John(), "", "ee") by {
      assert Lower(John()["Department"]) == "ee";
      assert IsPrefix("ee", "ee");
    }
    JaneLacksEe();
  }

  lemma JaneLacksEe()
    ensures !QueryTest(Jane(), "ee")
  {
    forall key | key in Jane() ensures !Contains(Lower(Jane()[key]), "ee") {
      if key == NameField {
        JaneNameLacksEe();
      } else {
        assert key == "Department";
        JaneDepartmentLacksEe();
      }
    }
  }

  lemma JaneNameLacksEe()
    ensures !Contains(Lower(Jane()[NameField]), "ee")
  {
    assert Lower(Jane()[NameField]) == "jane doe";
    NoPairNoContains("jane doe", "ee");
  }

  lemma JaneDepartmentLacksEe()
    ensures !Contains(Lower(Jane()["Department"]), "ee")
  {
    assert Lower(Jane()["Department"]) == "cs";
    NoPairNoContains("cs", "ee");
  }
}
