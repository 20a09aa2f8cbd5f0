/**
 * The content search of the portfolio page: the predicate that `PROJECTS.filter`
 * and `POSTS.filter` apply, as one function over a generic content item. A
 * project's `blurb` and a post's `excerpt` are both the item's `body`.
 */
module Content {
  import opened Text
  import opened Sequences

  /** A project or a post: what the search looks at. */
  datatype ContentItem = ContentItem(title: string, body: string, tags: seq<string>)

  /** The sentinel tag that switches tag filtering off. */
  const AllTag: string := "All"

  /** The text the query is searched in: title, body and the tags joined by single spaces. */
  function Haystack(item: ContentItem): string
  {
    item.title + " " + item.body + " " + Join(item.tags, " ")
  }

  /** Text test: the lower-cased query occurs in the lower-cased haystack. */
  predicate MatchesQuery(item: ContentItem, query: string)
  {
    Contains(Lower(Haystack(item)), Lower(query))
  }

  /** Tag test: the sentinel, or exactly one of the item's tags. */
  predicate MatchesTag(item: ContentItem, tag: string)
  {
    tag == AllTag || tag in item.tags
  }

  /** An item is shown when it passes both tests. */
  predicate Selected(item: ContentItem, query: string, tag: string)
  {
    MatchesQuery(item, query) && MatchesTag(item, tag)
  }

  /** The test one item must pass for a given query and tag. */
  function Keep(query: string, tag: string): ContentItem -> bool
  {
    item => Selected(item, query, tag)
  }

  /** `items.filter(...)` with the search predicate: the selected items, in their original order. */
  function Filter(items: seq<ContentItem>, query: string, tag: string): (r: seq<ContentItem>)
    ensures |r| <= |items|
    ensures forall x :: x in r <==> x in items && Selected(x, query, tag)
  {
    FilterBy(items, Keep(query, tag))
  }

  /**
   * Filtering keeps exactly the items that pass both tests, in their original
   * relative order: there is an ascending list of positions, holding every
   * position whose item is selected and no other, whose items are the result.
   */
  lemma FilterIsOrderedSelection(items: seq<ContentItem>, query: string, tag: string)
    ensures var ps := Positions(items, Keep(query, tag));
      |ps| == |Filter(items, query, tag)|
      && (forall k :: 0 <= k < |ps| ==> ps[k] < |items| && Filter(items, query, tag)[k] == items[ps[k]])
      && StrictlyAscending(ps)
      && (forall i :: 0 <= i < |items| ==> (i in ps <==> Selected(items[i], query, tag)))
  {
    var keep := Keep(query, tag);
    var ps := Positions(items, keep);
    assert forall i :: 0 <= i < |items| ==> keep(items[i]) == Selected(items[i], query, tag);
    FilterIsSelection(items, keep);
    PositionsAscending(items, keep);
    forall i | 0 <= i < |items|
      ensures i in ps <==> Selected(items[i], query, tag)
    {
      PositionsExact(items, keep, i);
    }
  }

  /** Filtering an already filtered list with the same query and tag changes nothing. */
  lemma FilterIdempotentSearch(items: seq<ContentItem>, query: string, tag: string)
    ensures Filter(Filter(items, query, tag), query, tag) == Filter(items, query, tag)
  {
    FilterIdempotent(items, Keep(query, tag));
  }

  /** Multiplicities: a selected item keeps every copy, an unselected one none. */
  lemma FilterSearchCounts(items: seq<ContentItem>, query: string, tag: string, x: ContentItem)
    ensures multiset(Filter(items, query, tag))[x]
         == if Selected(x, query, tag) then multiset(items)[x] else 0
  {
    FilterCounts(items, Keep(query, tag), x);
  }

  /** With the sentinel tag, the tag test holds and only the text test decides. */
  lemma SentinelOnlyText(items: seq<ContentItem>, query: string)
    ensures forall x :: x in Filter(items, query, AllTag) <==> x in items && MatchesQuery(x, query)
  {
  }

  /** The empty query is found in every item. */
  lemma EmptyQueryMatches(item: ContentItem)
    ensures MatchesQuery(item, "")
  {
    ContainsEmpty(Lower(Haystack(item)));
  }

  /** No query and the sentinel tag: every item, unchanged. */
  lemma FilterShowsEverything(items: seq<ContentItem>)
    ensures Filter(items, "", AllTag) == items
  {
    forall i | 0 <= i < |items|
      ensures Selected(items[i], "", AllTag)
    {
      EmptyQueryMatches(items[i]);
    }
    FilterKeepsAll(items, Keep("", AllTag));
  }

  /** No query: the tag alone decides, by exact equality with one of the item's tags. */
  lemma FilterByTagOnly(items: seq<ContentItem>, tag: string)
    requires tag != AllTag
    ensures forall x :: x in Filter(items, "", tag) <==> x in items && tag in x.tags
  {
    forall x | x in items
      ensures MatchesQuery(x, "")
    {
      EmptyQueryMatches(x);
    }
  }

  /** A query found in no item selects nothing, whatever the tag. */
  lemma FilterNoTextMatch(items: seq<ContentItem>, query: string, tag: string)
    requires forall i :: 0 <= i < |items| ==> !MatchesQuery(items[i], query)
    ensures Filter(items, query, tag) == []
  {
    FilterDropsAll(items, Keep(query, tag));
  }

  /** The query matters only through its lower-cased form. */
  lemma FilterCaseInsensitive(items: seq<ContentItem>, q1: string, q2: string, tag: string)
    requires Lower(q1) == Lower(q2)
    ensures Filter(items, q1, tag) == Filter(items, q2, tag)
  {
    FilterCongruent(items, Keep(q1, tag), Keep(q2, tag));
  }

  /** Searching "LLMs" and "llms" shows the same items. */
  lemma FilterLLMsCaseInsensitive(items: seq<ContentItem>, tag: string)
    ensures Filter(items, "LLMs", tag) == Filter(items, "llms", tag)
  {
    assert Lower("LLMs") == "llms";
    assert Lower("llms") == "llms";
    FilterCaseInsensitive(items, "LLMs", "llms", tag);
  }

  /** Any fragment of the title, in any letter case, finds the item. */
  lemma TitleFragmentFound(item: ContentItem, query: string)
    requires Contains(Lower(item.title), Lower(query))
    ensures MatchesQuery(item, query)
  {
    var q := Lower(query);
    var t1, t2, t3 := item.title + " ", item.title + " " + item.body, item.title + " " + item.body + " ";
    LowerAppend(item.title, " ");
    ContainsInLeft(Lower(item.title), Lower(" "), q);
    LowerAppend(t1, item.body);
    ContainsInLeft(Lower(t1), Lower(item.body), q);
    LowerAppend(t2, " ");
    ContainsInLeft(Lower(t2), Lower(" "), q);
    LowerAppend(t3, Join(item.tags, " "));
    ContainsInLeft(Lower(t3), Lower(Join(item.tags, " ")), q);
  }

  /** Any fragment of the body, in any letter case, finds the item. */
  lemma BodyFragmentFound(item: ContentItem, query: string)
    requires Contains(Lower(item.body), Lower(query))
    ensures MatchesQuery(item, query)
  {
    var q := Lower(query);
    var t1, t2, t3 := item.title + " ", item.title + " " + item.body, item.title + " " + item.body + " ";
    LowerAppend(t1, item.body);
    ContainsInRight(Lower(t1), Lower(item.body), q);
    LowerAppend(t2, " ");
    ContainsInLeft(Lower(t2), Lower(" "), q);
    LowerAppend(t3, Join(item.tags, " "));
    ContainsInLeft(Lower(t3), Lower(Join(item.tags, " ")), q);
  }

  /** Any fragment of the joined tags, in any letter case, finds the item. */
  lemma TagsFragmentFound(item: ContentItem, query: string)
    requires Contains(Lower(Join(item.tags, " ")), Lower(query))
    ensures MatchesQuery(item, query)
  {
    var t3 := item.title + " " + item.body + " ";
    LowerAppend(t3, Join(item.tags, " "));
    ContainsInRight(Lower(t3), Lower(Join(item.tags, " ")), Lower(query));
  }

  /** Typing one of an item's tags into the search box finds the item. */
  lemma TagTextFound(item: ContentItem, i: nat)
    requires i < |item.tags|
    ensures MatchesQuery(item, item.tags[i])
  {
    JoinContainsPart(item.tags, " ", i);
    ContainsLower(Join(item.tags, " "), item.tags[i]);
    TagsFragmentFound(item, item.tags[i]);
  }

  /**
   * Tag matching is whole-tag equality, not search: a fragment of one of an
   * item's tags finds the item as a query, yet fails the tag test unless it is
   * itself one of the tags.
   */
  lemma TagMatchIsExact(item: ContentItem, tag: string, i: nat)
    requires i < |item.tags| && Contains(item.tags[i], tag)
    requires tag != AllTag && tag !in item.tags
    ensures !MatchesTag(item, tag)
    ensures MatchesQuery(item, tag)
  {
    JoinContainsPart(item.tags, " ", i);
    ContainsTransitive(Join(item.tags, " "), item.tags[i], tag);
    ContainsLower(Join(item.tags, " "), tag);
    TagsFragmentFound(item, tag);
  }

  /**
   * The search is by substring only: a query holding a letter that the item's
   * title, body and tags lack in both cases does not find it.
   */
  lemma MissingLetterMisses(item: ContentItem, query: string, c: char)
    requires 'a' <= c <= 'z' && c in query
    requires c !in item.title && (c as int - 32) as char !in item.title
    requires c !in item.body && (c as int - 32) as char !in item.body
    requires forall i :: 0 <= i < |item.tags| ==> c !in item.tags[i] && (c as int - 32) as char !in item.tags[i]
    ensures !MatchesQuery(item, query)
  {
    JoinAbsent(item.tags, " ", c);
    JoinAbsent(item.tags, " ", (c as int - 32) as char);
    LowerAbsent(Haystack(item), c);
    var j :| 0 <= j < |query| && query[j] == c;
    assert Lower(query)[j] == c;
    AbsentCharNotContained(Lower(Haystack(item)), Lower(query), c);
  }
}
