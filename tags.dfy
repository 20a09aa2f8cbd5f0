/**
 * The tag buttons of the page: a JavaScript `Set` seeded with the sentinel
 * and filled by nested `forEach` loops over the projects and then the posts.
 * A `Set` iterates in insertion order, so the buttons come out as the
 * distinct tags in order of first occurrence.
 */
module TagUniverse {
  import opened Content

  /** Every tag of every item, item by item, each item's tags in order. */
  function TagStream(items: seq<ContentItem>): (r: seq<string>)
    ensures forall t :: t in r <==> exists i :: 0 <= i < |items| && t in items[i].tags
  {
    if items == [] then []
    else
      var init := items[..|items| - 1];
      assert forall i :: 0 <= i < |init| ==> init[i] == items[i];
      TagStream(init) + items[|items| - 1].tags
  }

  /** `set.add(t)` on an insertion-ordered set: append `t` unless it is present already. */
  function Add(members: seq<string>, t: string): seq<string>
  {
    if t in members then members else members + [t]
  }

  /** The insertion-ordered set built by adding the elements of `ts` in turn, starting empty. */
  function Dedup(ts: seq<string>): seq<string>
  {
    if ts == [] then [] else Add(Dedup(ts[..|ts| - 1]), ts[|ts| - 1])
  }

  /** `Array.from(set)` for the page: the sentinel, then the projects' tags, then the posts' tags. */
  function Universe(projects: seq<ContentItem>, posts: seq<ContentItem>): seq<string>
  {
    Dedup([AllTag] + TagStream(projects) + TagStream(posts))
  }

  /** No value occurs twice. */
  predicate NoDuplicates(s: seq<string>)
  {
    forall i, j :: 0 <= i < j < |s| ==> s[i] != s[j]
  }

  /** The index of the first occurrence of `t` in `ts`, or `|ts|` when there is none. */
  function FirstIndex(ts: seq<string>, t: string): (k: nat)
    ensures k <= |ts|
    ensures k < |ts| <==> t in ts
    ensures k < |ts| ==> ts[k] == t
    ensures forall j :: 0 <= j < k ==> ts[j] != t
  {
    if ts == [] then 0 else if ts[0] == t then 0 else 1 + FirstIndex(ts[1..], t)
  }

  /** Appending leaves the first occurrence of a value already present where it was. */
  lemma FirstIndexAppend(ts: seq<string>, u: string, t: string)
    requires t in ts
    ensures FirstIndex(ts + [u], t) == FirstIndex(ts, t)
  {
    var k, k' := FirstIndex(ts, t), FirstIndex(ts + [u], t);
    assert (ts + [u])[k] == t;
    if k' < k {
      assert ts[k'] == t;
    }
  }

  /** Dedup keeps exactly the values of its input. */
  lemma {:induction false} DedupMembers(ts: seq<string>)
    ensures forall t :: t in Dedup(ts) <==> t in ts
  {
    if ts != [] {
      var init := ts[..|ts| - 1];
      DedupMembers(init);
      assert ts == init + [ts[|ts| - 1]];
    }
  }

  /** Dedup keeps each value once. */
  lemma {:induction false} DedupNoDuplicates(ts: seq<string>)
    ensures NoDuplicates(Dedup(ts))
  {
    if ts != [] {
      DedupNoDuplicates(ts[..|ts| - 1]);
    }
  }

  /** The values of `r` appear in the order of their first occurrence in `ts`. */
  predicate InFirstOccurrenceOrder(r: seq<string>, ts: seq<string>)
  {
    forall i, j :: 0 <= i < j < |r| ==> FirstIndex(ts, r[i]) < FirstIndex(ts, r[j])
  }

  /** Dedup orders the values by their first occurrence in the input. */
  lemma {:induction false} DedupOrder(ts: seq<string>)
    ensures InFirstOccurrenceOrder(Dedup(ts), ts)
  {
    if ts != [] {
      var init, last := ts[..|ts| - 1], ts[|ts| - 1];
      var r := Dedup(init);
      DedupOrder(init);
      DedupMembers(init);
      assert ts == init + [last];
      forall t | t in init
        ensures FirstIndex(ts, t) == FirstIndex(init, t)
      {
        FirstIndexAppend(init, last, t);
      }
      if last !in r {
        assert FirstIndex(ts, last) == |init|;
        var r' := r + [last];
        assert Dedup(ts) == r';
        forall i, j | 0 <= i < j < |r'|
          ensures FirstIndex(ts, r'[i]) < FirstIndex(ts, r'[j])
        {
          assert r'[i] == r[i] && r[i] in r && r[i] in init;
          assert FirstIndex(ts, r[i]) == FirstIndex(init, r[i]) < |init|;
          if j < |r| {
            assert r'[j] == r[j] && r[j] in r;
          } else {
            assert r'[j] == last;
          }
        }
      } else {
        assert Dedup(ts) == r;
        forall i, j | 0 <= i < j < |r|
          ensures FirstIndex(ts, r[i]) < FirstIndex(ts, r[j])
        {
          assert r[i] in r && r[j] in r;
          assert FirstIndex(ts, r[i]) == FirstIndex(init, r[i]);
          assert FirstIndex(ts, r[j]) == FirstIndex(init, r[j]);
        }
      }
    }
  }

  /** Dedup of a longer input starts with Dedup of its prefix. */
  lemma {:induction false} DedupPrefix(ts: seq<string>, us: seq<string>)
    ensures Dedup(ts) <= Dedup(ts + us)
  {
    if us != [] {
      var init := us[..|us| - 1];
      DedupPrefix(ts, init);
      assert (ts + us)[..|ts + us| - 1] == ts + init;
    } else {
      assert ts + us == ts;
    }
  }

  /**
   * The tag list starts with the sentinel, holds no tag twice, holds exactly
   * the sentinel and the tags of every project and post, and lists them in
   * order of first occurrence, projects before posts.
   */
  lemma UniverseSpec(projects: seq<ContentItem>, posts: seq<ContentItem>)
    ensures var u, stream := Universe(projects, posts), [AllTag] + TagStream(projects) + TagStream(posts);
      |u| > 0 && u[0] == AllTag
      && NoDuplicates(u)
      && (forall t :: t in u <==>
            t == AllTag
            || (exists i :: 0 <= i < |projects| && t in projects[i].tags)
            || (exists i :: 0 <= i < |posts| && t in posts[i].tags))
      && InFirstOccurrenceOrder(u, stream)
  {
    var stream := [AllTag] + TagStream(projects) + TagStream(posts);
    var rest := TagStream(projects) + TagStream(posts);
    assert stream == [AllTag] + rest;
    DedupMembers(stream);
    DedupNoDuplicates(stream);
    DedupOrder(stream);
    DedupPrefix([AllTag], rest);
    assert [AllTag][..0] == [];
    assert Dedup([AllTag]) == [AllTag];
  }

  /**
   * Builds the tag list the way the page does: seed with the sentinel, then add
   * every tag of every project, then every tag of every post.
   */
  method AllTags(projects: seq<ContentItem>, posts: seq<ContentItem>) returns (tags: seq<string>)
    ensures tags == Universe(projects, posts)
    ensures |tags| > 0 && tags[0] == AllTag && NoDuplicates(tags)
  {
    tags := [AllTag];
    assert tags == Dedup([AllTag]);
    tags := AddTags(tags, [AllTag], projects);
    tags := AddTags(tags, [AllTag] + TagStream(projects), posts);
    UniverseSpec(projects, posts);
  }

  /** `items.forEach(p => p.tags.forEach(t => set.add(t)))` on the set `start`, the Dedup of `seen`. */
  method AddTags(start: seq<string>, ghost seen: seq<string>, items: seq<ContentItem>) returns (members: seq<string>)
    requires start == Dedup(seen)
    ensures members == Dedup(seen + TagStream(items))
  {
    members := start;
    var i := 0;
    assert items[..0] == [] && seen + TagStream([]) == seen;
    while i < |items|
      invariant 0 <= i <= |items|
      invariant members == Dedup(seen + TagStream(items[..i]))
    {
      var tags := items[i].tags;
      ghost var before := seen + TagStream(items[..i]);
      var j := 0;
      assert before + tags[..0] == before;
      while j < |tags|
        invariant 0 <= j <= |tags|
        invariant members == Dedup(before + tags[..j])
      {
        var t := tags[j];
        if t !in members {
          members := members + [t];
        }
        assert (before + tags[..j + 1])[..|before + tags[..j + 1]| - 1] == before + tags[..j];
        j := j + 1;
      }
      assert items[..i + 1][..i] == items[..i];
      assert TagStream(items[..i + 1]) == TagStream(items[..i]) + tags;
      assert tags[..j] == tags;
      assert seen + TagStream(items[..i + 1]) == before + tags;
      i := i + 1;
    }
    assert items[..i] == items;
  }
}
