/**
 * The page's view state: the colour theme, the search query and the active
 * tag, each replaced by its setter, with the two filtered lists derived from
 * them. The content and the tag list are fixed when the page is built.
 */
module View {
  import opened Content
  import opened TagUniverse

  const Light: string := "light"
  const Dark: string := "dark"

  /** The theme button: "light" turns into "dark", any other value into "light". */
  function NextTheme(theme: string): (r: string)
    ensures r == Light || r == Dark
    ensures r == Dark <==> theme == Light
  {
    if theme == Light then Dark else Light
  }

  /** Pressing the theme button twice restores a light or dark theme. */
  lemma ToggleTwice(theme: string)
    requires theme == Light || theme == Dark
    ensures NextTheme(NextTheme(theme)) == theme
  {
  }

  class Site {
    const projects: seq<ContentItem>
    const posts: seq<ContentItem>
    /** The tag buttons, computed once. */
    const allTags: seq<string>
    var theme: string
    var query: string
    var activeTag: string

    /** The theme is light or dark, and the tag list is the one built from the content. */
    predicate Valid()
      reads this
    {
      (theme == Light || theme == Dark) && allTags == Universe(projects, posts)
    }

    /** The projects on show: those the current query and tag select, in order. */
    function FilteredProjects(): (r: seq<ContentItem>)
      reads this
      ensures |r| <= |projects|
      ensures forall x :: x in r <==> x in projects && Selected(x, query, activeTag)
    {
      Filter(projects, query, activeTag)
    }

    /** The posts on show: those the current query and tag select, in order. */
    function FilteredPosts(): (r: seq<ContentItem>)
      reads this
      ensures |r| <= |posts|
      ensures forall x :: x in r <==> x in posts && Selected(x, query, activeTag)
    {
      Filter(posts, query, activeTag)
    }

    /** A fresh page: light theme, empty query, the sentinel tag, so everything is on show. */
    constructor (projects: seq<ContentItem>, posts: seq<ContentItem>)
      ensures Valid()
      ensures this.projects == projects && this.posts == posts
      ensures theme == Light && query == "" && activeTag == AllTag
      ensures FilteredProjects() == projects && FilteredPosts() == posts
    {
      this.projects := projects;
      this.posts := posts;
      var tags := AllTags(projects, posts);
      allTags := tags;
      theme := Light;
      query := "";
      activeTag := AllTag;
      new;
      FilterShowsEverything(projects);
      FilterShowsEverything(posts);
    }

    /** The theme button: only the theme changes. */
    method ToggleTheme()
      requires Valid()
      modifies this`theme
      ensures Valid()
      ensures theme == NextTheme(old(theme))
      ensures query == old(query) && activeTag == old(activeTag)
    {
      theme := if theme == Light then Dark else Light;
    }

    /** Typing in the search box: only the query changes, and the lists follow it. */
    method SetQuery(q: string)
      requires Valid()
      modifies this`query
      ensures Valid()
      ensures query == q
      ensures theme == old(theme) && activeTag == old(activeTag)
      ensures FilteredProjects() == Filter(projects, q, activeTag)
      ensures FilteredPosts() == Filter(posts, q, activeTag)
    {
      query := q;
    }

    /** Pressing a tag button: only the active tag changes, and the lists follow it. */
    method SetActiveTag(tag: string)
      requires Valid()
      modifies this`activeTag
      ensures Valid()
      ensures activeTag == tag
      ensures theme == old(theme) && query == old(query)
      ensures FilteredProjects() == Filter(projects, query, tag)
      ensures FilteredPosts() == Filter(posts, query, tag)
    {
      activeTag := tag;
    }
  }
}
