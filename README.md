# Portfolio page search, tag list and view state

The personal portfolio page (`site.jsx`) shows a list of projects and a list of
blog posts. A search box and a row of tag buttons narrow both lists at once.
An item stays visible when two tests pass:

- **Text test.** The lower-cased query occurs in the lower-cased text made of
  the title, a space, the blurb (for a project) or the excerpt (for a post), a
  space, and the tags joined by single spaces.
- **Tag test.** The active tag is the sentinel `"All"`, or it equals one of the
  item's tags exactly.

The tag buttons come from an insertion-ordered `Set`. It starts as `{"All"}`,
and nested loops add every project tag and then every post tag. The page state
is three strings:

- `theme`, which a button flips between `"light"` and `"dark"`;
- `query`, which the search box replaces;
- `activeTag`, which a tag button replaces.

The model is split into five modules:

- `Text` (`text.dfy`): the string primitives the search uses.
  - `Lower` is ASCII `toLowerCase`.
  - `Contains` is `String.prototype.includes`.
  - `Join` is `Array.prototype.join`.
- `Sequences` (`sequences.dfy`): `Array.prototype.filter` on sequences (`FilterBy`).
  - Its result is characterised as the items at an ascending list of selected positions.
  - It is proved idempotent, congruent and compatible with concatenation.
- `Content` (`content.dfy`): the `ContentItem` record and the search predicate.
  - A project's `blurb` and a post's `excerpt` are both the item's `body`.
  - `Filter` is the one function behind `filteredProjects` and `filteredPosts`.
  - Lemmas give the properties the page relies on.
- `TagUniverse` (`tags.dfy`): the tag list.
  - The insertion-ordered set is a duplicate-free sequence that the loops extend.
  - `AllTags` is the imperative construction with nested loops, proved equal to the specification `Universe`.
  - `Universe` is proved to start with `"All"`, to hold no duplicates, to hold exactly the right tags, and to keep first-occurrence order.
- `View` (`site.dfy`): the `Site` class.
  - It holds the fixed content and tag list, plus the three state fields and their setters.
  - The filtered lists are functions of the current state.

## Model

| member | source | states |
|---|---|---|
| Text.Lower | site.jsx:158-160 | `toLowerCase` keeps the length and lower-cases each character: ASCII capitals map to small letters, and every other character is kept |
| Text.LowerIdempotent | site.jsx:158-160 | lower-casing an already lower-cased text changes nothing |
| Text.LowerAppend | site.jsx:158-160 | lower-casing the concatenated haystack is the concatenation of the lower-cased parts |
| Text.LowerAbsent | site.jsx:158-160 | a small letter that is missing from a text in both cases is missing from its lower-cased form |
| Text.ContainsIffOccurs | site.jsx:160 | `includes` holds exactly when the needle occurs at some offset of the haystack |
| Text.ContainsEmpty | site.jsx:160 | the empty string is found in every text |
| Text.ContainsLower | site.jsx:158-160 | a fragment of a text, lower-cased, is found in the lower-cased text |
| Text.AbsentCharNotContained | site.jsx:160 | a needle holding a character that the haystack lacks is not found |
| Text.JoinContainsPart | site.jsx:158 | every tag can be found in `tags.join(" ")` |
| Text.JoinAbsent | site.jsx:158 | a character found in no tag and not in the separator is not in the joined tags |
| Sequences.FilterBy | site.jsx:157-163 | `filter` never lengthens the list; it keeps only accepted elements and keeps every accepted element |
| Sequences.PositionsAscending | site.jsx:157-163 | the positions `filter` keeps are strictly ascending |
| Sequences.PositionsExact | site.jsx:157-163 | a position is kept exactly when its element is accepted |
| Sequences.FilterIsSelection | site.jsx:157-163 | the result lists the elements at the kept positions, in that order |
| Sequences.FilterCounts | site.jsx:157-163 | an accepted element occurs in the result as often as in the input, and a rejected one never occurs |
| Sequences.FilterAppend | site.jsx:157-163 | filtering a concatenation is concatenating the filtered parts |
| Sequences.FilterKeepsAll | site.jsx:157-163 | the list comes back unchanged exactly when every element is accepted |
| Sequences.FilterDropsAll | site.jsx:157-163 | the result is empty exactly when no element is accepted |
| Sequences.FilterIdempotent | site.jsx:157-163 | filtering a filtered list with the same test changes nothing |
| Sequences.FilterCongruent | site.jsx:157-163 | two tests that agree on every element give the same result |
| Content.Filter | site.jsx:156-174 | the visible projects or posts are input items that pass both the text test and the tag test, every such item is visible, and the list never grows |
| Content.FilterIsOrderedSelection | site.jsx:156-174 | the visible items are those at an ascending list of positions, which holds every selected position and no other, so the result is an order-preserving subsequence |
| Content.FilterIdempotentSearch | site.jsx:157-163 | applying the same query and tag to an already filtered list returns it unchanged |
| Content.FilterSearchCounts | site.jsx:157-163 | a selected item is shown as many times as it is listed, and an unselected one never |
| Content.SentinelOnlyText | site.jsx:161 | with the tag `"All"`, the visible items are exactly those the text test keeps |
| Content.EmptyQueryMatches | site.jsx:158-160 | the empty query passes the text test for every item |
| Content.FilterShowsEverything | site.jsx:156-174 | with the initial empty query and `"All"`, every item is shown unchanged |
| Content.FilterByTagOnly | site.jsx:161 | with an empty query and a tag other than `"All"`, the visible items are exactly those carrying that tag |
| Content.FilterNoTextMatch | site.jsx:158-162 | a query no item's text contains leaves the list empty, whatever the tag |
| Content.FilterCaseInsensitive | site.jsx:160 | two queries with the same lower-case form show the same items |
| Content.FilterLLMsCaseInsensitive | site.jsx:160 | searching "LLMs" and "llms" shows the same items |
| Content.TitleFragmentFound | site.jsx:158-160 | any fragment of the title, in any ASCII letter case, passes the text test |
| Content.BodyFragmentFound | site.jsx:168-170 | any fragment of the blurb or excerpt, in any ASCII letter case, passes the text test |
| Content.TagsFragmentFound | site.jsx:158-160 | any fragment of the joined tags passes the text test |
| Content.TagTextFound | site.jsx:158-160 | typing one of an item's tags into the search box finds the item |
| Content.TagMatchIsExact | site.jsx:161 | a fragment of a tag (such as "ML" inside a longer tag) passes the text test, yet fails the tag test unless it is itself one of the item's tags |
| Content.MissingLetterMisses | site.jsx:158-160 | a query holding a letter that the title, body and tags lack in both cases does not find the item |
| TagUniverse.TagStream | site.jsx:150-152 | the tags visited by the nested `forEach` loops are exactly the tags of the items |
| TagUniverse.FirstIndex | site.jsx:149-154 | the first position of a tag in a list, or the list's length when the tag is absent |
| TagUniverse.DedupMembers | site.jsx:149-154 | adding the tags to an insertion-ordered set keeps exactly the tags added |
| TagUniverse.DedupNoDuplicates | site.jsx:149-154 | the set holds no tag twice |
| TagUniverse.DedupOrder | site.jsx:149-154 | the set lists tags in the order in which they were first added |
| TagUniverse.DedupPrefix | site.jsx:149-154 | adding more tags never reorders or removes the ones already present |
| TagUniverse.UniverseSpec | site.jsx:149-154 | `allTags` starts with `"All"`, has no duplicates, holds exactly `"All"` and every project and post tag, and lists them in first-occurrence order, projects before posts |
| TagUniverse.AllTags | site.jsx:149-154 | the loops' result is the insertion-ordered set of `"All"`, then every project tag, then every post tag; it starts with `"All"` and has no duplicates |
| TagUniverse.AddTags | site.jsx:151-152 | one nested `forEach` pass adds each item's tags, in order, to the set built so far |
| View.NextTheme | site.jsx:196 | the toggle yields "light" or "dark", and yields "dark" exactly when the theme was "light" |
| View.ToggleTwice | site.jsx:196 | toggling twice from "light" or "dark" restores it |
| View.Site.FilteredProjects | site.jsx:156-164 | the visible projects are exactly the listed projects the current query and tag select |
| View.Site.FilteredPosts | site.jsx:166-174 | the visible posts are exactly the listed posts the current query and tag select |
| View.Site.constructor | site.jsx:145-154 | the page starts with theme "light", an empty query and tag `"All"`, shows everything, and holds the tag list built from the content |
| View.Site.ToggleTheme | site.jsx:196 | the theme becomes the toggled theme, and the query and tag are unchanged |
| View.Site.SetQuery | site.jsx:254 | the query is replaced, theme and tag are unchanged, and both lists are refiltered with the new query |
| View.Site.SetActiveTag | site.jsx:262 | the active tag is replaced, theme and query are unchanged, and both lists are refiltered with the new tag |

## Left out

- `main.jsx` mounts the page into the DOM. That is host I/O with no logic, and it is not part of this model.
- The JSX markup, the styling class strings and the `className` choices are presentation only.
- The animation timings of framer-motion are floating-point values passed to a foreign library.
- `useMemo` caching and re-render scheduling are not modelled. The filtered lists and the tag list are plain functions of the state and content, and `allTags` is computed once when a `Site` is built.
- The footer's `new Date().getFullYear()` is a clock read.
- `NAV_LINKS`, `READS`, `USES` and `TRAVEL` are display-only data that nothing computes over.
- The contents of `PROJECTS` and `POSTS` are not copied in. Every property is proved for all lists of items, whatever their contents.
- The `period`, `links`, `date` and `href` fields are never read by the search, so `ContentItem` keeps only the title, the body (blurb or excerpt) and the tags.
- Text.Lower: does not model Unicode case mapping, because only ASCII capitals are lower-cased and every other character (for example U+2011 or accented capitals) is kept. JavaScript's `toLowerCase` also maps non-ASCII capitals.
- View.Site.ToggleTheme: requires the class invariant `Valid()`, which includes a light or dark theme. The source toggles any stored value, but no setter can store anything other than "light" or "dark".
