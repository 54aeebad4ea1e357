/**
 * The client-side query engine (`src/hooks/usePosts.ts`): the loaded index, the search
 * text and the selected tags, and the views derived from them.
 *
 * The hook's state slots are the fields of `PostsHook`; the memoised views are functions
 * (or, where the source runs a counting loop, a method) recomputed from those fields. The
 * fetch of the index is a method that receives its outcome.
 */
module UsePosts {
  import opened Wrappers
  import opened Text
  import opened Seqs
  import opened StableSort
  import opened Blog

  const LoadFailedMessage := "Failed to load posts index"
  const UnknownErrorMessage := "Unknown error"

  /** How the one fetch of the index ended. */
  datatype LoadOutcome =
    | Fetched(index: PostsIndex)        // response ok and the body parsed
    | BadResponse                        // `!response.ok`
    | Threw(message: Option<string>)     // a rejection; `None` when the thrown value is not an Error

  // ---------------------------------------------------------------- tag frequencies

  /** Every tag occurrence of every post, in post order and then tag order. */
  function AllTags(posts: seq<PostMeta>): seq<string> {
    if posts == [] then [] else AllTags(posts[..|posts| - 1]) + posts[|posts| - 1].tags
  }

  /** The distinct tags of `tags` in order of first occurrence (a `Map`'s insertion order). */
  function FirstSeen<T(==,!new)>(tags: seq<T>): (keys: seq<T>)
    ensures Distinct(keys)
    ensures forall t :: t in keys <==> t in tags
  {
    if tags == [] then []
    else
      var init, last := tags[..|tags| - 1], tags[|tags| - 1];
      var keys := FirstSeen(init);
      if last in init then keys else keys + [last]
  }

  /**
   * `FirstSeen` keeps the order of first occurrence: a key listed before another
   * occurs in `tags` before any occurrence of the later one.
   */
  lemma {:induction false} FirstSeenOrder<T(!new)>(tags: seq<T>)
    ensures forall i, j, b :: (0 <= i < j < |FirstSeen(tags)| && 0 <= b < |tags| && tags[b] == FirstSeen(tags)[j]
      ==> FirstSeen(tags)[i] in tags[..b])
  {
    if tags != [] {
      var init, last := tags[..|tags| - 1], tags[|tags| - 1];
      var prev, keys := FirstSeen(init), FirstSeen(tags);
      FirstSeenOrder(init);
      forall i, j, b | 0 <= i < j < |keys| && 0 <= b < |tags| && tags[b] == keys[j]
        ensures keys[i] in tags[..b]
      {
        if b < |init| {
          assert tags[b] == init[b] && tags[..b] == init[..b];
          assert keys[i] == prev[i] && keys[j] == prev[j];
        } else if last in init {
          var b' :| 0 <= b' < |init| && init[b'] == last;
          assert keys == prev && init[b'] == prev[j];
          assert prev[i] in init[..b'];
          assert init[..b'] == tags[..b'];
        } else {
          assert keys[i] == prev[i] && tags[..b] == init;
        }
      }
    }
  }

  /** One entry per distinct tag, with its number of occurrences, in first-seen order. */
  function Tally(tags: seq<string>): (entries: seq<TagFrequency>)
    ensures |entries| == |FirstSeen(tags)|
    ensures forall i :: 0 <= i < |entries| ==>
      entries[i] == TagFrequency(FirstSeen(tags)[i], multiset(tags)[FirstSeen(tags)[i]])
  {
    var keys := FirstSeen(tags);
    seq(|keys|, i requires 0 <= i < |keys| => TagFrequency(keys[i], multiset(tags)[keys[i]]))
  }

  function CountKey(entry: TagFrequency): int {
    entry.count
  }

  /** The tag-frequency table: the tally stably sorted by count, largest first. */
  function TagFrequencyTable(posts: seq<PostMeta>): seq<TagFrequency> {
    SortDesc(Tally(AllTags(posts)), CountKey)
  }

  /**
   * The table has one entry per distinct tag, and each entry's count is the number of
   * times its tag occurs over all posts (a tag listed twice in one post counts twice).
   */
  lemma TagFrequencyTableCounts(posts: seq<PostMeta>)
    ensures forall i :: 0 <= i < |TagFrequencyTable(posts)| ==>
      var e := TagFrequencyTable(posts)[i];
      e.tag in AllTags(posts) && e.count == multiset(AllTags(posts))[e.tag] && e.count >= 1
    ensures forall t :: t in AllTags(posts) ==> exists i :: 0 <= i < |TagFrequencyTable(posts)| && TagFrequencyTable(posts)[i].tag == t
    ensures forall i, j :: 0 <= i < j < |TagFrequencyTable(posts)| ==>
      TagFrequencyTable(posts)[i].tag != TagFrequencyTable(posts)[j].tag
  {
    var all := AllTags(posts);
    var tally, table := Tally(all), TagFrequencyTable(posts);
    SortDescPermutes(tally, CountKey);
    PermutedTallyCounts(all, table);
    assert Distinct(tally) by {
      var keys := FirstSeen(all);
      forall i, j | 0 <= i < j < |tally| ensures tally[i] != tally[j] {
        assert tally[i].tag == keys[i] && tally[j].tag == keys[j];
      }
    }
    PermutationKeepsDistinct(table, tally);
  }

  /** Any reordering of the tally lists every tag once with its number of occurrences. */
  lemma PermutedTallyCounts(all: seq<string>, table: seq<TagFrequency>)
    requires multiset(table) == multiset(Tally(all))
    ensures forall i :: 0 <= i < |table| ==>
      table[i].tag in all && table[i].count == multiset(all)[table[i].tag] && table[i].count >= 1
    ensures forall t :: t in all ==> exists i :: 0 <= i < |table| && table[i].tag == t
  {
    var tally, keys := Tally(all), FirstSeen(all);
    forall i | 0 <= i < |table|
      ensures table[i].tag in all && table[i].count == multiset(all)[table[i].tag] && table[i].count >= 1
    {
      assert table[i] in multiset(tally);
      var k :| 0 <= k < |tally| && tally[k] == table[i];
      assert keys[k] in keys;
    }
    forall t | t in all
      ensures exists i :: 0 <= i < |table| && table[i].tag == t
    {
      var k :| 0 <= k < |keys| && keys[k] == t;
      assert tally[k] in multiset(table);
      var i :| 0 <= i < |table| && table[i] == tally[k];
    }
  }

  /**
   * The table is ordered by count, largest first, and entries with equal counts keep the
   * order in which their tags were first met.
   */
  lemma TagFrequencyTableOrder(posts: seq<PostMeta>)
    ensures SortedDesc(TagFrequencyTable(posts), CountKey)
    ensures forall c :: WithKey(TagFrequencyTable(posts), CountKey, c) == WithKey(Tally(AllTags(posts)), CountKey, c)
  {
    SortDescSorted(Tally(AllTags(posts)), CountKey);
    forall c ensures WithKey(TagFrequencyTable(posts), CountKey, c) == WithKey(Tally(AllTags(posts)), CountKey, c) {
      SortDescStable(Tally(AllTags(posts)), CountKey, c);
    }
  }

  function SumCounts(table: seq<TagFrequency>): int {
    if table == [] then 0 else table[0].count + SumCounts(table[1..])
  }

  /** Entries with distinct tags that cover a multiset, each counting its tag, add up to its size. */
  lemma {:induction false} SumOfDistinctCounts(table: seq<TagFrequency>, m: multiset<string>)
    requires forall i :: 0 <= i < |table| ==> table[i].count == m[table[i].tag]
    requires forall i, j :: 0 <= i < j < |table| ==> table[i].tag != table[j].tag
    requires forall t :: t in m ==> exists i :: 0 <= i < |table| && table[i].tag == t
    ensures SumCounts(table) == |m|
  {
    if table == [] {
      assert m == multiset{};
    } else {
      var k := table[0].tag;
      var rest := m[k := 0];
      forall t | t in rest ensures exists i :: 0 <= i < |table[1..]| && table[1..][i].tag == t {
        var i :| 0 <= i < |table| && table[i].tag == t;
        assert table[1..][i - 1] == table[i];
      }
      SumOfDistinctCounts(table[1..], rest);
      MultisetCardSplit(m, k);
    }
  }

  /** The counts add up to the number of tag occurrences, which is less than the number of posts when some have no tags. */
  lemma TagFrequencyTableTotal(posts: seq<PostMeta>)
    ensures SumCounts(TagFrequencyTable(posts)) == |AllTags(posts)|
  {
    TagFrequencyTableCounts(posts);
    assert forall t :: t in multiset(AllTags(posts)) ==> t in AllTags(posts);
    SumOfDistinctCounts(TagFrequencyTable(posts), multiset(AllTags(posts)));
  }

  // ---------------------------------------------------------------- filtering

  /** `selectedTags.some(tag => post.tags.includes(tag))`. */
  predicate SharesTag(post: PostMeta, selected: seq<string>) {
    exists i :: 0 <= i < |selected| && selected[i] in post.tags
  }

  /** The lower-cased query occurs in the lower-cased title, content or some tag. */
  predicate MatchesQuery(post: PostMeta, query: string) {
    || Contains(Lower(post.title), query)
    || Contains(Lower(post.content), query)
    || exists i :: 0 <= i < |post.tags| && Contains(Lower(post.tags[i]), query)
  }

  /**
   * Whether a post is in the filtered view: with tags selected it must carry one of them;
   * with a query that is not blank, the whole query, lower-cased but not trimmed, must
   * occur in it.
   */
  predicate Kept(post: PostMeta, query: string, selected: seq<string>) {
    && (|selected| == 0 || SharesTag(post, selected))
    && (AllSpace(query) || MatchesQuery(post, Lower(query)))
  }

  /** The tag filter, then the text filter, each applied only when active. */
  function FilterPosts(posts: seq<PostMeta>, query: string, selected: seq<string>): (view: seq<PostMeta>)
    ensures IsSubsequence(view, posts)
    ensures forall p :: multiset(view)[p] == if Kept(p, query, selected) then multiset(posts)[p] else 0
    ensures |selected| == 0 && AllSpace(query) ==> view == posts
  {
    var tagTest := p => SharesTag(p, selected);
    var byTags := if |selected| > 0 then Filter(posts, tagTest) else posts;
    SubsequenceRefl(posts);
    FilterCounts(posts, tagTest);
    FilterSubsequence(posts, tagTest);
    if Trim(query) != [] then
      var q := Lower(query);
      var textTest := p => MatchesQuery(p, q);
      var view := Filter(byTags, textTest);
      FilterCounts(byTags, textTest);
      FilterSubsequence(byTags, textTest);
      SubsequenceTrans(view, byTags, posts);
      view
    else byTags
  }

  // ---------------------------------------------------------------- tag selection

  /**
   * `tags.filter(t => t !== tag)`: every copy of `tag` dropped, the other tags kept with
   * their copies and in their order.
   */
  function Without(tags: seq<string>, tag: string): (r: seq<string>)
    ensures tag !in r
    ensures IsSubsequence(r, tags)
    ensures forall u :: u != tag ==> multiset(r)[u] == multiset(tags)[u]
    ensures tag !in tags ==> r == tags
  {
    var keep := (t: string) => t != tag;
    FilterCounts(tags, keep);
    FilterSubsequence(tags, keep);
    assert tag !in tags ==> Filter(tags, keep) == tags by {
      if tag !in tags {
        FilterAll(tags, keep);
      }
    }
    Filter(tags, keep)
  }

  /** The selection after `toggleTag(tag)`: every copy removed if present, else appended. */
  function Toggled(tags: seq<string>, tag: string): seq<string> {
    if tag in tags then Without(tags, tag) else tags + [tag]
  }

  /**
   * Toggling flips whether `tag` is selected. Removing keeps every other tag, its copies
   * and their relative order; adding puts `tag` after the tags already selected.
   */
  lemma ToggledChangesOnlyTag(tags: seq<string>, tag: string)
    ensures tag in Toggled(tags, tag) <==> tag !in tags
    ensures Without(Toggled(tags, tag), tag) == Without(tags, tag)
    ensures tag in tags ==> (IsSubsequence(Toggled(tags, tag), tags)
      && forall u :: u != tag ==> multiset(Toggled(tags, tag))[u] == multiset(tags)[u])
    ensures tag !in tags ==> Toggled(tags, tag) == tags + [tag]
  {
    if tag !in tags {
      WithoutAppendTag(tags, tag);
    }
  }

  /** Filtering `tag` out of the selection with `tag` appended gives the selection back. */
  lemma WithoutAppendTag(tags: seq<string>, tag: string)
    requires tag !in tags
    ensures Without(tags + [tag], tag) == tags
  {
    var keep := (t: string) => t != tag;
    FilterAppend(tags, [tag], keep);
    FilterAll(tags, keep);
    assert Filter([tag], keep) == [];
  }

  /**
   * Toggling a tag twice restores the selection exactly when the tag was not selected,
   * or was selected once as the last tag; otherwise a single copy ends up at the end.
   */
  lemma ToggleTwiceRestores(tags: seq<string>, tag: string)
    ensures Toggled(Toggled(tags, tag), tag) == tags
      <==> tag !in tags || (multiset(tags)[tag] == 1 && tags[|tags| - 1] == tag)
  {
    if tag !in tags {
      WithoutAppendTag(tags, tag);
    } else {
      var once := Without(tags, tag);
      assert Toggled(Toggled(tags, tag), tag) == once + [tag];
      if multiset(tags)[tag] == 1 && tags[|tags| - 1] == tag {
        var prefix := tags[..|tags| - 1];
        assert tags == prefix + [tag];
        assert multiset(tags) == multiset(prefix) + multiset{tag};
        WithoutAppendTag(prefix, tag);
      }
      if once + [tag] == tags {
        assert multiset(tags) == multiset(once) + multiset{tag};
      }
    }
  }

  /** Toggling any tag twice restores the set of selected tags. */
  lemma ToggleTwiceSameSet(tags: seq<string>, tag: string)
    ensures forall u :: u in Toggled(Toggled(tags, tag), tag) <==> u in tags
  {
    var once := Toggled(tags, tag);
    if tag !in tags {
      ToggleTwiceRestores(tags, tag);
    } else {
      forall u ensures u in Toggled(once, tag) <==> u in tags {
        if u != tag {
          assert multiset(once)[u] == multiset(tags)[u];
          assert u in once <==> u in tags;
        }
      }
    }
  }

  // ---------------------------------------------------------------- lookup

  /** `posts.find(post => post.slug === slug)`: the first post with that slug, if any. */
  function FindBySlug(posts: seq<PostMeta>, slug: string): (r: Option<PostMeta>)
    ensures r.None? <==> forall i :: 0 <= i < |posts| ==> posts[i].slug != slug
    ensures r.Some? ==> exists i :: (0 <= i < |posts| && posts[i] == r.value && r.value.slug == slug
      && forall j :: 0 <= j < i ==> posts[j].slug != slug)
  {
    if posts == [] then None
    else if posts[0].slug == slug then
      assert posts[0] == posts[0];
      Some(posts[0])
    else
      var r := FindBySlug(posts[1..], slug);
      assert forall i :: 1 <= i < |posts| ==> posts[i] == posts[1..][i - 1];
      r
  }

  predicate UniqueSlugs(posts: seq<PostMeta>) {
    forall i, j :: 0 <= i < j < |posts| ==> posts[i].slug != posts[j].slug
  }

  /** With unique slugs, looking up each post's slug finds exactly that post. */
  lemma FindBySlugRoundTrip(posts: seq<PostMeta>, k: nat)
    requires UniqueSlugs(posts) && k < |posts|
    ensures FindBySlug(posts, posts[k].slug) == Some(posts[k])
  {
    var r := FindBySlug(posts, posts[k].slug);
    var i :| 0 <= i < |posts| && posts[i] == r.value && r.value.slug == posts[k].slug
      && forall j :: 0 <= j < i ==> posts[j].slug != posts[k].slug;
    assert i == k;
  }

  // ---------------------------------------------------------------- counting loop

  /** The `Map` that counting `seen` one tag at a time leaves behind. */
  ghost function CountMap<T(!new)>(seen: seq<T>): (m: map<T, int>)
    ensures forall t :: t in m <==> t in seen
    ensures forall t :: t in m ==> m[t] == multiset(seen)[t]
  {
    if seen == [] then map[]
    else
      var init, last := seen[..|seen| - 1], seen[|seen| - 1];
      assert seen == init + [last];
      var m := CountMap(init);
      m[last := (if last in m then m[last] else 0) + 1]
  }

  /** The counting map of the frequency computation: its keys in insertion order and their counts. */
  ghost predicate CountsOf<T(!new)>(keys: seq<T>, tagMap: map<T, int>, seen: seq<T>) {
    keys == FirstSeen(seen) && tagMap == CountMap(seen)
  }

  /** The map entries as `{ tag, count }` records, in insertion order. */
  function Entries(keys: seq<string>, tagMap: map<string, int>): seq<TagFrequency>
    requires forall t :: t in keys ==> t in tagMap
  {
    seq(|keys|, k requires 0 <= k < |keys| => TagFrequency(keys[k], tagMap[keys[k]]))
  }

  /** One `tagMap.set(tag, (tagMap.get(tag) || 0) + 1)` keeps the map counting what has been seen. */
  lemma CountStep<T(!new)>(keys: seq<T>, tagMap: map<T, int>, seen: seq<T>, tag: T,
                      keys': seq<T>, tagMap': map<T, int>)
    requires CountsOf(keys, tagMap, seen)
    requires keys' == if tag in tagMap then keys else keys + [tag]
    requires tagMap' == tagMap[tag := (if tag in tagMap then tagMap[tag] else 0) + 1]
    ensures CountsOf(keys', tagMap', seen + [tag])
  {
    assert (seen + [tag])[..|seen|] == seen;
  }

  /** Moving the first of `tags` onto the end of `seen` leaves their concatenation unchanged. */
  lemma ShiftFirst<T>(seen: seq<T>, tags: seq<T>)
    requires tags != []
    ensures (seen + [tags[0]]) + tags[1..] == seen + tags
  {
    assert [tags[0]] + tags[1..] == tags;
    AppendAssoc(seen, [tags[0]], tags[1..]);
  }

  /** The keys and map left by counting `tags` one at a time into `keys` and `tagMap`. */
  function CountInto<T(==,!new)>(keys: seq<T>, tagMap: map<T, int>, tags: seq<T>): (r: (seq<T>, map<T, int>))
    decreases |tags|
  {
    if tags == [] then (keys, tagMap)
    else
      var tag := tags[0];
      var keys' := if tag in tagMap then keys else keys + [tag];
      var tagMap' := tagMap[tag := (if tag in tagMap then tagMap[tag] else 0) + 1];
      CountInto(keys', tagMap', tags[1..])
  }

  /** Counting more tags into a map that counts `seen` leaves one that counts `seen + tags` (`all`). */
  lemma {:induction false} CountIntoCounts<T(!new)>(keys: seq<T>, tagMap: map<T, int>, seen: seq<T>,
                                              tags: seq<T>, all: seq<T>)
    requires CountsOf(keys, tagMap, seen) && all == seen + tags
    ensures CountsOf(CountInto(keys, tagMap, tags).0, CountInto(keys, tagMap, tags).1, all)
    decreases |tags|
  {
    if tags == [] {
      assert all == seen;
    } else {
      var tag := tags[0];
      var keys' := if tag in tagMap then keys else keys + [tag];
      var tagMap' := tagMap[tag := (if tag in tagMap then tagMap[tag] else 0) + 1];
      CountStep(keys, tagMap, seen, tag, keys', tagMap');
      ShiftFirst(seen, tags);
      assert CountInto(keys, tagMap, tags) == CountInto(keys', tagMap', tags[1..]);
      CountIntoCounts(keys', tagMap', seen + [tag], tags[1..], all);
    }
  }

  /** `post.tags.forEach(tag => tagMap.set(tag, (tagMap.get(tag) || 0) + 1))`. */
  method CountPostTags(tags: seq<string>, keys0: seq<string>, tagMap0: map<string, int>, ghost seen: seq<string>)
    returns (keys: seq<string>, tagMap: map<string, int>)
    requires CountsOf(keys0, tagMap0, seen)
    ensures (keys, tagMap) == CountInto(keys0, tagMap0, tags)
    ensures CountsOf(keys, tagMap, seen + tags)
  {
    keys, tagMap := keys0, tagMap0;
    for j := 0 to |tags|
      invariant CountInto(keys, tagMap, tags[j..]) == CountInto(keys0, tagMap0, tags)
    {
      var tag := tags[j];
      assert tags[j..][1..] == tags[j + 1..];
      var current := if tag in tagMap then tagMap[tag] else 0;
      if tag !in tagMap {
        keys := keys + [tag];
      }
      tagMap := tagMap[tag := current + 1];
    }
    CountIntoCounts(keys0, tagMap0, seen, tags, seen + tags);
  }

  /** The counting loop over all posts, then `Array.from(tagMap.entries())`. */
  method CountTags(posts: seq<PostMeta>) returns (entries: seq<TagFrequency>)
    ensures entries == Tally(AllTags(posts))
  {
    var keys: seq<string> := [];
    var tagMap: map<string, int> := map[];
    for i := 0 to |posts|
      invariant CountsOf(keys, tagMap, AllTags(posts[..i]))
    {
      assert posts[..i + 1][..i] == posts[..i];
      keys, tagMap := CountPostTags(posts[i].tags, keys, tagMap, AllTags(posts[..i]));
    }
    assert posts[..|posts|] == posts;
    entries := Entries(keys, tagMap);
  }

  // ---------------------------------------------------------------- the hook's state

  class PostsHook {
    var postsIndex: Option<PostsIndex>
    var loading: bool
    var error: Option<string>
    var searchQuery: string
    var selectedTags: seq<string>

    /** `usePosts(initialTags)` on mount, before the fetch settles. */
    constructor (initialTags: seq<string> := [])
      ensures postsIndex == None && loading && error == None
      ensures searchQuery == "" && selectedTags == initialTags
    {
      postsIndex := None;
      loading := true;
      error := None;
      searchQuery := "";
      selectedTags := initialTags;
    }

    /** `postsIndex?.posts || []`. */
    function Posts(): seq<PostMeta>
      reads this
    {
      if postsIndex.Some? then postsIndex.value.posts else []
    }

    /**
     * `loadPosts`: on success the index is stored; on failure the error is recorded and
     * no index is exposed; either way loading ends.
     */
    method LoadPosts(outcome: LoadOutcome)
      modifies this`postsIndex, this`loading, this`error
      ensures !loading
      ensures postsIndex == if outcome.Fetched? then Some(outcome.index) else old(postsIndex)
      ensures error == match outcome
        case Fetched(_) => old(error)
        case BadResponse => Some(LoadFailedMessage)
        case Threw(message) => Some(message.GetOr(UnknownErrorMessage))
    {
      loading := true;
      match outcome {
        case Fetched(index) =>
          postsIndex := Some(index);
        case BadResponse =>
          error := Some(LoadFailedMessage);
        case Threw(message) =>
          error := Some(message.GetOr(UnknownErrorMessage));
      }
      loading := false;
    }

    /** `tagFrequencies`: counts tag occurrences in a map, then sorts its entries by count. */
    method TagFrequencies() returns (table: seq<TagFrequency>)
      ensures table == TagFrequencyTable(Posts())
      ensures postsIndex.None? ==> table == []
    {
      if postsIndex.None? {
        return [];
      }
      var entries := CountTags(postsIndex.value.posts);
      var a := new TagFrequency[|entries|](k requires 0 <= k < |entries| => entries[k]);
      assert a[..] == entries;
      SortInPlace(a, CountKey);
      table := a[..];
    }

    /** `filteredPosts`: the loaded posts through the active filters; none before loading. */
    function FilteredPosts(): (view: seq<PostMeta>)
      reads this
      ensures IsSubsequence(view, Posts())
      ensures postsIndex.None? ==> view == []
      ensures forall p :: (multiset(view)[p] ==
        if Kept(p, searchQuery, selectedTags) then multiset(Posts())[p] else 0)
      ensures |selectedTags| == 0 && AllSpace(searchQuery) ==> view == Posts()
    {
      if postsIndex.None? then [] else FilterPosts(postsIndex.value.posts, searchQuery, selectedTags)
    }

    method SetSearchQuery(query: string)
      modifies this`searchQuery
      ensures searchQuery == query
    {
      searchQuery := query;
    }

    /** `toggleTag(tag)`. */
    method ToggleTag(tag: string)
      modifies this`selectedTags
      ensures selectedTags == Toggled(old(selectedTags), tag)
    {
      if tag in selectedTags {
        selectedTags := Without(selectedTags, tag);
      } else {
        selectedTags := selectedTags + [tag];
      }
    }

    /** `clearFilters()`: afterwards the filtered view is every loaded post. */
    method ClearFilters()
      modifies this`searchQuery, this`selectedTags
      ensures searchQuery == "" && selectedTags == []
      ensures FilteredPosts() == Posts()
    {
      searchQuery := "";
      selectedTags := [];
    }

    /** `getPostBySlug(slug)`: the first loaded post with that slug, none before loading. */
    function GetPostBySlug(slug: string): (r: Option<PostMeta>)
      reads this
      ensures postsIndex.None? ==> r.None?
      ensures r.None? <==> forall i :: 0 <= i < |Posts()| ==> Posts()[i].slug != slug
      ensures r.Some? ==> r.value in Posts() && r.value.slug == slug
      ensures r.Some? ==> exists i :: (0 <= i < |Posts()| && Posts()[i] == r.value
        && forall j :: 0 <= j < i ==> Posts()[j].slug != slug)
      ensures postsIndex.Some? ==> r == FindBySlug(postsIndex.value.posts, slug)
    {
      match postsIndex
      case None => None
      case Some(index) =>
        assert Posts() == index.posts;
        FindBySlug(index.posts, slug)
    }
  }
}
