/**
 * The build-time index generator (`scripts/generate-posts-index.ts`): walks the content
 * tree, turns every markdown file that reads and parses into a post record, and sorts the
 * records newest first.
 *
 * The file system is a tree value, a file whose read fails has no contents, the
 * front-matter parser is a function parameter, and dates are integer timestamps.
 */
module PostsIndexBuilder {
  import opened Wrappers
  import opened Text
  import opened Blog
  import opened StableSort
  import opened Seqs
  import ReadingTime

  const WordsPerMinute := 200
  const ExcerptLength := 150

  /** An entry of a directory listing, in the order the listing returns them. */
  datatype Node =
    | File(name: string, contents: Option<string>)
    | Dir(name: string, children: seq<Node>)

  /**
   * The front-matter keys the builder reads. `None` is a missing, `null` or otherwise
   * falsy value; an empty string is kept as `Some("")` and is falsy too.
   */
  datatype FrontMatter = FrontMatter(
    title: Option<string>,
    date: Option<int>,
    tags: Option<seq<string>>,
    excerpt: Option<string>)

  /**
   * What the build runs against: the front-matter parser (`None` when it throws; on
   * success the keys and the body), the host's path separator and the clock, where
   * `clock(k)` is what `new Date()` gives the k-th time it is read during the build.
   */
  datatype Env = Env(parse: string -> Option<(FrontMatter, string)>, sep: char, clock: nat -> int)

  /** A clock that never goes back. */
  ghost predicate Monotone(clock: nat -> int) {
    forall k, m :: k <= m ==> clock(k) <= clock(m)
  }

  /** The builder's own reading-time estimate: words split on whitespace runs, 200 per minute. */
  function CalculateReadingTime(content: string): (minutes: int)
    ensures minutes >= 1
    ensures (minutes - 1) * WordsPerMinute < ReadingTime.WordCount(content) <= minutes * WordsPerMinute
    ensures minutes == ReadingTime.CalculateReadingTime(content, ReadingTime.DefaultWordsPerMinute)
  {
    ReadingTime.CeilDiv(ReadingTime.WordCount(content), WordsPerMinute)
  }

  function SlashChar(c: char): char {
    if c == '\\' then '/' else c
  }

  /** `.replace(/\\/g, '/')`: every backslash becomes a forward slash. */
  function NormalizeSeparators(p: string): (r: string)
    ensures |r| == |p|
    ensures '\\' !in r
    ensures forall i :: 0 <= i < |p| ==> r[i] == SlashChar(p[i])
  {
    seq(|p|, i requires 0 <= i < |p| => SlashChar(p[i]))
  }

  /** `.replace(/\.md$/, '')`: drops a final ".md". */
  function StripMarkdownExtension(p: string): string {
    if EndsWith(p, ".md") then p[..|p| - 3] else p
  }

  /**
   * The slug of a markdown file: its path relative to the content root without the
   * ".md" extension, with backslashes turned into forward slashes.
   */
  function Slug(relPath: string): (slug: string)
    ensures '\\' !in slug
    ensures |slug| <= |relPath|
    ensures EndsWith(relPath, ".md") ==> |slug| == |relPath| - 3
    ensures forall i :: 0 <= i < |slug| ==> slug[i] == SlashChar(relPath[i])
  {
    NormalizeSeparators(StripMarkdownExtension(relPath))
  }

  predicate IsMarkdownControl(c: char) {
    c == '#' || c == '*' || c == '`' || c == '\n'
  }

  /** `.replace(/[#*`\n]/g, ' ')`. */
  function BlankMarkdownControls(s: string): (r: string)
    ensures |r| == |s|
    ensures forall i :: 0 <= i < |r| ==> !IsMarkdownControl(r[i])
    ensures forall i :: 0 <= i < |s| ==> r[i] == if IsMarkdownControl(s[i]) then ' ' else s[i]
  {
    seq(|s|, i requires 0 <= i < |s| => if IsMarkdownControl(s[i]) then ' ' else s[i])
  }

  /** The first `ExcerptLength` characters of `body`, or all of it when shorter (`slice(0, 150)`). */
  function ExcerptHead(body: string): (head: string)
    ensures |head| <= ExcerptLength && |head| <= |body|
    ensures head == body[..|head|]
    ensures |body| <= ExcerptLength ==> head == body
  {
    if |body| <= ExcerptLength then body else body[..ExcerptLength]
  }

  /**
   * The excerpt derived from a body: its first 150 characters with the markdown control
   * characters blanked out and the surrounding whitespace trimmed: the stretch of that
   * blanked head between its first and last non-space characters, empty when it is all
   * whitespace.
   */
  function DerivedExcerpt(body: string): (excerpt: string)
    ensures |excerpt| <= ExcerptLength
    ensures forall i :: 0 <= i < |excerpt| ==> !IsMarkdownControl(excerpt[i])
    ensures excerpt == [] || (!IsSpace(excerpt[0]) && !IsSpace(excerpt[|excerpt| - 1]))
    ensures var blanked := BlankMarkdownControls(ExcerptHead(body));
      exists i, j :: 0 <= i <= j <= |blanked| && excerpt == blanked[i..j] && AllSpace(blanked[..i]) && AllSpace(blanked[j..])
    ensures excerpt == [] <==> AllSpace(BlankMarkdownControls(ExcerptHead(body)))
  {
    TrimmedBlankedIsControlFree(ExcerptHead(body));
    Trim(BlankMarkdownControls(ExcerptHead(body)))
  }

  lemma TrimmedBlankedIsControlFree(s: string)
    ensures var r := Trim(BlankMarkdownControls(s));
      |r| <= |s| && forall k :: 0 <= k < |r| ==> !IsMarkdownControl(r[k])
  {
    var blanked := BlankMarkdownControls(s);
    var r := Trim(blanked);
    assert forall k :: 0 <= k < |blanked| ==> !IsMarkdownControl(blanked[k]);
    var i, j :| 0 <= i <= j <= |blanked| && r == blanked[i..j];
    forall k | 0 <= k < |r| ensures !IsMarkdownControl(r[k]) {
      assert r[k] == blanked[i + k];
    }
  }

  /**
   * The record for a markdown file that read and parsed, each field with its fallback;
   * `taken` clock readings precede it, and a missing date takes the next.
   */
  function MakePost(env: Env, taken: nat, relPath: string, fullPath: string, data: FrontMatter, markdown: string): (post: PostMeta)
    ensures post.slug == Slug(relPath)
    ensures post.title == if Truthy(data.title) then data.title.value else post.slug
    ensures post.date == if data.date.Some? then data.date.value else env.clock(taken)
    ensures post.tags == data.tags.GetOr([])
    ensures post.excerpt == if Truthy(data.excerpt) then data.excerpt.value else DerivedExcerpt(markdown)
    ensures post.content == markdown
    ensures post.readingTime == CalculateReadingTime(markdown) >= 1
    ensures post.filePath == fullPath
  {
    var slug := Slug(relPath);
    PostMeta(
      slug,
      if Truthy(data.title) then data.title.value else slug,
      if data.date.Some? then data.date.value else env.clock(taken),
      data.tags.GetOr([]),
      if Truthy(data.excerpt) then data.excerpt.value else DerivedExcerpt(markdown),
      markdown,
      CalculateReadingTime(markdown),
      fullPath)
  }

  /**
   * The posts one directory entry that is a file yields: none unless its name ends in
   * ".md"; none when reading or parsing it fails (the error is caught and the file skipped).
   */
  function FilePosts(env: Env, taken: nat, relPath: string, fullPath: string, name: string, contents: Option<string>): (posts: seq<PostMeta>)
    ensures |posts| <= 1
    ensures |posts| == 1 <==> EndsWith(name, ".md") && contents.Some? && env.parse(contents.value).Some?
    ensures |posts| == 1 ==> posts[0] == MakePost(env, taken, relPath, fullPath, env.parse(contents.value).value.0, env.parse(contents.value).value.1)
  {
    if !EndsWith(name, ".md") then []
    else match contents
      case None => []
      case Some(text) =>
        match env.parse(text)
        case None => []
        case Some((data, markdown)) => [MakePost(env, taken, relPath, fullPath, data, markdown)]
  }

  /** The clock readings one file costs: one for a markdown file that parses without a date. */
  function FileClockReads(name: string, contents: Option<string>, parse: string -> Option<(FrontMatter, string)>): nat {
    if EndsWith(name, ".md") && contents.Some? && parse(contents.value).Some? && parse(contents.value).value.0.date.None?
    then 1 else 0
  }

  /** The dates written in the front matter of the markdown files that read and parse. */
  function FrontMatterDates(entries: seq<Node>, parse: string -> Option<(FrontMatter, string)>): set<int>
    decreases entries
  {
    if entries == [] then {}
    else
      FrontMatterDates(entries[..|entries| - 1], parse) +
      match entries[|entries| - 1]
      case Dir(_, children) => FrontMatterDates(children, parse)
      case File(name, contents) =>
        if EndsWith(name, ".md") && contents.Some? && parse(contents.value).Some? && parse(contents.value).value.0.date.Some?
        then {parse(contents.value).value.0.date.value} else {}
  }

  function SubDir(dir: string, name: string, sep: char): string {
    dir + name + [sep]
  }

  /** What a walk yields: the posts in the order collected, and the clock readings taken once it is done. */
  datatype Walked = Walked(posts: seq<PostMeta>, taken: nat)

  /**
   * The walk of a listing, in listing order, directories depth first, when `taken` clock
   * readings were made before it started. Readings are only ever added.
   */
  function Walk(entries: seq<Node>, relDir: string, fullDir: string, env: Env, taken: nat): (w: Walked)
    ensures w.taken >= taken
    decreases entries
  {
    if entries == [] then Walked([], taken)
    else
      var front := Walk(entries[..|entries| - 1], relDir, fullDir, env, taken);
      var back := match entries[|entries| - 1]
        case Dir(name, children) => Walk(children, SubDir(relDir, name, env.sep), SubDir(fullDir, name, env.sep), env, front.taken)
        case File(name, contents) =>
          Walked(FilePosts(env, front.taken, relDir + name, fullDir + name, name, contents),
                 front.taken + FileClockReads(name, contents, env.parse));
      Walked(front.posts + back.posts, back.taken)
  }

  /** What one listing entry contributes to a walk that has taken `taken` readings. */
  function EntryWalk(entry: Node, relDir: string, fullDir: string, env: Env, taken: nat): Walked {
    match entry
    case Dir(name, children) => Walk(children, SubDir(relDir, name, env.sep), SubDir(fullDir, name, env.sep), env, taken)
    case File(name, contents) =>
      Walked(FilePosts(env, taken, relDir + name, fullDir + name, name, contents), taken + FileClockReads(name, contents, env.parse))
  }

  /** Where the walk starts, written with the host's separator. */
  function RootDir(sep: char): string {
    "src" + [sep] + "pages" + [sep]
  }

  /** The walk of the content root; a missing root yields no posts and reads no clock. */
  function Scanned(root: Option<seq<Node>>, env: Env): Walked {
    match root
    case None => Walked([], 0)
    case Some(entries) => Walk(entries, "", RootDir(env.sep), env, 0)
  }

  function ScannedPosts(root: Option<seq<Node>>, env: Env): seq<PostMeta> {
    Scanned(root, env).posts
  }

  /** The walk of the first `i + 1` entries is that of the first `i`, then entry `i`. */
  lemma WalkPrefixStep(entries: seq<Node>, i: nat, relDir: string, fullDir: string, env: Env, taken: nat)
    requires i < |entries|
    ensures var front := Walk(entries[..i], relDir, fullDir, env, taken);
      var step := EntryWalk(entries[i], relDir, fullDir, env, front.taken);
      Walk(entries[..i + 1], relDir, fullDir, env, taken) == Walked(front.posts + step.posts, step.taken)
  {
    assert entries[..i + 1][..i] == entries[..i];
  }

  /** One entry of the listing moves the walk's posts and clock readings one entry on. */
  lemma ScanStep(entries: seq<Node>, i: nat, relDir: string, fullDir: string, env: Env, taken: nat,
                 posts: seq<PostMeta>, out: seq<PostMeta>, out': seq<PostMeta>, takenAfter': nat)
    requires i < |entries|
    requires out == posts + Walk(entries[..i], relDir, fullDir, env, taken).posts
    requires var step := EntryWalk(entries[i], relDir, fullDir, env, Walk(entries[..i], relDir, fullDir, env, taken).taken);
      out' == out + step.posts && takenAfter' == step.taken
    ensures out' == posts + Walk(entries[..i + 1], relDir, fullDir, env, taken).posts
    ensures takenAfter' == Walk(entries[..i + 1], relDir, fullDir, env, taken).taken
  {
    var front := Walk(entries[..i], relDir, fullDir, env, taken);
    WalkPrefixStep(entries, i, relDir, fullDir, env, taken);
    AppendAssoc(posts, front.posts, EntryWalk(entries[i], relDir, fullDir, env, front.taken).posts);
  }

  /**
   * `scan(currentDir)`: appends the posts under one directory to `posts`. The clock has
   * been read `taken` times before, and `takenAfter` times once the walk is done.
   */
  method Scan(entries: seq<Node>, relDir: string, fullDir: string, env: Env, posts: seq<PostMeta>, taken: nat)
    returns (out: seq<PostMeta>, takenAfter: nat)
    ensures out == posts + Walk(entries, relDir, fullDir, env, taken).posts
    ensures takenAfter == Walk(entries, relDir, fullDir, env, taken).taken
    decreases entries
  {
    out, takenAfter := posts, taken;
    for i := 0 to |entries|
      invariant out == posts + Walk(entries[..i], relDir, fullDir, env, taken).posts
      invariant takenAfter == Walk(entries[..i], relDir, fullDir, env, taken).taken
    {
      ghost var before := out;
      ghost var step := EntryWalk(entries[i], relDir, fullDir, env, takenAfter);
      match entries[i] {
        case Dir(name, children) =>
          out, takenAfter := Scan(children, SubDir(relDir, name, env.sep), SubDir(fullDir, name, env.sep), env, out, takenAfter);
        case File(name, contents) =>
          if EndsWith(name, ".md") {
            var found := FilePosts(env, takenAfter, relDir + name, fullDir + name, name, contents);
            out := out + found;
            takenAfter := takenAfter + FileClockReads(name, contents, env.parse);
          } else {
            assert step.posts == [] && step.taken == takenAfter;
          }
      }
      assert out == before + step.posts && takenAfter == step.taken;
      ScanStep(entries, i, relDir, fullDir, env, taken, posts, before, out, takenAfter);
    }
    assert entries[..|entries|] == entries;
  }

  /** `scanMarkdownFiles('src/pages')`: a missing root is reported and yields no posts. */
  method ScanMarkdownFiles(root: Option<seq<Node>>, env: Env) returns (posts: seq<PostMeta>, taken: nat)
    ensures posts == ScannedPosts(root, env) && taken == Scanned(root, env).taken
    ensures root.None? ==> posts == [] && taken == 0
  {
    posts, taken := [], 0;
    if root.Some? {
      posts, taken := Scan(root.value, "", RootDir(env.sep), env, posts, 0);
      AppendEmpty(Walk(root.value, "", RootDir(env.sep), env, 0).posts);
    }
  }

  function DateKey(post: PostMeta): int {
    post.date
  }

  /**
   * The whole build: scan, sort in place newest first with a stable sort, and stamp
   * the index with one more reading of the clock.
   */
  method GeneratePostsIndex(root: Option<seq<Node>>, env: Env) returns (index: PostsIndex)
    ensures index.lastGenerated == env.clock(Scanned(root, env).taken)
    ensures index.posts == SortDesc(ScannedPosts(root, env), DateKey)
    ensures SortedDesc(index.posts, DateKey)
    ensures multiset(index.posts) == multiset(ScannedPosts(root, env))
    ensures forall d :: WithKey(index.posts, DateKey, d) == WithKey(ScannedPosts(root, env), DateKey, d)
    ensures Monotone(env.clock) ==> forall p :: (p in index.posts
      && (root.Some? ==> p.date !in FrontMatterDates(root.value, env.parse))) ==> p.date <= index.lastGenerated
  {
    var posts, taken := ScanMarkdownFiles(root, env);
    var a := new PostMeta[|posts|](i requires 0 <= i < |posts| => posts[i]);
    assert a[..] == posts;
    SortInPlace(a, DateKey);
    index := PostsIndex(a[..], env.clock(taken));
    SortDescSorted(posts, DateKey);
    SortDescPermutes(posts, DateKey);
    forall d ensures WithKey(index.posts, DateKey, d) == WithKey(posts, DateKey, d) {
      SortDescStable(posts, DateKey, d);
    }
    if Monotone(env.clock) {
      ClockDatesPrecedeStamp(root, env);
      forall p | p in index.posts ensures p in posts {
        assert p in multiset(index.posts);
      }
    }
  }

  /** Number of markdown files in the tree that read and parse, the reference for the scan's size. */
  function ParsedMarkdownCount(entries: seq<Node>, parse: string -> Option<(FrontMatter, string)>): nat
    decreases entries
  {
    if entries == [] then 0
    else
      ParsedMarkdownCount(entries[..|entries| - 1], parse) +
      match entries[|entries| - 1]
      case Dir(_, children) => ParsedMarkdownCount(children, parse)
      case File(name, contents) =>
        if EndsWith(name, ".md") && contents.Some? && parse(contents.value).Some? then 1 else 0
  }

  /**
   * The scan yields exactly one post per markdown file that reads and parses: failing
   * files are skipped, other files ignored, directories descended into.
   */
  lemma {:induction false} WalkCount(entries: seq<Node>, relDir: string, fullDir: string, env: Env, taken: nat)
    ensures |Walk(entries, relDir, fullDir, env, taken).posts| == ParsedMarkdownCount(entries, env.parse)
    decreases entries
  {
    if entries != [] {
      var init := entries[..|entries| - 1];
      var front := Walk(init, relDir, fullDir, env, taken);
      WalkCount(init, relDir, fullDir, env, taken);
      match entries[|entries| - 1]
      case Dir(name, children) =>
        WalkCount(children, SubDir(relDir, name, env.sep), SubDir(fullDir, name, env.sep), env, front.taken);
      case File(name, contents) =>
    }
  }

  /** What every built record satisfies whatever its front matter says. */
  predicate WellBuilt(post: PostMeta) {
    && '\\' !in post.slug
    && post.readingTime == CalculateReadingTime(post.content)
    && post.readingTime >= 1
  }

  lemma {:induction false} WalkWellBuilt(entries: seq<Node>, relDir: string, fullDir: string, env: Env, taken: nat)
    ensures forall p :: p in Walk(entries, relDir, fullDir, env, taken).posts ==> WellBuilt(p)
    decreases entries
  {
    if entries != [] {
      var init := entries[..|entries| - 1];
      var front := Walk(init, relDir, fullDir, env, taken);
      WalkWellBuilt(init, relDir, fullDir, env, taken);
      match entries[|entries| - 1]
      case Dir(name, children) =>
        WalkWellBuilt(children, SubDir(relDir, name, env.sep), SubDir(fullDir, name, env.sep), env, front.taken);
      case File(name, contents) =>
    }
  }

  /** A date that is one of the clock readings numbered `from` up to, not including, `to`. */
  ghost predicate ClockDated(date: int, env: Env, from: nat, to: nat) {
    exists k :: from <= k < to && date == env.clock(k)
  }

  /**
   * Every collected date is either written in some file's front matter or one of the
   * clock readings the walk itself took.
   */
  lemma {:induction false} WalkDates(entries: seq<Node>, relDir: string, fullDir: string, env: Env, taken: nat)
    ensures var w := Walk(entries, relDir, fullDir, env, taken);
      forall p :: p in w.posts ==>
        (p.date in FrontMatterDates(entries, env.parse) || ClockDated(p.date, env, taken, w.taken))
    decreases entries
  {
    if entries != [] {
      var init, last := entries[..|entries| - 1], entries[|entries| - 1];
      var front := Walk(init, relDir, fullDir, env, taken);
      var w := Walk(entries, relDir, fullDir, env, taken);
      WalkDates(init, relDir, fullDir, env, taken);
      forall p | p in front.posts
        ensures p.date in FrontMatterDates(entries, env.parse) || ClockDated(p.date, env, taken, w.taken)
      {
        if !(p.date in FrontMatterDates(init, env.parse)) {
          var k :| taken <= k < front.taken && p.date == env.clock(k);
        }
      }
      match last {
        case Dir(name, children) =>
          var sub := Walk(children, SubDir(relDir, name, env.sep), SubDir(fullDir, name, env.sep), env, front.taken);
          WalkDates(children, SubDir(relDir, name, env.sep), SubDir(fullDir, name, env.sep), env, front.taken);
          forall p | p in sub.posts
            ensures p.date in FrontMatterDates(entries, env.parse) || ClockDated(p.date, env, taken, w.taken)
          {
            if !(p.date in FrontMatterDates(children, env.parse)) {
              var k :| front.taken <= k < sub.taken && p.date == env.clock(k);
            }
          }
        case File(name, contents) =>
          var posts := FilePosts(env, front.taken, relDir + name, fullDir + name, name, contents);
          if posts != [] && env.parse(contents.value).value.0.date.None? {
            assert posts[0].date == env.clock(front.taken);
            assert ClockDated(posts[0].date, env, taken, w.taken);
          }
      }
    }
  }

  /**
   * With a clock that never goes back, every post dated by the clock is no later than
   * the index's `lastGenerated` stamp, which is read after the whole scan.
   */
  lemma ClockDatesPrecedeStamp(root: Option<seq<Node>>, env: Env)
    requires Monotone(env.clock)
    ensures forall p :: ((p in ScannedPosts(root, env) && (root.Some? ==> p.date !in FrontMatterDates(root.value, env.parse)))
      ==> p.date <= env.clock(Scanned(root, env).taken))
  {
    if root.Some? {
      WalkDates(root.value, "", RootDir(env.sep), env, 0);
    }
  }

  /** The records with the host-specific `filePath` blanked out. */
  function Unlocated(posts: seq<PostMeta>): (r: seq<PostMeta>)
    ensures |r| == |posts|
    ensures forall i :: 0 <= i < |r| ==> r[i] == posts[i].(filePath := "")
  {
    if posts == [] then [] else Unlocated(posts[..|posts| - 1]) + [posts[|posts| - 1].(filePath := "")]
  }

  lemma {:induction false} UnlocatedAppend(a: seq<PostMeta>, b: seq<PostMeta>)
    ensures Unlocated(a + b) == Unlocated(a) + Unlocated(b)
  {
    if b != [] {
      assert (a + b)[..|a + b| - 1] == a + b[..|b| - 1];
      UnlocatedAppend(a, b[..|b| - 1]);
    } else {
      assert a + b == a;
    }
  }

  predicate IsSeparator(c: char) {
    c == '/' || c == '\\'
  }

  lemma SlugOfSameFile(relDir1: string, relDir2: string, name: string)
    requires NormalizeSeparators(relDir1) == NormalizeSeparators(relDir2)
    requires EndsWith(name, ".md")
    ensures Slug(relDir1 + name) == Slug(relDir2 + name)
  {
    var p1, p2 := relDir1 + name, relDir2 + name;
    assert p1[|p1| - 3..] == name[|name| - 3..];
    assert p2[|p2| - 3..] == name[|name| - 3..];
    var s1, s2 := Slug(p1), Slug(p2);
    forall i | 0 <= i < |s1| ensures s1[i] == s2[i] {
      if i < |relDir1| {
        assert NormalizeSeparators(relDir1)[i] == NormalizeSeparators(relDir2)[i];
      }
    }
  }

  lemma SubDirNormalized(relDir1: string, relDir2: string, name: string, sep1: char, sep2: char)
    requires NormalizeSeparators(relDir1) == NormalizeSeparators(relDir2)
    requires IsSeparator(sep1) && IsSeparator(sep2)
    ensures NormalizeSeparators(SubDir(relDir1, name, sep1)) == NormalizeSeparators(SubDir(relDir2, name, sep2))
  {
    var d1, d2 := SubDir(relDir1, name, sep1), SubDir(relDir2, name, sep2);
    forall i | 0 <= i < |d1| ensures SlashChar(d1[i]) == SlashChar(d2[i]) {
      if i < |relDir1| {
        assert NormalizeSeparators(relDir1)[i] == NormalizeSeparators(relDir2)[i];
      }
    }
  }

  lemma FileIndependentOfSeparator(relDir1: string, relDir2: string, fullDir1: string, fullDir2: string,
    name: string, contents: Option<string>, parse: string -> Option<(FrontMatter, string)>,
    sep1: char, sep2: char, clock: nat -> int, taken: nat)
    requires NormalizeSeparators(relDir1) == NormalizeSeparators(relDir2)
    ensures Unlocated(FilePosts(Env(parse, sep1, clock), taken, relDir1 + name, fullDir1 + name, name, contents))
         == Unlocated(FilePosts(Env(parse, sep2, clock), taken, relDir2 + name, fullDir2 + name, name, contents))
  {
    if EndsWith(name, ".md") {
      SlugOfSameFile(relDir1, relDir2, name);
    }
  }

  /**
   * Apart from `filePath`, the records do not depend on the host's path separator: the
   * same tree yields the same slugs and fields, and takes as many clock readings, on
   * POSIX and on Windows.
   */
  lemma {:induction false} WalkIndependentOfSeparator(
    entries: seq<Node>, relDir1: string, relDir2: string, fullDir1: string, fullDir2: string,
    parse: string -> Option<(FrontMatter, string)>, sep1: char, sep2: char, clock: nat -> int, taken: nat)
    requires IsSeparator(sep1) && IsSeparator(sep2)
    requires NormalizeSeparators(relDir1) == NormalizeSeparators(relDir2)
    ensures var w1, w2 := Walk(entries, relDir1, fullDir1, Env(parse, sep1, clock), taken),
                          Walk(entries, relDir2, fullDir2, Env(parse, sep2, clock), taken);
      w1.taken == w2.taken && Unlocated(w1.posts) == Unlocated(w2.posts)
    decreases entries
  {
    if entries != [] {
      var env1, env2 := Env(parse, sep1, clock), Env(parse, sep2, clock);
      var init, last := entries[..|entries| - 1], entries[|entries| - 1];
      WalkIndependentOfSeparator(init, relDir1, relDir2, fullDir1, fullDir2, parse, sep1, sep2, clock, taken);
      var f1, f2 := Walk(init, relDir1, fullDir1, env1, taken), Walk(init, relDir2, fullDir2, env2, taken);
      var next := f1.taken;
      match last {
        case Dir(name, children) =>
          var d1, d2 := SubDir(relDir1, name, sep1), SubDir(relDir2, name, sep2);
          SubDirNormalized(relDir1, relDir2, name, sep1, sep2);
          WalkIndependentOfSeparator(children, d1, d2, SubDir(fullDir1, name, sep1), SubDir(fullDir2, name, sep2),
            parse, sep1, sep2, clock, next);
          UnlocatedAppend(f1.posts, Walk(children, d1, SubDir(fullDir1, name, sep1), env1, next).posts);
          UnlocatedAppend(f2.posts, Walk(children, d2, SubDir(fullDir2, name, sep2), env2, next).posts);
        case File(name, contents) =>
          var g1, g2 := FilePosts(env1, next, relDir1 + name, fullDir1 + name, name, contents),
                        FilePosts(env2, next, relDir2 + name, fullDir2 + name, name, contents);
          FileIndependentOfSeparator(relDir1, relDir2, fullDir1, fullDir2, name, contents, parse, sep1, sep2, clock, next);
          UnlocatedAppend(f1.posts, g1);
          UnlocatedAppend(f2.posts, g2);
      }
    }
  }

  /** The scan from the content root gives the same records and the same stamp on both kinds of host. */
  lemma ScanIndependentOfSeparator(root: Option<seq<Node>>, parse: string -> Option<(FrontMatter, string)>, clock: nat -> int)
    ensures Unlocated(ScannedPosts(root, Env(parse, '\\', clock))) == Unlocated(ScannedPosts(root, Env(parse, '/', clock)))
    ensures Scanned(root, Env(parse, '\\', clock)).taken == Scanned(root, Env(parse, '/', clock)).taken
  {
    if root.Some? {
      WalkIndependentOfSeparator(root.value, "", "", RootDir('\\'), RootDir('/'), parse, '\\', '/', clock, 0);
    }
  }

  /** The built index has one record per markdown file that reads and parses. */
  lemma ScannedCount(root: Option<seq<Node>>, env: Env)
    ensures |ScannedPosts(root, env)| == if root.None? then 0 else ParsedMarkdownCount(root.value, env.parse)
  {
    if root.Some? {
      WalkCount(root.value, "", RootDir(env.sep), env, 0);
    }
  }
}
