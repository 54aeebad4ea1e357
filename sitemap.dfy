/**
 * The sitemap generator (`scripts/generate-sitemap.ts`, `generateSitemap`): the fixed
 * pages and one entry per post, serialised as a Sitemaps XML document (protocol 0.9,
 * sitemaps.org). Values are inserted as they are, without XML escaping.
 */
module Sitemap {
  import opened Wrappers
  import opened Text
  import opened Seqs

  const BaseUrl := "https://jratul.github.io"
  const Header := "<?xml version=\"1.0\" encoding=\"UTF-8\"?>\n<urlset xmlns=\"http://www.sitemaps.org/schemas/sitemap/0.9\">\n"
  const Footer := "\n</urlset>"

  /** The two fields of an index record the generator reads; `date` is the stored text. */
  datatype Post = Post(slug: string, date: string)

  /** One `<url>` entry; `lastmod` is absent for the fixed pages. */
  datatype SitemapUrl = SitemapUrl(loc: string, lastmod: Option<string>, priority: string, changefreq: string)

  const HomeUrl := SitemapUrl("/", None, "1.0", "weekly")
  const AboutUrl := SitemapUrl("/about", None, "0.8", "monthly")

  function PostUrl(post: Post): SitemapUrl {
    SitemapUrl("/post/" + post.slug, Some(post.date), "0.9", "monthly")
  }

  /** The URL list: the home and about pages, then every post in input order. */
  function Urls(posts: seq<Post>): (urls: seq<SitemapUrl>)
    ensures |urls| == |posts| + 2
    ensures urls[0] == HomeUrl && urls[1] == AboutUrl
    ensures forall i :: 0 <= i < |posts| ==> urls[i + 2] == PostUrl(posts[i])
    ensures forall i :: 2 <= i < |urls| ==>
      (urls[i].loc == "/post/" + posts[i - 2].slug && urls[i].lastmod == Some(posts[i - 2].date))
  {
    [HomeUrl, AboutUrl] + seq(|posts|, i requires 0 <= i < |posts| => PostUrl(posts[i]))
  }

  /** `url.lastmod ? `<lastmod>…</lastmod>` : ''`. */
  function LastmodElement(lastmod: Option<string>): string {
    if Truthy(lastmod) then "<lastmod>" + lastmod.value + "</lastmod>" else ""
  }

  /** The opening of a `<url>` block up to and including its `<loc>` line. */
  function LocLine(loc: string): string {
    "  <url>\n    <loc>" + BaseUrl + loc + "</loc>\n    "
  }

  /** The `<changefreq>` and `<priority>` lines and the closing `</url>` tag. */
  function FieldLines(changefreq: string, priority: string): string {
    "\n    <changefreq>" + changefreq + "</changefreq>\n    <priority>" + priority + "</priority>\n  </url>"
  }

  /** The text of one `<url>` block. */
  function UrlBlock(url: SitemapUrl): string {
    LocLine(url.loc) + LastmodElement(url.lastmod) + FieldLines(url.changefreq, url.priority)
  }

  /** `blocks.join('\n')`. */
  function JoinLines(blocks: seq<string>): string {
    if blocks == [] then "" else if |blocks| == 1 then blocks[0] else blocks[0] + "\n" + JoinLines(blocks[1..])
  }

  function Blocks(urls: seq<SitemapUrl>): (blocks: seq<string>)
    ensures |blocks| == |urls|
    ensures forall i :: 0 <= i < |urls| ==> blocks[i] == UrlBlock(urls[i])
  {
    seq(|urls|, i requires 0 <= i < |urls| => UrlBlock(urls[i]))
  }

  /** `generateSitemap(posts)`: the declaration and `<urlset>`, the blocks, `</urlset>`. */
  function GenerateSitemap(posts: seq<Post>): (xml: string)
    ensures StartsWith(xml, Header) && EndsWith(xml, Footer)
  {
    var xml := Header + JoinLines(Blocks(Urls(posts))) + Footer;
    assert xml[..|Header|] == Header;
    assert xml[|xml| - |Footer|..] == Footer;
    xml
  }

  // ---------------------------------------------------------------- reading a sitemap back

  /** The rest of `s` after the literal `lit`, if `s` starts with it. */
  function Expect(s: string, lit: string): (r: Option<string>)
    ensures r.Some? ==> |r.value| == |s| - |lit|
  {
    if StartsWith(s, lit) then Some(s[|lit|..]) else None
  }

  /** Splits `s` before its first '<': an element's text and what follows. */
  function TextUntilTag(s: string): (r: (string, string))
    ensures r.0 + r.1 == s
  {
    var k := IndexOf(s, '<');
    (s[..k], s[k..])
  }

  /** The `<loc>` line: the location after the base URL, and the rest. */
  function ParseLoc(s: string): (r: Option<(string, string)>)
    ensures r.Some? ==> |r.value.1| < |s|
  {
    var s1 :- Expect(s, "  <url>\n    <loc>" + BaseUrl);
    var split := TextUntilTag(s1);
    var rest :- Expect(split.1, "</loc>\n    ");
    Some((split.0, rest))
  }

  /** The optional `<lastmod>` element, and the rest. */
  function ParseLastmod(s: string): (r: Option<(Option<string>, string)>)
    ensures r.Some? ==> |r.value.1| <= |s|
  {
    if StartsWith(s, "<lastmod>") then
      var split := TextUntilTag(s[9..]);
      var rest :- Expect(split.1, "</lastmod>");
      Some((Some(split.0), rest))
    else Some((None, s))
  }

  /** The `<changefreq>` and `<priority>` lines and the closing tag: both values, and the rest. */
  function ParseFrequencyAndPriority(s: string): (r: Option<(string, string, string)>)
    ensures r.Some? ==> |r.value.2| < |s|
  {
    var s1 :- Expect(s, "\n    <changefreq>");
    var freq := TextUntilTag(s1);
    var s2 :- Expect(freq.1, "</changefreq>\n    <priority>");
    var prio := TextUntilTag(s2);
    var rest :- Expect(prio.1, "</priority>\n  </url>");
    Some((freq.0, prio.0, rest))
  }

  /** Reads one `<url>` block from the front of `s`, returning the entry and the rest. */
  function ParseBlock(s: string): (r: Option<(SitemapUrl, string)>)
    ensures r.Some? ==> |r.value.1| < |s|
  {
    var loc :- ParseLoc(s);
    var lastmod :- ParseLastmod(loc.1);
    var fields :- ParseFrequencyAndPriority(lastmod.1);
    Some((SitemapUrl(loc.0, lastmod.0, fields.1, fields.0), fields.2))
  }

  /** Reads newline-separated `<url>` blocks until the text is used up. */
  function ParseBlocks(s: string): Option<seq<SitemapUrl>>
    decreases |s|
  {
    var (url, rest) :- ParseBlock(s);
    if rest == "" then Some([url])
    else
      var more :- Expect(rest, "\n");
      var urls :- ParseBlocks(more);
      Some([url] + urls)
  }

  /** Reads the URL entries back from a sitemap document. */
  function ParseSitemap(xml: string): Option<seq<SitemapUrl>> {
    if StartsWith(xml, Header) && EndsWith(xml, Footer) && |Header| + |Footer| <= |xml|
    then ParseBlocks(xml[|Header|..|xml| - |Footer|])
    else None
  }

  /** An entry as the document shows it: a falsy `lastmod` is not written. */
  function Emitted(url: SitemapUrl): SitemapUrl {
    url.(lastmod := if Truthy(url.lastmod) then url.lastmod else None)
  }

  function EmittedAll(urls: seq<SitemapUrl>): (r: seq<SitemapUrl>)
    ensures |r| == |urls|
    ensures forall i :: 0 <= i < |urls| ==> r[i] == Emitted(urls[i])
  {
    seq(|urls|, i requires 0 <= i < |urls| => Emitted(urls[i]))
  }

  /** Text that cannot be taken for markup: no '<'. */
  predicate PlainText(s: string) {
    '<' !in s
  }

  predicate PlainUrl(url: SitemapUrl) {
    PlainText(url.loc) && PlainText(url.priority) && PlainText(url.changefreq)
    && (url.lastmod.Some? ==> PlainText(url.lastmod.value))
  }

  lemma ExpectLiteral(lit: string, rest: string)
    ensures Expect(lit + rest, lit) == Some(rest)
  {
    assert (lit + rest)[..|lit|] == lit;
    assert (lit + rest)[|lit|..] == rest;
  }

  lemma TextUntilTagSplits(v: string, rest: string)
    requires PlainText(v) && rest != [] && rest[0] == '<'
    ensures TextUntilTag(v + rest) == (v, rest)
  {
    var s := v + rest;
    assert forall j :: 0 <= j < |v| ==> s[j] == v[j];
    assert s[|v|] == '<';
    assert IndexOf(s, '<') == |v|;
    assert s[..|v|] == v && s[|v|..] == rest;
  }

  lemma ParseLocRoundTrip(loc: string, rest: string)
    requires PlainText(loc)
    ensures ParseLoc(LocLine(loc) + rest) == Some((loc, rest))
  {
    var p0, p1 := "  <url>\n    <loc>" + BaseUrl, "</loc>\n    ";
    AppendAssoc(p0 + loc, p1, rest);
    AppendAssoc(p0, loc, p1 + rest);
    ExpectLiteral(p0, loc + (p1 + rest));
    TextUntilTagSplits(loc, p1 + rest);
    ExpectLiteral(p1, rest);
  }

  lemma ParseLastmodRoundTrip(lastmod: Option<string>, rest: string)
    requires lastmod.Some? ==> PlainText(lastmod.value)
    requires rest != [] && rest[0] == '\n'
    ensures ParseLastmod(LastmodElement(lastmod) + rest)
      == Some((if Truthy(lastmod) then lastmod else None, rest))
  {
    var s := LastmodElement(lastmod) + rest;
    if Truthy(lastmod) {
      var v := lastmod.value;
      AppendAssoc("<lastmod>" + v, "</lastmod>", rest);
      AppendAssoc("<lastmod>", v, "</lastmod>" + rest);
      ExpectLiteral("<lastmod>", v + ("</lastmod>" + rest));
      TextUntilTagSplits(v, "</lastmod>" + rest);
      ExpectLiteral("</lastmod>", rest);
    } else {
      assert s == rest;
      assert !StartsWith(s, "<lastmod>") by {
        assert s[0] == '\n';
      }
    }
  }

  lemma ParseFrequencyAndPriorityRoundTrip(freq: string, prio: string, rest: string)
    requires PlainText(freq) && PlainText(prio)
    ensures ParseFrequencyAndPriority(FieldLines(freq, prio) + rest) == Some((freq, prio, rest))
  {
    var l1, l2, l3 := "\n    <changefreq>", "</changefreq>\n    <priority>", "</priority>\n  </url>";
    AppendAssoc(l1 + freq + l2 + prio, l3, rest);
    AppendAssoc(l1 + freq + l2, prio, l3 + rest);
    AppendAssoc(l1 + freq, l2, prio + (l3 + rest));
    AppendAssoc(l1, freq, l2 + (prio + (l3 + rest)));
    ExpectLiteral(l1, freq + (l2 + (prio + (l3 + rest))));
    TextUntilTagSplits(freq, l2 + (prio + (l3 + rest)));
    ExpectLiteral(l2, prio + (l3 + rest));
    TextUntilTagSplits(prio, l3 + rest);
    ExpectLiteral(l3, rest);
  }

  /** Reading a block back yields the entry as emitted and leaves what followed. */
  lemma ParseBlockRoundTrip(url: SitemapUrl, rest: string)
    requires PlainUrl(url)
    ensures ParseBlock(UrlBlock(url) + rest) == Some((Emitted(url), rest))
  {
    var loc, lastmod := LocLine(url.loc), LastmodElement(url.lastmod);
    var tail := FieldLines(url.changefreq, url.priority) + rest;
    AppendAssoc(loc + lastmod, FieldLines(url.changefreq, url.priority), rest);
    AppendAssoc(loc, lastmod, tail);
    assert tail[0] == '\n';
    ParseLocRoundTrip(url.loc, lastmod + tail);
    ParseLastmodRoundTrip(url.lastmod, tail);
    ParseFrequencyAndPriorityRoundTrip(url.changefreq, url.priority, rest);
  }

  lemma JoinLinesCons(blocks: seq<string>)
    requires |blocks| >= 2
    ensures JoinLines(blocks) == blocks[0] + ("\n" + JoinLines(blocks[1..]))
  {
  }

  lemma EmittedAllCons(urls: seq<SitemapUrl>)
    requires urls != []
    ensures EmittedAll(urls) == [Emitted(urls[0])] + EmittedAll(urls[1..])
  {
    var r := [Emitted(urls[0])] + EmittedAll(urls[1..]);
    assert forall i :: 0 <= i < |urls| ==> r[i] == Emitted(urls[i]) by {
      forall i | 0 <= i < |urls| ensures r[i] == Emitted(urls[i]) {
        if i > 0 {
          assert r[i] == EmittedAll(urls[1..])[i - 1];
        }
      }
    }
  }

  lemma ParseBlocksLast(s: string, url: SitemapUrl)
    requires ParseBlock(s) == Some((url, ""))
    ensures ParseBlocks(s) == Some([url])
  {
  }

  lemma ParseBlocksCons(s: string, url: SitemapUrl, more: string, urls: seq<SitemapUrl>)
    requires ParseBlock(s) == Some((url, "\n" + more))
    requires ParseBlocks(more) == Some(urls)
    ensures ParseBlocks(s) == Some([url] + urls)
  {
    ExpectLiteral("\n", more);
  }

  lemma {:induction false} ParseBlocksRoundTrip(urls: seq<SitemapUrl>)
    requires urls != []
    requires forall i :: 0 <= i < |urls| ==> PlainUrl(urls[i])
    ensures ParseBlocks(JoinLines(Blocks(urls))) == Some(EmittedAll(urls))
  {
    var blocks := Blocks(urls);
    if |urls| == 1 {
      assert JoinLines(blocks) == blocks[0] == UrlBlock(urls[0]) + "";
      ParseBlockRoundTrip(urls[0], "");
      ParseBlocksLast(JoinLines(blocks), Emitted(urls[0]));
      assert EmittedAll(urls) == [Emitted(urls[0])];
    } else {
      var more := JoinLines(Blocks(urls[1..]));
      assert Blocks(urls[1..]) == blocks[1..];
      JoinLinesCons(blocks);
      ParseBlockRoundTrip(urls[0], "\n" + more);
      ParseBlocksRoundTrip(urls[1..]);
      ParseBlocksCons(JoinLines(blocks), Emitted(urls[0]), more, EmittedAll(urls[1..]));
      EmittedAllCons(urls);
    }
  }

  /** A post whose slug and date contain no '<' gives an entry without one either. */
  lemma PlainPostUrl(post: Post)
    requires PlainText(post.slug) && PlainText(post.date)
    ensures PlainUrl(PostUrl(post))
  {
    assert '<' !in "/post/";
  }

  /** The middle of a three-part concatenation, recovered by slicing. */
  lemma MiddleSlice(a: string, b: string, c: string)
    ensures (a + b + c)[|a|..|a + b + c| - |c|] == b
  {
  }

  /**
   * The document lists exactly the URL list, in order and with every field, whenever the
   * slugs and dates contain no '<'; a falsy date is the one thing not written.
   */
  lemma SitemapRoundTrip(posts: seq<Post>)
    requires forall i :: 0 <= i < |posts| ==> PlainText(posts[i].slug) && PlainText(posts[i].date)
    ensures ParseSitemap(GenerateSitemap(posts)) == Some(EmittedAll(Urls(posts)))
  {
    var urls := Urls(posts);
    forall i | 0 <= i < |urls| ensures PlainUrl(urls[i]) {
      if i >= 2 {
        PlainPostUrl(posts[i - 2]);
      }
    }
    ParseBlocksRoundTrip(urls);
    MiddleSlice(Header, JoinLines(Blocks(urls)), Footer);
  }
}
