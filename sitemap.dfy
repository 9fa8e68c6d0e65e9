/**
 * The sitemap `sitemap.xml` in the format of the Sitemap protocol 0.9 of sitemaps.org: four
 * fixed pages, then one entry per post. The posts come from the listing; when the listing
 * cannot be read they come from the `.html` files of the `posts` directory, and when that
 * cannot be read either there are none. The three copies of this code differ only in the
 * priority of a post entry: `0.6` in the scheduled publisher, `0.8` in the other two.
 */
module Sitemap {
  import opened Wrappers
  import opened Text
  import opened Seqs
  import opened Listing

  const DefaultBaseUrl: string := "https://roberttolan.com"

  /** `process.env.URL || 'https://roberttolan.com'`, with an unset variable as `""`. */
  function BaseUrl(env: string): (base: string)
    ensures |base| > 0
    ensures env != "" ==> base == env
  {
    if env == "" then DefaultBaseUrl else env
  }

  /** What the sitemap reads from a post: its slug and its date. */
  datatype SitemapPost = SitemapPost(urlSlug: string, date: string)

  /** A post recovered from a file name when the listing cannot be read. */
  datatype ScannedPost = ScannedPost(urlSlug: string, title: string, date: string)

  /** `file.replace('.html', '')`: the first `.html` goes. */
  function FileSlug(file: string): string {
    ReplaceFirst(file, ".html", "")
  }

  /** `file.replace('.html', '').replace(/-/g, ' ')`. */
  function FileTitle(file: string): string {
    ReplaceAll(FileSlug(file), "-", " ")
  }

  function FromFile(file: string, today: string): ScannedPost {
    ScannedPost(FileSlug(file), FileTitle(file), today)
  }

  /** `files.filter(file => file.endsWith('.html')).map(...)`. */
  function ScanPosts(files: seq<string>, today: string): (posts: seq<ScannedPost>)
    ensures |posts| <= |files|
  {
    if |files| == 0 then [] else ScanFile(files[0], today) + ScanPosts(files[1..], today)
  }

  /** The post one file gives: one when its name ends with `.html`, none otherwise. */
  function ScanFile(file: string, today: string): (posts: seq<ScannedPost>)
    ensures |posts| <= 1
  {
    if EndsWith(file, ".html") then [FromFile(file, today)] else []
  }

  /** The scan of two lists of files is the scans side by side. */
  lemma {:induction false} ScanPostsConcat(a: seq<string>, b: seq<string>, today: string)
    ensures ScanPosts(a + b, today) == ScanPosts(a, today) + ScanPosts(b, today)
    decreases |a|
  {
    if |a| == 0 {
      assert a + b == b;
    } else {
      ConsParts(a, b);
      ScanPostsConcat(a[1..], b, today);
      var f := ScanFile(a[0], today);
      assert ScanPosts(a + b, today) == f + ScanPosts(a[1..] + b, today);
      assert ScanPosts(a, today) == f + ScanPosts(a[1..], today);
    }
  }

  /** One file gives one post when its name ends with `.html`, and none otherwise. */
  lemma ScanPostsOne(file: string, today: string)
    ensures EndsWith(file, ".html") ==> ScanPosts([file], today) == [FromFile(file, today)]
    ensures !EndsWith(file, ".html") ==> ScanPosts([file], today) == []
  {
    assert [file][1..] == [];
  }

  /** Every `.html` name of the folder gives a post of the scan. */
  lemma ScanPostsHas(files: seq<string>, k: nat, today: string)
    requires k < |files| && EndsWith(files[k], ".html")
    ensures FromFile(files[k], today) in ScanPosts(files, today)
  {
    assert files == files[..k] + [files[k]] + files[k + 1..];
    ScanPostsConcat(files[..k] + [files[k]], files[k + 1..], today);
    ScanPostsConcat(files[..k], [files[k]], today);
    ScanPostsOne(files[k], today);
  }

  /** A file named `<slug>.html`, with no other `.html` in it, gives back that slug. */
  lemma FileSlugOfPage(slug: string)
    requires !Contains(slug + ".htm", ".html")
    ensures FileSlug(slug + ".html") == slug
  {
    var f := slug + ".html";
    var n := |slug|;
    assert OccursAt(f, ".html", n) by {
      assert f[n..n + 5] == ".html";
    }
    forall j: nat | j < n
      ensures !OccursAt(f, ".html", j)
    {
      assert f[j..j + 5] == (slug + ".htm")[j..j + 5];
      assert !OccursAt(slug + ".htm", ".html", j);
    }
    assert IndexOf(f, ".html") == Some(n);
    assert f[..n] == slug && f[n + 5..] == "";
  }

  /** The title is the slug with every hyphen turned into a space, and as long. */
  lemma FileTitleSpaces(file: string)
    ensures |FileTitle(file)| == |FileSlug(file)|
    ensures '-' !in FileTitle(file)
    ensures forall i :: 0 <= i < |FileSlug(file)| ==>
      FileTitle(file)[i] == if FileSlug(file)[i] == '-' then ' ' else FileSlug(file)[i]
  {
    ReplaceAllChar(FileSlug(file), '-', ' ');
  }

  /**
   * The posts the sitemap lists: the listing's entries when it can be read, otherwise the scan
   * of the directory, otherwise none.
   */
  function SitemapPosts(listing: Option<seq<ListingEntry>>, files: Option<seq<string>>,
                        today: string): (posts: seq<SitemapPost>)
    ensures listing.Some? ==> |posts| == |listing.value|
    ensures listing.Some? ==> forall i :: 0 <= i < |posts| ==>
      posts[i] == SitemapPost(listing.value[i].urlSlug, listing.value[i].date)
    ensures listing.None? && files.Some? ==> |posts| == |ScanPosts(files.value, today)|
    ensures listing.None? && files.Some? ==> forall i :: 0 <= i < |posts| ==>
      posts[i].urlSlug == ScanPosts(files.value, today)[i].urlSlug && posts[i].date == today
    ensures listing.None? && files.None? ==> posts == []
  {
    match listing
    case Some(l) => seq(|l|, i requires 0 <= i < |l| => SitemapPost(l[i].urlSlug, l[i].date))
    case None =>
      match files
      case Some(fs) =>
        var scanned := ScanPosts(fs, today);
        ScanPostsDated(fs, today);
        seq(|scanned|, i requires 0 <= i < |scanned| => SitemapPost(scanned[i].urlSlug, scanned[i].date))
      case None => []
  }

  /** A scanned post carries the day of the scan. */
  lemma {:induction false} ScanPostsDated(files: seq<string>, today: string)
    ensures forall i :: 0 <= i < |ScanPosts(files, today)| ==> ScanPosts(files, today)[i].date == today
    decreases |files|
  {
    if |files| > 0 {
      ScanPostsDated(files[1..], today);
    }
  }

  // ---------------------------------------------------------------- the document

  /** One `<url>` element of the sitemap. */
  datatype UrlEntry = UrlEntry(loc: string, lastmod: string, changefreq: string, priority: string)

  /** The four fixed pages: home, posts, projects and recommendations. */
  function FixedEntries(base: string, today: string): (es: seq<UrlEntry>)
    ensures |es| == 4
  {
    [ UrlEntry(base + "/", today, "weekly", "1.0"),
      UrlEntry(base + "/posts.html", today, "weekly", "0.9"),
      UrlEntry(base + "/projects.html", today, "monthly", "0.8"),
      UrlEntry(base + "/recommendations.html", today, "monthly", "0.7") ]
  }

  /** The entry of a post: its page under `/posts/`, its date or today, monthly. */
  function PostEntry(base: string, today: string, post: SitemapPost, priority: string): UrlEntry {
    UrlEntry(base + PostUrl(post.urlSlug), if post.date == "" then today else post.date,
             "monthly", priority)
  }

  function PostEntries(base: string, today: string, posts: seq<SitemapPost>, priority: string)
    : (es: seq<UrlEntry>)
    ensures |es| == |posts|
  {
    seq(|posts|, i requires 0 <= i < |posts| => PostEntry(base, today, posts[i], priority))
  }

  /** The text of one `<url>` element, indented as the template writes it. */
  function UrlBlock(e: UrlEntry): string {
    "  <url>\n    <loc>" + e.loc + "</loc>\n    <lastmod>" + e.lastmod
    + "</lastmod>\n    <changefreq>" + e.changefreq + "</changefreq>\n    <priority>"
    + e.priority + "</priority>\n  </url>"
  }

  function Blocks(es: seq<UrlEntry>): (bs: seq<string>)
    ensures |bs| == |es|
  {
    seq(|es|, i requires 0 <= i < |es| => UrlBlock(es[i]))
  }

  const Header: string := "<?xml version=\"1.0\" encoding=\"UTF-8\"?>\n"
    + "<urlset xmlns=\"http://www.sitemaps.org/schemas/sitemap/0.9\">\n  <!-- Main pages -->\n"

  const Middle: string := "\n  \n  <!-- Individual posts -->\n"

  const Footer: string := "\n</urlset>"

  /** The header and the four fixed pages, up to the posts. */
  function Preamble(base: string, today: string): string {
    Header + Join(Blocks(FixedEntries(base, today)), "\n") + Middle
  }

  /** The elements of the posts, joined by new lines. */
  function PostsText(base: string, today: string, posts: seq<SitemapPost>, priority: string)
    : string
  {
    Join(Blocks(PostEntries(base, today, posts, priority)), "\n")
  }

  /** The whole document: header, the fixed pages, then the posts joined by new lines. */
  function SitemapText(base: string, today: string, posts: seq<SitemapPost>, priority: string)
    : string
  {
    Preamble(base, today) + PostsText(base, today, posts, priority) + Footer
  }

  /** A piece of the middle part of a text of three parts. */
  lemma SliceMiddle(a: string, b: string, c: string, i: nat, j: nat)
    requires i <= j <= |b|
    ensures (a + b + c)[|a| + i..|a| + j] == b[i..j]
  {
  }

  /** Where the element of post `i` starts in the document. */
  function PostBlockOffset(base: string, today: string, posts: seq<SitemapPost>, priority: string,
                           i: nat): nat
    requires i <= |posts|
  {
    |Preamble(base, today)| + JoinOffset(Blocks(PostEntries(base, today, posts, priority)), "\n", i)
  }

  /**
   * The document holds the element of every post, at its offset, and the elements stand in
   * the order of the posts, after the header and the four fixed pages.
   */
  lemma PostBlockInText(base: string, today: string, posts: seq<SitemapPost>, priority: string,
                        i: nat)
    requires i < |posts|
    ensures Blocks(PostEntries(base, today, posts, priority))[i]
         == UrlBlock(PostEntry(base, today, posts[i], priority))
    ensures OccursAt(SitemapText(base, today, posts, priority),
                     Blocks(PostEntries(base, today, posts, priority))[i],
                     PostBlockOffset(base, today, posts, priority, i))
    ensures forall j :: i < j < |posts| ==>
      PostBlockOffset(base, today, posts, priority, i)
      + |UrlBlock(PostEntry(base, today, posts[i], priority))|
      < PostBlockOffset(base, today, posts, priority, j)
  {
    PostBlockOccurs(base, today, posts, priority, i);
    PostBlocksOrdered(base, today, posts, priority, i);
  }

  lemma PostBlockOccurs(base: string, today: string, posts: seq<SitemapPost>, priority: string,
                        i: nat)
    requires i < |posts|
    ensures OccursAt(SitemapText(base, today, posts, priority),
                     Blocks(PostEntries(base, today, posts, priority))[i],
                     PostBlockOffset(base, today, posts, priority, i))
  {
    var bs := Blocks(PostEntries(base, today, posts, priority));
    PostsParts(base, today, posts, priority);
    PartInText(SitemapText(base, today, posts, priority), Preamble(base, today), bs, Footer, i);
  }

  lemma PostBlocksOrdered(base: string, today: string, posts: seq<SitemapPost>, priority: string,
                          i: nat)
    requires i < |posts|
    ensures forall j :: i < j < |posts| ==>
      PostBlockOffset(base, today, posts, priority, i)
      + |Blocks(PostEntries(base, today, posts, priority))[i]|
      < PostBlockOffset(base, today, posts, priority, j)
  {
    var bs := Blocks(PostEntries(base, today, posts, priority));
    forall j | i < j < |posts|
      ensures PostBlockOffset(base, today, posts, priority, i) + |bs[i]|
            < PostBlockOffset(base, today, posts, priority, j)
    {
      JoinOffsetOrdered(bs, "\n", i, j);
    }
  }

  /** The fixed page `k` stands in the document, before the comment that opens the posts. */
  lemma FixedBlockInText(base: string, today: string, posts: seq<SitemapPost>, priority: string,
                         k: nat)
    requires k < 4
    ensures Blocks(FixedEntries(base, today))[k] == UrlBlock(FixedEntries(base, today)[k])
    ensures OccursAt(SitemapText(base, today, posts, priority), Blocks(FixedEntries(base, today))[k],
                     |Header| + JoinOffset(Blocks(FixedEntries(base, today)), "\n", k))
  {
    TextParts(base, today, posts, priority);
    PartInText(SitemapText(base, today, posts, priority), Header, Blocks(FixedEntries(base, today)),
               Middle + PostsText(base, today, posts, priority) + Footer, k);
  }

  /** A part of a join stands in a text that holds the join after a prefix. */
  lemma PartInText(t: string, pre: string, parts: seq<string>, post: string, k: nat)
    requires k < |parts| && t == pre + Join(parts, "\n") + post
    ensures OccursAt(t, parts[k], |pre| + JoinOffset(parts, "\n", k))
  {
    JoinPart(parts, "\n", k);
    SliceMiddle(pre, Join(parts, "\n"), post, JoinOffset(parts, "\n", k),
                JoinOffset(parts, "\n", k) + |parts[k]|);
  }

  lemma PostsParts(base: string, today: string, posts: seq<SitemapPost>, priority: string)
    ensures SitemapText(base, today, posts, priority)
         == Preamble(base, today) + Join(Blocks(PostEntries(base, today, posts, priority)), "\n") + Footer
  {
  }

  lemma TextParts(base: string, today: string, posts: seq<SitemapPost>, priority: string)
    ensures SitemapText(base, today, posts, priority)
         == Header + Join(Blocks(FixedEntries(base, today)), "\n")
            + (Middle + PostsText(base, today, posts, priority) + Footer)
  {
    RegroupText(Header, Join(Blocks(FixedEntries(base, today)), "\n"), Middle,
            PostsText(base, today, posts, priority), Footer);
  }

  lemma RegroupText(a: string, b: string, c: string, d: string, e: string)
    ensures a + b + c + d + e == a + b + (c + d + e)
  {
  }

  /**
   * A listed post's entry points at the address the listing holds for it, and the entry's
   * last modification is the post's date, or today when it has none.
   */
  lemma ListedPostEntry(base: string, today: string, listing: seq<ListingEntry>,
                        files: Option<seq<string>>, priority: string, i: nat)
    requires i < |listing| && WellAddressed(listing)
    ensures var e := PostEntries(base, today, SitemapPosts(Some(listing), files, today), priority)[i];
      e.loc == base + listing[i].url
      && e.lastmod == (if listing[i].date == "" then today else listing[i].date)
      && e.priority == priority
  {
  }
}
