/**
 * The site's files and the handlers that change them. Each file is a field of `Site`; `None`
 * is a file that cannot be read or does not parse. What the model cannot see — whether a write
 * succeeds, the clock, the environment, the directory listing, the formatted dates — is passed
 * in by the caller.
 */
module Site {
  import opened Wrappers
  import opened Text
  import opened Seqs
  import opened Posts
  import opened Queue
  import opened Worker
  import opened Markdown
  import opened PageTemplate
  import opened Listing
  import opened Sitemap

  /** The JSON bodies of the handlers' responses. */
  datatype Body =
    | Message(text: string)
    | Failure(error: string)
    | Processed(published: nat, remaining: nat)
    | Scheduled(postId: string, scheduledFor: DateField)
    | Deleted(post: ScheduledPost)
    | Listed(posts: seq<ScheduledPost>, count: nat)
    | Generated(postUrl: string, fileName: string)
    | SitemapReady(postsCount: nat, sitemapUrl: string)

  datatype Response = Response(status: int, body: Body)

  const MethodNotAllowed: Response := Response(405, Failure("Method not allowed"))

  const MissingScheduleFields: string :=
    "Missing required fields: title, content, urlSlug, or scheduledFor"

  const MissingPostFields: string := "Missing required fields: title, content, or urlSlug"

  /** The body of an immediate publication; `options` may be missing altogether. */
  datatype GenerateRequest = GenerateRequest(title: string, content: string, options: Option<PostOptions>)

  function DraftFrom(title: string, content: string, o: PostOptions): Draft {
    Draft(title, content, o.urlSlug, o.category, o.tags, o.metaDescription, o.seoKeywords)
  }

  /** What the environment gives the sitemap: `process.env.URL` and today's date. */
  datatype Env = Env(url: string, today: string)

  /** Whether each write of one publication succeeds: the page, the listing, the sitemap. */
  datatype Attempt = Attempt(pageWritten: bool, listingWritten: bool, sitemapWritten: bool)

  /** What a page is made from. */
  datatype Draft = Draft(title: string, content: string, urlSlug: string, category: string,
                         tags: seq<string>, metaDescription: string, seoKeywords: seq<string>)

  function DraftOf(p: ScheduledPost): Draft {
    Draft(p.title, p.content, p.urlSlug, p.category, p.tags, p.metaDescription, p.seoKeywords)
  }

  /** The name of a post's page in `posts/`. */
  function PageFile(slug: string): string {
    slug + ".html"
  }

  /** The page of a draft: the body converted from markdown, then the template filled in. */
  function RenderPage(template: string, d: Draft, postDate: string): string {
    ComposePage(template, d.title, ConvertMarkdownToHtml(d.content), postDate, d.category,
                d.tags, d.metaDescription, d.seoKeywords, d.urlSlug)
  }

  /**
   * The files a publication writes: the listing, the sitemap, the pages the handlers wrote, and
   * the names `readdir` lists in `posts/`, in its order (`None` while the folder does not exist).
   */
  datatype Files = Files(listing: Option<seq<ListingEntry>>, sitemap: Option<string>,
                         pages: map<string, string>, dir: Option<seq<string>>)

  /**
   * `posts/` after a page is written into it: the folder is made if missing, and a new name is
   * listed after the names already there, which keep their places.
   */
  function WithPage(dir: Option<seq<string>>, name: string): (r: Option<seq<string>>)
    ensures r.Some? && name in r.value
    ensures dir.Some? ==> dir.value <= r.value
    ensures forall n :: n in r.value ==> n == name || (dir.Some? && n in dir.value)
  {
    var names := dir.GetOr([]);
    Some(if name in names then names else names + [name])
  }

  /** Every page the handlers wrote is listed in `posts/`. */
  predicate DirHoldsPages(f: Files) {
    forall name :: name in f.pages ==> f.dir.Some? && name in f.dir.value
  }

  /** The listing after `updatePostsListing`: the entry in front, or as it was if the write fails. */
  function ListingAfter(l: Option<seq<ListingEntry>>, e: ListingEntry, writeOk: bool): (r: Option<seq<ListingEntry>>)
    ensures writeOk ==> r.Some? && |r.value| == |l.GetOr([])| + 1 && r.value[0] == e
    ensures writeOk ==> forall i :: 0 <= i < |l.GetOr([])| ==> r.value[i + 1] == l.GetOr([])[i]
    ensures !writeOk ==> r == l
  {
    if writeOk then Some([e] + l.GetOr([])) else l
  }

  /** The sitemap after `generateSitemap`: built from the listing, or as it was if the write fails. */
  function SitemapAfter(s: Option<string>, l: Option<seq<ListingEntry>>, dir: Option<seq<string>>,
                        env: Env, priority: string, writeOk: bool): Option<string>
  {
    if writeOk
    then Some(SitemapText(BaseUrl(env.url), env.today, SitemapPosts(l, dir, env.today), priority))
    else s
  }

  /**
   * One publication: no template or a failed page write throws and changes nothing; otherwise
   * the page is written, then the listing and the sitemap, whose failures are swallowed.
   */
  function AfterPublish(f: Files, template: Option<string>, d: Draft, postDate: string, env: Env,
                        at: Attempt, priority: string): (Files, bool)
  {
    if template.None? || !at.pageWritten then (f, false)
    else
      var pages := f.pages[PageFile(d.urlSlug) := RenderPage(template.value, d, postDate)];
      var dir := WithPage(f.dir, PageFile(d.urlSlug));
      var l := ListingAfter(f.listing, NewEntry(d.title, d.urlSlug, postDate, d.category), at.listingWritten);
      (Files(l, SitemapAfter(f.sitemap, l, dir, env, priority, at.sitemapWritten), pages, dir), true)
  }

  /** The files after the due posts are published one after the other. */
  function AfterRun(f: Files, template: Option<string>, due: seq<ScheduledPost>,
                    formatDate: DateField -> string, env: Env, attempts: nat -> Attempt): Files
    decreases |due|
  {
    if |due| == 0 then f
    else
      var n := |due| - 1;
      AfterPublish(AfterRun(f, template, due[..n], formatDate, env, attempts), template,
                   DraftOf(due[n]), formatDate(due[n].scheduledFor), env, attempts(n), "0.6").0
  }

  // ---------------------------------------------------------------- what a publication does

  /**
   * A publication succeeds exactly when the template can be read and the page written: a failed
   * listing or sitemap write never makes it fail.
   */
  lemma PublishOutcome(f: Files, template: Option<string>, d: Draft, postDate: string, env: Env,
                       at: Attempt, priority: string)
    ensures AfterPublish(f, template, d, postDate, env, at, priority).1 <==> template.Some? && at.pageWritten
    ensures !AfterPublish(f, template, d, postDate, env, at, priority).1 ==>
      AfterPublish(f, template, d, postDate, env, at, priority).0 == f
  {
  }

  /**
   * A successful publication writes the rendered page under its slug and leaves every other
   * page alone; a written listing has the new entry first, at its address, with the rest after.
   */
  lemma PublishedPage(f: Files, template: string, d: Draft, postDate: string, env: Env,
                      at: Attempt, priority: string, other: string)
    requires at.pageWritten
    ensures var g := AfterPublish(f, Some(template), d, postDate, env, at, priority).0;
      PageFile(d.urlSlug) in g.pages && g.pages[PageFile(d.urlSlug)] == RenderPage(template, d, postDate)
      && (other != PageFile(d.urlSlug) && other in f.pages ==> other in g.pages && g.pages[other] == f.pages[other])
      && (other != PageFile(d.urlSlug) && other !in f.pages ==> other !in g.pages)
    ensures var g := AfterPublish(f, Some(template), d, postDate, env, at, priority).0;
      at.listingWritten ==> (g.listing.Some? && g.listing.value[0].url == "/posts/" + d.urlSlug + ".html"
                             && g.listing.value[1..] == f.listing.GetOr([]))
  {
  }

  /** A publication keeps every listed address derived from its slug. */
  lemma PublishKeepsAddresses(f: Files, template: Option<string>, d: Draft, postDate: string,
                              env: Env, at: Attempt, priority: string)
    requires f.listing.Some? ==> WellAddressed(f.listing.value)
    ensures var g := AfterPublish(f, template, d, postDate, env, at, priority).0;
      g.listing.Some? ==> WellAddressed(g.listing.value)
  {
    var e := NewEntry(d.title, d.urlSlug, postDate, d.category);
    assert WellAddressed(f.listing.GetOr([]));
    PrependWellAddressed(e, f.listing.GetOr([]));
  }

  /**
   * When all three writes succeed, the new post's entry is the first post of the sitemap, just
   * after the four fixed pages, pointing at its page and dated with the post's date.
   */
  lemma PublishedInSitemap(f: Files, template: string, d: Draft, postDate: string, env: Env,
                           priority: string)
    requires postDate != ""
    ensures var g := AfterPublish(f, Some(template), d, postDate, env, Attempt(true, true, true), priority).0;
      var base := BaseUrl(env.url);
      var posts := SitemapPosts(g.listing, g.dir, env.today);
      g.sitemap.Some? && |posts| > 0
      && OccursAt(g.sitemap.value,
                  UrlBlock(UrlEntry(base + "/posts/" + d.urlSlug + ".html", postDate, "monthly", priority)),
                  PostBlockOffset(base, env.today, posts, priority, 0))
  {
    var g := AfterPublish(f, Some(template), d, postDate, env, Attempt(true, true, true), priority).0;
    var base := BaseUrl(env.url);
    var l := ListingAfter(f.listing, NewEntry(d.title, d.urlSlug, postDate, d.category), true);
    assert g.listing == l && g.sitemap == SitemapAfter(f.sitemap, l, g.dir, env, priority, true);
    var posts := SitemapPosts(l, WithPage(f.dir, PageFile(d.urlSlug)), env.today);
    assert posts[0] == SitemapPost(d.urlSlug, postDate);
    PostBlockInText(base, env.today, posts, priority, 0);
    Regroup(base, "/posts/", d.urlSlug, ".html");
    var e := UrlEntry(base + "/posts/" + d.urlSlug + ".html", postDate, "monthly", priority);
    assert PostEntry(base, env.today, posts[0], priority) == e;
    OccursSame(SitemapText(base, env.today, posts, priority), g.sitemap.value,
               Blocks(PostEntries(base, env.today, posts, priority))[0], UrlBlock(e),
               PostBlockOffset(base, env.today, posts, priority, 0));
  }

  /**
   * With the listing unreadable and its write failed, the sitemap falls back to the scan of
   * `posts/`, which already lists the page just written: the new post is among the scanned
   * posts, dated today.
   */
  lemma PublishedInScan(f: Files, template: string, d: Draft, postDate: string, env: Env,
                        priority: string)
    requires f.listing.None? && !Contains(d.urlSlug + ".htm", ".html")
    ensures var g := AfterPublish(f, Some(template), d, postDate, env, Attempt(true, false, true), priority).0;
      var posts := SitemapPosts(g.listing, g.dir, env.today);
      g.sitemap == Some(SitemapText(BaseUrl(env.url), env.today, posts, priority))
      && exists i :: 0 <= i < |posts| && posts[i] == SitemapPost(d.urlSlug, env.today)
  {
    var page := PageFile(d.urlSlug);
    var dir := WithPage(f.dir, page).value;
    var k :| 0 <= k < |dir| && dir[k] == page;
    assert page[|page| - 5..] == ".html";
    ScanPostsHas(dir, k, env.today);
    var scan := ScanPosts(dir, env.today);
    var j :| 0 <= j < |scan| && scan[j] == FromFile(page, env.today);
    FileSlugOfPage(d.urlSlug);
    var posts := SitemapPosts(None, Some(dir), env.today);
    assert posts[j] == SitemapPost(d.urlSlug, env.today);
  }

  /**
   * A publication keeps every written page listed in `posts/`: the names already there keep
   * their order, and a published page is among them afterwards.
   */
  lemma PublishKeepsDirectory(f: Files, template: Option<string>, d: Draft, postDate: string,
                              env: Env, at: Attempt, priority: string)
    requires DirHoldsPages(f)
    ensures var (g, ok) := AfterPublish(f, template, d, postDate, env, at, priority);
      DirHoldsPages(g)
      && (f.dir.Some? ==> g.dir.Some? && f.dir.value <= g.dir.value)
      && (ok ==> g.dir.Some? && PageFile(d.urlSlug) in g.dir.value)
  {
  }

  /** A run keeps every written page listed in `posts/`, and keeps the order of the names. */
  lemma {:induction false} RunKeepsDirectory(f: Files, template: Option<string>, due: seq<ScheduledPost>,
                                             formatDate: DateField -> string, env: Env,
                                             attempts: nat -> Attempt)
    requires DirHoldsPages(f)
    ensures var g := AfterRun(f, template, due, formatDate, env, attempts);
      DirHoldsPages(g) && (f.dir.Some? ==> g.dir.Some? && f.dir.value <= g.dir.value)
    decreases |due|
  {
    if |due| > 0 {
      var n := |due| - 1;
      RunKeepsDirectory(f, template, due[..n], formatDate, env, attempts);
      PublishKeepsDirectory(AfterRun(f, template, due[..n], formatDate, env, attempts), template,
                            DraftOf(due[n]), formatDate(due[n].scheduledFor), env, attempts(n), "0.6");
    }
  }

  /** Without a template nothing is published and the run leaves the files as they were. */
  lemma {:induction false} RunWithoutTemplate(f: Files, due: seq<ScheduledPost>,
                                              formatDate: DateField -> string, env: Env,
                                              attempts: nat -> Attempt)
    ensures AfterRun(f, None, due, formatDate, env, attempts) == f
    decreases |due|
  {
    if |due| > 0 {
      RunWithoutTemplate(f, due[..|due| - 1], formatDate, env, attempts);
    }
  }

  /** A run keeps every page it found and adds the page of each post it published. */
  lemma {:induction false} RunKeepsPages(f: Files, template: Option<string>, due: seq<ScheduledPost>,
                                         formatDate: DateField -> string, env: Env,
                                         attempts: nat -> Attempt)
    ensures f.pages.Keys <= AfterRun(f, template, due, formatDate, env, attempts).pages.Keys
    ensures forall k :: 0 <= k < |due| && template.Some? && attempts(k).pageWritten ==>
      PageFile(due[k].urlSlug) in AfterRun(f, template, due, formatDate, env, attempts).pages
    decreases |due|
  {
    if |due| > 0 {
      var n := |due| - 1;
      RunKeepsPages(f, template, due[..n], formatDate, env, attempts);
      forall k | 0 <= k < n
        ensures due[..n][k] == due[k]
      {
      }
    }
  }

  /** A run keeps every listed address derived from its slug. */
  lemma {:induction false} RunKeepsAddresses(f: Files, template: Option<string>, due: seq<ScheduledPost>,
                                             formatDate: DateField -> string, env: Env,
                                             attempts: nat -> Attempt)
    requires f.listing.Some? ==> WellAddressed(f.listing.value)
    ensures var g := AfterRun(f, template, due, formatDate, env, attempts);
      g.listing.Some? ==> WellAddressed(g.listing.value)
    decreases |due|
  {
    if |due| > 0 {
      var n := |due| - 1;
      RunKeepsAddresses(f, template, due[..n], formatDate, env, attempts);
      PublishKeepsAddresses(AfterRun(f, template, due[..n], formatDate, env, attempts), template,
                            DraftOf(due[n]), formatDate(due[n].scheduledFor), env, attempts(n), "0.6");
    }
  }

  lemma AfterRunStep(f: Files, template: Option<string>, due: seq<ScheduledPost>, k: nat,
                     formatDate: DateField -> string, env: Env, attempts: nat -> Attempt)
    requires k < |due|
    ensures AfterRun(f, template, due[..k + 1], formatDate, env, attempts)
      == AfterPublish(AfterRun(f, template, due[..k], formatDate, env, attempts), template,
                      DraftOf(due[k]), formatDate(due[k].scheduledFor), env, attempts(k), "0.6").0
  {
    assert due[..k + 1][..k] == due[..k] && due[..k + 1][k] == due[k];
  }

  lemma FailedStep(due: seq<ScheduledPost>, ok: seq<bool>, k: nat, success: bool)
    requires k < |due| && |ok| == k
    ensures Failed(due[..k + 1], ok + [success])
      == Failed(due[..k], ok) + (if success then [] else [due[k]])
  {
    assert due[..k + 1][..k] == due[..k] && due[..k + 1][k] == due[k];
    assert (ok + [success])[..k] == ok;
  }

  /** The outcomes of the first `n` attempts: a page is written only when the template exists. */
  function Outcomes(hasTemplate: bool, attempts: nat -> Attempt, n: nat): (ok: seq<bool>)
    ensures |ok| == n && forall j :: 0 <= j < n ==> ok[j] == (hasTemplate && attempts(j).pageWritten)
  {
    seq(n, j requires 0 <= j < n => hasTemplate && attempts(j).pageWritten)
  }

  lemma OutcomesStep(hasTemplate: bool, attempts: nat -> Attempt, k: nat)
    ensures Outcomes(hasTemplate, attempts, k + 1)
      == Outcomes(hasTemplate, attempts, k) + [hasTemplate && attempts(k).pageWritten]
  {
  }

  // ---------------------------------------------------------------- the site

  class Site {
    /** `scheduled-posts.json`. */
    var queue: Option<seq<ScheduledPost>>
    /** `posts-listing.json`. */
    var listing: Option<seq<ListingEntry>>
    /** `sitemap.xml`. */
    var sitemap: Option<string>
    /** The pages the handlers wrote into `posts/`, by name. */
    var pages: map<string, string>
    /** The names `readdir` lists in `posts/`, in its order; `None` while the folder is missing. */
    var postDir: Option<seq<string>>
    /** `post-template.html`, which no handler writes. */
    var template: Option<string>

    constructor (queue: Option<seq<ScheduledPost>>, listing: Option<seq<ListingEntry>>,
                 template: Option<string>, postDir: Option<seq<string>>)
      ensures this.queue == queue && this.listing == listing && this.template == template
      ensures this.postDir == postDir && sitemap == None && pages == map[]
    {
      this.postDir := postDir;
      this.queue := queue;
      this.listing := listing;
      this.template := template;
      sitemap := None;
      pages := map[];
    }

    /** `updatePostsListing`: the new entry goes in front; a failed write is swallowed. */
    method UpdatePostsListing(title: string, slug: string, date: string, category: string,
                              writeOk: bool)
      modifies this
      ensures listing == ListingAfter(old(listing), NewEntry(title, slug, date, category), writeOk)
      ensures queue == old(queue) && sitemap == old(sitemap) && pages == old(pages) && postDir == old(postDir)
      ensures template == old(template)
    {
      var current := listing.GetOr([]);
      if writeOk {
        listing := Some([NewEntry(title, slug, date, category)] + current);
      }
    }

    /** `generateSitemap`: the sitemap from the listing or the scan; a failed write is kept out. */
    method GenerateSitemap(env: Env, priority: string, writeOk: bool) returns (postsCount: nat)
      modifies this
      ensures sitemap == SitemapAfter(old(sitemap), listing, postDir, env, priority, writeOk)
      ensures postsCount == |SitemapPosts(listing, postDir, env.today)|
      ensures queue == old(queue) && listing == old(listing) && pages == old(pages) && postDir == old(postDir)
      ensures template == old(template)
    {
      var posts := SitemapPosts(listing, postDir, env.today);
      postsCount := |posts|;
      if writeOk {
        sitemap := Some(SitemapText(BaseUrl(env.url), env.today, posts, priority));
      }
    }

    /**
     * `publishPost` and the body of the immediate publisher: read the template, write the page,
     * then update the listing and the sitemap. `ok` is false where the source throws.
     */
    method PublishDraft(d: Draft, postDate: string, env: Env, at: Attempt, priority: string)
      returns (ok: bool)
      modifies this
      ensures (Files(listing, sitemap, pages, postDir), ok)
        == AfterPublish(old(Files(listing, sitemap, pages, postDir)), template, d, postDate, env, at, priority)
      ensures queue == old(queue) && template == old(template)
    {
      if template.None? || !at.pageWritten {
        return false;
      }
      pages := pages[PageFile(d.urlSlug) := RenderPage(template.value, d, postDate)];
      postDir := WithPage(postDir, PageFile(d.urlSlug));
      UpdatePostsListing(d.title, d.urlSlug, postDate, d.category, at.listingWritten);
      var _ := GenerateSitemap(env, priority, at.sitemapWritten);
      ok := true;
    }

    /**
     * The scheduled publisher. `ok[k]` says whether the `k`-th due post was published; the
     * queue written back is the posts not due followed by the failures.
     */
    method RunPublisher(now: int, formatDate: DateField -> string, env: Env,
                        attempts: nat -> Attempt, queueWriteOk: bool)
      returns (r: Response, ok: seq<bool>)
      modifies this
      ensures template == old(template)
      ensures old(queue).None? ==>
        r == Response(200, Message("No scheduled posts to process")) && ok == []
        && queue == old(queue) && listing == old(listing) && sitemap == old(sitemap)
        && pages == old(pages) && postDir == old(postDir)
      ensures old(queue).Some? ==>
        var due := Due(old(queue).value, now);
        |ok| == |due|
        && (forall k :: 0 <= k < |ok| ==> ok[k] == (template.Some? && attempts(k).pageWritten))
        && Files(listing, sitemap, pages, postDir)
           == AfterRun(old(Files(listing, sitemap, pages, postDir)), template, due, formatDate, env, attempts)
      ensures old(queue).Some? && queueWriteOk ==>
        var q := old(queue).value;
        |ok| == |Due(q, now)|
        && queue == Some(NextQueue(q, now, ok))
        && r == Response(200, Processed(|Due(q, now)|, |NextQueue(q, now, ok)|))
      ensures old(queue).Some? && !queueWriteOk ==>
        queue == old(queue) && r == Response(500, Failure("Internal server error"))
    {
      if queue.None? {
        return Response(200, Message("No scheduled posts to process")), [];
      }
      var q := queue.value;
      var due, rest := Partition(q, now);
      var remaining := rest;
      ok := [];
      for k := 0 to |due|
        invariant ok == Outcomes(template.Some?, attempts, k)
        invariant remaining == rest + Failed(due[..k], ok)
        invariant Files(listing, sitemap, pages, postDir)
          == AfterRun(old(Files(listing, sitemap, pages, postDir)), template, due[..k], formatDate, env, attempts)
        invariant queue == old(queue) && template == old(template)
      {
        var success := PublishDraft(DraftOf(due[k]), formatDate(due[k].scheduledFor), env,
                                    attempts(k), "0.6");
        AfterRunStep(old(Files(listing, sitemap, pages, postDir)), template, due, k, formatDate, env, attempts);
        FailedStep(due, ok, k, success);
        OutcomesStep(template.Some?, attempts, k);
        ok := ok + [success];
        if !success {
          remaining := remaining + [due[k]];
        }
      }
      assert due[..|due|] == due;
      if !queueWriteOk {
        return Response(500, Failure("Internal server error")), ok;
      }
      queue := Some(remaining);
      r := Response(200, Processed(|due|, |remaining|));
    }

    /**
     * `schedule-post.js`: the checks in the source's order — method, missing fields (a request
     * without `options` throws on `options.urlSlug`), a time not in the future, a slug already
     * queued — then the record is appended and the queue written. An unreadable queue counts as
     * empty; `req` is `None` when the body is not JSON.
     */
    method SchedulePost(httpMethod: string, req: Option<ScheduleRequest>, now: int, id: string,
                        createdAt: string, writeOk: bool) returns (r: Response)
      modifies this
      ensures listing == old(listing) && sitemap == old(sitemap) && pages == old(pages) && postDir == old(postDir)
      ensures template == old(template)
      ensures r.status != 200 ==> queue == old(queue)
      ensures httpMethod != "POST" ==> r == MethodNotAllowed
      ensures httpMethod == "POST" && req.None? ==> r == Response(500, Failure("Failed to schedule post"))
      ensures httpMethod == "POST" && req.Some? ==>
        var b := req.value;
        var q := old(queue).GetOr([]);
        if b.title == "" || b.content == "" then r == Response(400, Failure(MissingScheduleFields))
        else if b.options.None? then r == Response(500, Failure("Failed to schedule post"))
        else if b.options.value.urlSlug == "" || b.scheduledFor.Absent? then
          r == Response(400, Failure(MissingScheduleFields))
        else if DueAt(b.scheduledFor, now) then
          r == Response(400, Failure("Scheduled time must be in the future"))
        else if FindBySlug(q, b.options.value.urlSlug).Some? then
          r == Response(400, Failure("A post with this URL slug already exists"))
        else if !writeOk then r == Response(500, Failure("Failed to schedule post"))
        else
          queue == Some(q + [NewRecord(b.title, b.content, b.options.value, b.scheduledFor, id, createdAt)])
          && r == Response(200, Scheduled(id, b.scheduledFor))
      ensures SlugsDistinct(old(queue).GetOr([])) ==> SlugsDistinct(queue.GetOr([]))
    {
      if httpMethod != "POST" {
        return MethodNotAllowed;
      }
      if req.None? {
        return Response(500, Failure("Failed to schedule post"));
      }
      var b := req.value;
      if b.title == "" || b.content == "" {
        return Response(400, Failure(MissingScheduleFields));
      }
      if b.options.None? {
        return Response(500, Failure("Failed to schedule post"));
      }
      var o := b.options.value;
      if o.urlSlug == "" || b.scheduledFor.Absent? {
        return Response(400, Failure(MissingScheduleFields));
      }
      if DueAt(b.scheduledFor, now) {
        return Response(400, Failure("Scheduled time must be in the future"));
      }
      var q := queue.GetOr([]);
      if FindBySlug(q, o.urlSlug).Some? {
        return Response(400, Failure("A post with this URL slug already exists"));
      }
      var record := NewRecord(b.title, b.content, o, b.scheduledFor, id, createdAt);
      if !writeOk {
        return Response(500, Failure("Failed to schedule post"));
      }
      AppendKeepsSlugsDistinct(q, record);
      queue := Some(q + [record]);
      r := Response(200, Scheduled(id, b.scheduledFor));
    }

    /**
     * `delete-scheduled-post.js`: the first post with the id is spliced out and returned. An
     * unreadable queue is 404; `postId` is `None` when the body is not JSON.
     */
    method DeleteScheduledPost(httpMethod: string, postId: Option<string>, writeOk: bool)
      returns (r: Response)
      modifies this
      ensures listing == old(listing) && sitemap == old(sitemap) && pages == old(pages) && postDir == old(postDir)
      ensures template == old(template)
      ensures r.status != 200 ==> queue == old(queue)
      ensures httpMethod != "DELETE" ==> r == MethodNotAllowed
      ensures httpMethod == "DELETE" ==>
        if postId.None? then r == Response(500, Failure("Failed to delete scheduled post"))
        else if postId.value == "" then r == Response(400, Failure("Missing required field: postId"))
        else if old(queue).None? then r == Response(404, Failure("No scheduled posts found"))
        else
          var q := old(queue).value;
          var found := FindIndexById(q, postId.value);
          if found.None? then r == Response(404, Failure("Scheduled post not found"))
          else if !writeOk then r == Response(500, Failure("Failed to delete scheduled post"))
          else queue == Some(RemoveAt(q, found.value)) && r == Response(200, Deleted(q[found.value]))
    {
      if httpMethod != "DELETE" {
        return MethodNotAllowed;
      }
      if postId.None? {
        return Response(500, Failure("Failed to delete scheduled post"));
      }
      if postId.value == "" {
        return Response(400, Failure("Missing required field: postId"));
      }
      if queue.None? {
        return Response(404, Failure("No scheduled posts found"));
      }
      var q := queue.value;
      var found := FindIndexById(q, postId.value);
      if found.None? {
        return Response(404, Failure("Scheduled post not found"));
      }
      var deleted := q[found.value];
      if !writeOk {
        return Response(500, Failure("Failed to delete scheduled post"));
      }
      queue := Some(RemoveAt(q, found.value));
      r := Response(200, Deleted(deleted));
    }

    /**
     * `get-scheduled-posts.js`: the queue as read, sorted by time in an array that is not
     * written back. An unreadable queue lists nothing.
     */
    method ListScheduledPosts(httpMethod: string) returns (r: Response)
      ensures httpMethod != "GET" ==> r == MethodNotAllowed
      ensures httpMethod == "GET" && queue.None? ==> r == Response(200, Listed([], 0))
      ensures httpMethod == "GET" && queue.Some? ==>
        r == Response(200, Listed(SortByTime(queue.value), |queue.value|))
      ensures r.body.Listed? ==>
        r.body.count == |r.body.posts| && multiset(r.body.posts) == multiset(queue.GetOr([]))
    {
      if httpMethod != "GET" {
        return MethodNotAllowed;
      }
      if queue.None? {
        return Response(200, Listed([], 0));
      }
      var q := queue.value;
      var a := new ScheduledPost[|q|](i requires 0 <= i < |q| => q[i]);
      assert a[..] == q;
      SortInPlace(a);
      SortPermutes(q);
      r := Response(200, Listed(a[..], a.Length));
    }

    /**
     * `generate-post.js`: after the checks, the page is rendered and written, then the listing
     * and the sitemap (post priority `0.8`) are updated; `req` is `None` when the body is not JSON.
     */
    method GeneratePost(httpMethod: string, req: Option<GenerateRequest>, postDate: string,
                        env: Env, at: Attempt) returns (r: Response)
      modifies this
      ensures queue == old(queue) && template == old(template)
      ensures r.status != 200 ==> Files(listing, sitemap, pages, postDir) == old(Files(listing, sitemap, pages, postDir))
      ensures httpMethod != "POST" ==> r == MethodNotAllowed
      ensures httpMethod == "POST" ==>
        if req.None? then r == Response(500, Failure("Failed to generate post"))
        else
          var b := req.value;
          if b.title == "" || b.content == "" then r == Response(400, Failure(MissingPostFields))
          else if b.options.None? then r == Response(500, Failure("Failed to generate post"))
          else if b.options.value.urlSlug == "" then r == Response(400, Failure(MissingPostFields))
          else
            var slug := b.options.value.urlSlug;
            var (g, ok) := AfterPublish(old(Files(listing, sitemap, pages, postDir)), template,
                                        DraftFrom(b.title, b.content, b.options.value), postDate,
                                        env, at, "0.8");
            Files(listing, sitemap, pages, postDir) == g
            && (ok ==> r == Response(200, Generated(PostUrl(slug), PageFile(slug))))
            && (!ok ==> r == Response(500, Failure("Failed to generate post")))
    {
      if httpMethod != "POST" {
        return MethodNotAllowed;
      }
      if req.None? {
        return Response(500, Failure("Failed to generate post"));
      }
      var b := req.value;
      if b.title == "" || b.content == "" {
        return Response(400, Failure(MissingPostFields));
      }
      if b.options.None? {
        return Response(500, Failure("Failed to generate post"));
      }
      var slug := b.options.value.urlSlug;
      if slug == "" {
        return Response(400, Failure(MissingPostFields));
      }
      var ok := PublishDraft(DraftFrom(b.title, b.content, b.options.value), postDate, env, at, "0.8");
      if !ok {
        return Response(500, Failure("Failed to generate post"));
      }
      r := Response(200, Generated(PostUrl(slug), PageFile(slug)));
    }

    /** `generate-sitemap.js`: post priority `0.8`, and here a failed write is an error. */
    method SitemapHandler(env: Env, writeOk: bool) returns (r: Response)
      modifies this
      ensures sitemap == SitemapAfter(old(sitemap), listing, postDir, env, "0.8", writeOk)
      ensures writeOk ==> r == Response(200, SitemapReady(|SitemapPosts(listing, postDir, env.today)|,
                                                          BaseUrl(env.url) + "/sitemap.xml"))
      ensures !writeOk ==> r == Response(500, Failure("Failed to generate sitemap"))
      ensures queue == old(queue) && listing == old(listing) && pages == old(pages) && postDir == old(postDir)
      ensures template == old(template)
    {
      var count := GenerateSitemap(env, "0.8", writeOk);
      if !writeOk {
        return Response(500, Failure("Failed to generate sitemap"));
      }
      r := Response(200, SitemapReady(count, BaseUrl(env.url) + "/sitemap.xml"));
    }
  }
}
