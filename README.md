# Scheduled-post pipeline of a static personal site, in Dafny

This project models the publishing core of a personal website that runs on serverless
functions. Authors schedule posts into a queue file, `scheduled-posts.json`. A periodic worker,
the scheduled publisher, takes the posts that are due and turns each into a static page under
`posts/`. It then puts a summary at the front of `posts-listing.json` and rebuilds `sitemap.xml`
(Sitemap protocol 0.9 of sitemaps.org). Posts whose page could not be written go back into the
queue.

Sibling endpoints use the same queue and files:

- schedule a post;
- list the queue by time;
- delete a queued post;
- publish a post at once;
- rebuild the sitemap.

Three smaller pieces are modelled too:

- the browser-side post manager, which makes ids and HTML from pasted word-processor text;
- the newsletter sender's excerpts and its sent/failed accounting;
- the PDF upload endpoint's multipart parser and folder-name sanitiser.

Modules, leaves first:

| module | file | what it is |
|---|---|---|
| `Wrappers` | wrappers.dfy | `Option`; `GetOr` is the `|| default` a failed file read falls back to |
| `Seqs` | seqs.dfy | small facts about sequences |
| `Text` | text.dfy | the JavaScript string operations the source uses (`indexOf`, `split`, `join`, global and first-only `replace`, `trim`, `toLowerCase`) |
| `Inline` | inline.dfy | the lazy delimiter patterns (`**`, `*`, fenced and inline code) and the link pattern, as scanners |
| `Markdown` | markdown.dfy | `convertMarkdownToHtml`: line rules, inline passes, paragraphs, the three clean-ups |
| `PageTemplate` | template.dfy | tag fragment, keyword string and the chain of eight placeholder replaces |
| `Posts` | posts.dfy | a queued post; `scheduledFor` as missing, unparseable, or a time in ms |
| `Listing` | listing.dfy | listing entries and their `/posts/<slug>.html` addresses |
| `Sitemap` | sitemap.dfy | the posts of the sitemap (listing, directory scan, or none) and its text |
| `Queue` | queue.dfy | the new record, lookups by slug and id, `splice`, and the in-place stable sort |
| `Worker` | worker.dfy | the publisher's partition into due and not-due, and the retry bookkeeping |
| `Site` | site.dfy | class `Site`, whose fields are the files; one method per handler |
| `WordPost` | wordpost.dfy | `generatePostId`, `formatWordContent`, and class `PostManager` over its `posts` list |
| `Newsletter` | newsletter.dfy | tag stripping, excerpts, `{{EMAIL}}` personalisation, the send loops, the handler |
| `Upload` | upload.dfy | `parseMultipartFormData` (two nested loops), `Sanitize`, the upload handler |

## How the environment enters the model

- **Files.** Each file is a field of `Site.Site` of type `Option`. `None` means the file cannot
  be read or does not parse. The pages the handlers write are a `map` from file name to text.
- **The `posts/` folder.** What `readdir` lists is the field `postDir`: the names in readdir's
  order, or `None` while the folder does not exist. Writing a page makes the folder if needed and
  lists a new name after the others, so the sitemap's fallback scan sees every page written before
  it (`Site.PublishedInScan`).
- **Writes.** Whether a write succeeds is a boolean argument. One publication gets an `Attempt`:
  page written, listing written, sitemap written. The worker gets one `Attempt` per due post,
  as a function `nat -> Attempt`.
- **Clock and dates.** The clock is `now: int` in milliseconds. `new Date(scheduledFor)` is a
  `DateField`: `Absent`, `Invalid` (time `NaN`) or `Time(ms)`. Formatted dates (`toLocaleDateString`,
  the `YYYY-MM-DD` of "today"), ids and `createdAt` are opaque strings passed in.
- **Other inputs.** `process.env.URL` and today's date come in as `Site.Env`.
  Newsletter deliveries come in as one boolean per subscriber.
- **JavaScript falsiness.** A missing optional string is `""` and a missing list is `[]`, which is
  how the source's `||` defaults see them.

## Where the code and its design description differ (the model follows the code)

- **Placeholder substitution repeats.** The design says placeholders are replaced once against
  literal post data. The code is a chain of global replaces, so a title holding
  `{{URL_SLUG}}` is replaced again by the slug (`PageTemplate.Resubstitution`).
- **Slug uniqueness checks only the queue.** The design says a slug is unique across the queue
  and the published listing. The code checks only the queue
  (netlify/functions/schedule-post.js:63).
- **Listing and sitemap failures do not retain a post.** The design says any failure in the
  listing or sitemap step puts the post back. The code swallows those errors inside the
  helpers, so only a missing template or a failed page write does (`Site.PublishOutcome`).
- **`published` counts failures too.** The design reports the number published. The code
  reports the number of due posts, failures included (`Worker.ReportedCounts`).
- **An unparseable `scheduledFor` slips through.** The design says a time not strictly in the
  future is always rejected. An unparseable `scheduledFor` compares false with `<=`, so
  scheduling accepts it and the worker never finds it due (`Posts.DueNeedsTime`).
- **Delete on a missing queue is 404.** The design treats a missing store as empty everywhere.
  Delete answers 404 `No scheduled posts found` when the queue file is unreadable.
- **A failed queue write leaves work done.** When the final queue write fails, the handler
  answers 500. The queue keeps its old contents, but pages, listing and sitemap written for the
  due posts stay, so those posts are published again on the next run.
- **List items stay in paragraphs.** A `- x` line becomes `<p><li>x</li></p>`: no clean-up
  pattern removes a paragraph around `<li>` (`Markdown.ConvertListLine`).

## Model

| member | source | states |
|---|---|---|
| Posts.DueNeedsTime | netlify/functions/scheduled-publisher.js:30-32 | a missing or unparseable `scheduledFor` is never due; a time is due exactly when it is at or before `now` |
| Worker.Partition | netlify/functions/scheduled-publisher.js:28-39 | the loop over the queue yields the due part and the not-due part, each in queue order |
| Worker.PartitionConserves | netlify/functions/scheduled-publisher.js:28-39 | every queued post lands in exactly one part: the two parts together are the queue, as multisets and by length |
| Worker.DueMembers | netlify/functions/scheduled-publisher.js:32-38 | a post is in the due part iff it is queued and due, and in the other part iff it is queued and not due |
| Worker.PartitionConcat | netlify/functions/scheduled-publisher.js:29-39 | both parts keep queue order: the parts of `a + b` are the parts of `a` followed by those of `b` |
| Worker.NothingDue | netlify/functions/scheduled-publisher.js:28-39 | when no post is due, nothing is selected and every post stays, in order |
| Worker.AttemptsConserve | netlify/functions/scheduled-publisher.js:42-51 | every due post is either published or put back, never both and never neither |
| Worker.AllOrNothing | netlify/functions/scheduled-publisher.js:42-51 | when every attempt fails all due posts come back in order; when all succeed none do |
| Worker.NextQueueConserves | netlify/functions/scheduled-publisher.js:41-54 | the written queue plus the published posts are exactly the queue that was read |
| Worker.PublishedLeaves | netlify/functions/scheduled-publisher.js:42-54 | a post queued once and published is not in the written queue |
| Worker.NoPostDuplicated | netlify/functions/scheduled-publisher.js:42-54 | no post occurs in the written queue more often than in the queue read |
| Worker.ReportedCounts | netlify/functions/scheduled-publisher.js:56-62 | `published` is the number of due posts, successes plus failures; `remaining` is not-due plus failed; they coincide with the successes only when nothing failed |
| Site.Site.RunPublisher | netlify/functions/scheduled-publisher.js:5-72 | unreadable queue: 200 "No scheduled posts to process" and nothing changes; otherwise each due post is tried in order, the files are those after the publications, the queue written is not-due then failed, and the reply counts due and remaining; a failed queue write is 500 with the queue unchanged |
| Site.PublishOutcome | netlify/functions/scheduled-publisher.js:74-136 | a publication succeeds iff the template is read and the page written; listing and sitemap failures never make it fail, and a failure changes no file |
| Site.PublishedPage | netlify/functions/scheduled-publisher.js:117-123 | a success writes the rendered page under `<slug>.html` and leaves every other page as it was; a written listing has the new entry, addressed `/posts/<slug>.html`, in front of the old entries |
| Site.PublishKeepsAddresses | netlify/functions/scheduled-publisher.js:189-198 | a publication keeps every listing address derived from its entry's slug |
| Site.PublishedInSitemap | netlify/functions/scheduled-publisher.js:123-126 | after a fully successful publication the sitemap holds the new post's element, with its page address and date, as the first post after the fixed pages |
| Site.RunWithoutTemplate | netlify/functions/scheduled-publisher.js:94-95 | without a template every attempt fails and the run leaves pages, listing and sitemap as they were |
| Site.RunKeepsPages | netlify/functions/scheduled-publisher.js:117-120 | a run never removes a page and adds the page of every post it published |
| Site.WithPage | netlify/functions/scheduled-publisher.js:108-120 | after a page write `posts/` exists and lists the page; the names already there keep their order, and no other name appears |
| Site.PublishKeepsDirectory | netlify/functions/scheduled-publisher.js:108-120 | a publication keeps every written page listed in `posts/`, keeps the order of the names there, and lists a published page |
| Site.RunKeepsDirectory | netlify/functions/scheduled-publisher.js:41-51 | a whole run keeps every written page listed in `posts/` and keeps the order of the names |
| Site.PublishedInScan | netlify/functions/scheduled-publisher.js:117-126 | with the listing unreadable and its write failed, the rebuilt sitemap comes from the scan of `posts/`, which holds the new post, dated today |
| Site.RunKeepsAddresses | netlify/functions/scheduled-publisher.js:176-198 | a run keeps every listing address derived from its entry's slug |
| Site.Outcomes | netlify/functions/scheduled-publisher.js:42-51 | the outcome of attempt `j` is success exactly when the template exists and that page write succeeds |
| Site.ListingAfter | netlify/functions/scheduled-publisher.js:176-206 | a successful write puts the entry at index 0 with the old entries (none if unreadable) after it, unchanged; a failed write leaves the listing as it was |
| Site.Site.UpdatePostsListing | netlify/functions/scheduled-publisher.js:176-206 | the listing becomes `ListingAfter` of the old one; no other file changes |
| Site.Site.GenerateSitemap | netlify/functions/scheduled-publisher.js:209-282 | the sitemap is rebuilt from the listing or else the scan of the current `posts/` when the write succeeds, and kept otherwise; nothing else changes |
| Site.Site.PublishDraft | netlify/functions/scheduled-publisher.js:74-126 | page (listed in `posts/`), then listing, then sitemap, with the resulting files and outcome given by `AfterPublish`; the queue and template are untouched |
| Site.Site.SchedulePost | netlify/functions/schedule-post.js:4-130 | the checks in source order (405, unparseable body 500, missing title/content 400, missing `options` 500, missing slug/time 400, time not in the future 400, slug already queued 400, failed write 500); only success changes the queue, appending the new record; slugs stay distinct |
| Queue.NewRecord | netlify/functions/schedule-post.js:79-91 | the record carries the request's fields and the given id; category defaults to `general`, description to the title |
| Queue.RecordDefaults | netlify/functions/schedule-post.js:84-86 | with no category and no description the record has `general` and the title |
| Queue.FindBySlug | netlify/functions/schedule-post.js:63 | finds the first queued post with the slug, and finds none iff no queued post has it |
| Queue.AppendKeepsSlugsDistinct | netlify/functions/schedule-post.js:63-94 | appending a post whose slug is not queued keeps every queued slug distinct |
| Site.Site.DeleteScheduledPost | netlify/functions/delete-scheduled-post.js:4-105 | 405, 500 for an unparseable body, 400 for a missing id, 404 for an unreadable queue, 404 for an unknown id, 500 for a failed write; on success the first post with the id is removed and returned; every failure leaves the queue unchanged |
| Queue.FindIndexById | netlify/functions/delete-scheduled-post.js:55-56 | the index of the first post with the id, and none iff no post has it |
| Queue.RemoveAt | netlify/functions/delete-scheduled-post.js:71 | one post fewer: the posts before the index stay, the posts after it move up one, in order |
| Queue.RemoveAtMultiset | netlify/functions/delete-scheduled-post.js:70-71 | removal takes exactly the removed post out of the queue |
| Queue.RemoveFirstById | netlify/functions/delete-scheduled-post.js:55-71 | after removing the first post with an id, any post left with that id was later; if there was none later, none is left |
| Site.Site.ListScheduledPosts | netlify/functions/get-scheduled-posts.js:4-68 | 405 for a wrong method; an unreadable queue lists nothing with count 0; otherwise the queue sorted by time, with `count` its length and the same posts as stored |
| Queue.SortInPlace | netlify/functions/get-scheduled-posts.js:38 | the in-place sort of the array leaves the stable sort by time of its old contents |
| Queue.InsertInPlace | netlify/functions/get-scheduled-posts.js:38 | moving one post left into the ordered prefix gives the insertion of it, the rest of the array unchanged |
| Queue.SortPermutes | netlify/functions/get-scheduled-posts.js:38 | the listing holds the stored posts, each as often as stored |
| Queue.SortSorts | netlify/functions/get-scheduled-posts.js:38 | with every date parsed, no post is listed after a later one |
| Queue.SortStable | netlify/functions/get-scheduled-posts.js:38 | with every date parsed, posts of the same time keep their stored order |
| Queue.SortKeepsSorted | netlify/functions/get-scheduled-posts.js:38 | a queue already in order is listed as stored |
| Site.Site.SitemapHandler | netlify/functions/generate-sitemap.js:4-106 | the sitemap with post priority 0.8 is written; 200 reports the number of posts and `<base>/sitemap.xml`, a failed write is 500 |
| Sitemap.BaseUrl | netlify/functions/generate-sitemap.js:7 | the set `URL`, or the site's default when unset |
| Sitemap.SitemapPosts | netlify/functions/generate-sitemap.js:10-32 | the listing's entries in order when readable; else the scan of `posts/`, dated today; else none |
| Sitemap.ScanPostsConcat | netlify/functions/generate-sitemap.js:21-27 | the scan keeps directory order: the scan of two lists is the scans side by side |
| Sitemap.ScanPostsOne | netlify/functions/generate-sitemap.js:22 | a file counts iff its name ends with `.html` |
| Sitemap.FileSlugOfPage | netlify/functions/generate-sitemap.js:24 | `<slug>.html` gives back the slug when only the final `.html` is one |
| Sitemap.FileTitleSpaces | netlify/functions/generate-sitemap.js:25 | the title is the slug with every hyphen a space, and no hyphen is left |
| Sitemap.ScanPostsDated | netlify/functions/generate-sitemap.js:26 | every scanned post is dated today |
| Sitemap.FixedBlockInText | netlify/functions/generate-sitemap.js:37-61 | each of the four fixed pages (home weekly 1.0, posts weekly 0.9, projects monthly 0.8, recommendations monthly 0.7) stands in the document, in that order, before the posts |
| Sitemap.PostBlockInText | netlify/functions/generate-sitemap.js:64-69 | the element of every post stands in the document at its offset, the elements in post order |
| Sitemap.ListedPostEntry | netlify/functions/generate-sitemap.js:64-69 | a listed post's element points at `<base>` plus its listing address, with its date or today, at the given priority |
| PageTemplate.TagsHtmlConcat | netlify/functions/scheduled-publisher.js:86-88 | the tag fragment of `a + b` is the fragments of `a` and `b` side by side |
| PageTemplate.TagsHtmlBase | netlify/functions/scheduled-publisher.js:86-88 | no tags give no fragment; one tag gives one `<span class="post-tag">` |
| PageTemplate.TagsHtmlEach | netlify/functions/scheduled-publisher.js:86-88 | every tag's span stands in the fragment, in tag order |
| PageTemplate.KeywordsRoundTrip | netlify/functions/scheduled-publisher.js:91 | the keyword string splits back into the keywords when none holds `, ` |
| PageTemplate.SubstitutePlain | netlify/functions/scheduled-publisher.js:98-106 | a template without `{` comes out unchanged |
| PageTemplate.SubstituteLands | netlify/functions/scheduled-publisher.js:98-106 | the placeholder of step `k` comes out as that step's value when no earlier step has its name and no later value holds `{` |
| PageTemplate.PageNames | netlify/functions/scheduled-publisher.js:99-106 | the eight placeholder names are brace-free and distinct |
| PageTemplate.PlaceholderFilled | netlify/functions/scheduled-publisher.js:98-106 | each placeholder becomes its value: title, body, date, category or `general`, tag fragment, description or title, keywords, slug |
| PageTemplate.Resubstitution | netlify/functions/scheduled-publisher.js:98-106 | a later step replaces a placeholder that an earlier value brought in: a title `{{URL_SLUG}}` comes out as the slug |
| Site.Site.GeneratePost | netlify/functions/generate-post.js:4-116 | 405, 500 for an unparseable body, 400 for missing title/content, 500 for missing `options`, 400 for a missing slug; then the publication with post priority 0.8, answering `/posts/<slug>.html` on success and 500 on failure; every failure leaves the files as they were |
| Listing.PostUrlSlug | netlify/functions/generate-post.js:75-96 | the slug is read back from the address between `/posts/` and `.html` |
| Listing.PostUrlInjective | netlify/functions/generate-post.js:75-96 | two slugs with the same address are the same |
| Listing.PrependWellAddressed | netlify/functions/generate-post.js:170-179 | a new entry in front keeps every address derived from its slug |
| Markdown.HeadingLevels | netlify/functions/scheduled-publisher.js:142-144 | `# x`, `## x`, `### x` become h1, h2, h3 around `x`; a line with none of the markers is left alone |
| Markdown.HeadingsCons | netlify/functions/scheduled-publisher.js:142-144 | the heading rules act on each line and keep its terminator |
| Markdown.ApplyRuleKeepsLine | netlify/functions/scheduled-publisher.js:142-166 | a line rule never joins or splits lines |
| Markdown.MapLinesCons | netlify/functions/scheduled-publisher.js:142-166 | a `^…$` rule rewrites each line and keeps its terminator |
| Markdown.BlockLineKinds | netlify/functions/scheduled-publisher.js:158-162 | `> x` becomes a blockquote; `* x` and `- x` each become a list item; other lines are left alone |
| Markdown.EmphasisPlain | netlify/functions/scheduled-publisher.js:147-155 | text with no `*`, backtick or `[` passes the inline passes unchanged |
| Markdown.EmphasisExample | netlify/functions/scheduled-publisher.js:147-151 | `**b** and *i* [t](u)` becomes `<strong>b</strong> and <em>i</em> ` and an anchor to `u` opening in a new tab: bold is matched before italic |
| Inline.RewriteSpan | netlify/functions/scheduled-publisher.js:147-155 | a delimited span becomes its tags around the captured text, and the scan resumes after it |
| Inline.RewritePlain | netlify/functions/scheduled-publisher.js:147-155 | text without the delimiter's first character is copied |
| Inline.RewriteKeepsAbsent | netlify/functions/scheduled-publisher.js:147-155 | the rewrite adds no character other than those of its tags |
| Inline.SpanOfPlain | netlify/functions/scheduled-publisher.js:147-155 | the lazy match closes at the first closing delimiter |
| Inline.RewriteLink | netlify/functions/scheduled-publisher.js:151 | `[text](url)` with non-empty parts becomes `<a href="url" target="_blank">text</a>` |
| Inline.RewriteLinksPlain | netlify/functions/scheduled-publisher.js:151 | text without `[` is copied by the link pass |
| Inline.RewriteLinksKeepsAbsent | netlify/functions/scheduled-publisher.js:151 | the link pass adds no character other than those of its anchor markup |
| Markdown.ParagraphsLine | netlify/functions/scheduled-publisher.js:165-169 | a non-empty line holding no `<p` becomes one paragraph |
| Markdown.DropEmptyParasSkips | netlify/functions/scheduled-publisher.js:169 | text in which no `<p>` can start passes the removal of empty paragraphs unchanged |
| Markdown.UnwrapWrapped | netlify/functions/scheduled-publisher.js:170-172 | a whole-line paragraph that wraps a heading, blockquote or `pre` element loses its `<p>` and `</p>` |
| Markdown.UnwrapSkips | netlify/functions/scheduled-publisher.js:170-172 | text in which no `<p>` can start passes each clean-up unchanged |
| Markdown.UnwrapOther | netlify/functions/scheduled-publisher.js:170-172 | a paragraph opened by none of the block's tags passes its clean-up |
| Markdown.ConvertOneLine | netlify/functions/scheduled-publisher.js:139-173 | a one-line document goes through the line rules, becomes one paragraph, and then only the clean-ups act on it |
| Markdown.HeadingCleanups | netlify/functions/scheduled-publisher.js:169-172 | the clean-ups take the paragraph off a heading and leave the heading element |
| Markdown.QuoteCleanups | netlify/functions/scheduled-publisher.js:169-172 | the clean-ups take the paragraph off a blockquote and leave the blockquote |
| Markdown.ConvertPlainLine | netlify/functions/scheduled-publisher.js:139-173 | a plain line becomes `<p>line</p>` |
| Markdown.ConvertHeadingLine | netlify/functions/scheduled-publisher.js:139-173 | a heading line comes out as the bare heading element, with no paragraph around it |
| Markdown.ConvertQuoteLine | netlify/functions/scheduled-publisher.js:139-173 | `> x` comes out as the bare blockquote |
| Markdown.ConvertListLine | netlify/functions/scheduled-publisher.js:139-173 | `- x` comes out as `<p><li>x</li></p>`: a list item is not unwrapped |
| WordPost.PostIdClean | js/post-manager.js:67-74 | an id holds only `a-z`, `0-9` and `-`, never two hyphens in a row |
| WordPost.PostIdIdempotent | js/post-manager.js:67-74 | making an id of an id changes nothing |
| WordPost.LeadingSpaceHyphen | js/post-manager.js:68-73 | the final `trim` never bites: a title starting with a space gives an id starting with `-` |
| WordPost.CollapseNoDouble | js/post-manager.js:72 | collapsing leaves no two hyphens in a row |
| WordPost.KeepIdChars | js/post-manager.js:70 | the filter keeps only id characters and white space, and never lengthens |
| WordPost.NormalizeClean | js/post-manager.js:36-38 | no carriage return and no tab survive the first three replaces |
| WordPost.FormatClean | js/post-manager.js:33-64 | the formatted text holds no carriage return and no tab |
| WordPost.UnderlineTitle | js/post-manager.js:41-42 | a line underlined with three or more `=` or `-` becomes the line between the heading tags |
| WordPost.UnderlineKeepsAbsent | js/post-manager.js:41-42 | the heading rewrite adds no character other than its tags |
| WordPost.NonEmpty | js/post-manager.js:54 | the filter keeps exactly the non-empty blocks, in order |
| WordPost.TrimAll | js/post-manager.js:53 | each block is trimmed |
| WordPost.BlocksShape | js/post-manager.js:52-60 | every output block is non-empty and cannot run into the blank line after it |
| WordPost.FormatSplits | js/post-manager.js:52-61 | splitting the output on blank lines gives back the blocks |
| WordPost.FormatParagraph | js/post-manager.js:55-60 | a plain line becomes `<p>line</p>` |
| WordPost.FormatHeading | js/post-manager.js:41-60 | a line underlined with `===` becomes `<h3>…</h3>`, not wrapped in a paragraph |
| WordPost.MakePost | js/post-manager.js:9-18 | the post has the title, the formatted content and the id of the title, so a clean id; its date is the given one when truthy and otherwise a `Date` for now; the category is never empty, and a missing link is none |
| WordPost.ExternalLinks | js/post-manager.js:139-145 | an external post's two links are the same: the link, or none when it is empty |
| WordPost.PostManager.AddPostFromWord | js/post-manager.js:9-30 | the built post goes to index 0 and the old posts follow, unchanged; the call returns only when every post then renders, and a list replaced by a non-array is left alone while the call throws |
| WordPost.PostManager.QuickAdd | js/post-manager.js:134-136 | the same list change and the same outcome as adding from text |
| WordPost.PostManager.AddExternalPost | js/post-manager.js:139-145 | adds the post built with both links set to the given link, with the outcome of adding from text |
| WordPost.PostManager.GetAllPosts | js/post-manager.js:148-150 | returns what the list field holds |
| WordPost.PostManager.UpdateWebsite | js/post-manager.js:77-98 | rendering runs through iff the field holds an array whose every post has a `Date`: the first other date throws at `toLocaleDateString` |
| WordPost.MadePostRenders | js/post-manager.js:9-18 | a post built by the manager renders unless its date was given as a non-empty string |
| WordPost.PostManager.ExportPosts | js/post-manager.js:153-155 | the JSON value written is the list with each `Date` as its ISO string; a non-array stays a non-array |
| WordPost.ToJson | js/post-manager.js:154 | a post's date is written iff it has one |
| WordPost.Export | js/post-manager.js:154 | one JSON post per post, in order |
| WordPost.ParsedRenders | js/post-manager.js:159-160 | a parsed list renders iff it is empty, because JSON gives back no `Date` |
| WordPost.ExportImportThrows | js/post-manager.js:153-160 | importing the export of a non-empty list leaves posts that cannot render |
| WordPost.ExportRevivedRoundTrip | js/post-manager.js:153-160 | with dates made `Date`s again, the export of renderable posts comes back unchanged and renders |
| WordPost.PostManager.ImportPostsRevived | js/post-manager.js:158-161 | the intended import: only an array replaces the list, its dates revived; it renders iff every entry has a date |
| WordPost.PostManager.ImportPosts | js/post-manager.js:158-161 | text that is not JSON throws and changes nothing; any other value replaces the list, and the call returns only for an empty array: a non-array or a non-empty array throws |
| Newsletter.StripNoTag | netlify/functions/send-newsletter.js:253 | what stripping leaves holds no `<…>` tag |
| Newsletter.StripPlain | netlify/functions/send-newsletter.js:253 | text without a tag comes through unchanged |
| Newsletter.StripIdempotent | netlify/functions/send-newsletter.js:253 | stripping twice strips nothing more |
| Newsletter.StripKeeps | netlify/functions/send-newsletter.js:253 | stripping never lengthens and adds no character |
| Newsletter.Truncate | netlify/functions/send-newsletter.js:258-260 | the cut is a prefix of the text followed by `...`, at most `maxLength + 3` long |
| Newsletter.TruncateAtLastSpace | netlify/functions/send-newsletter.js:258-260 | the cut falls right before the last space among the first `maxLength` characters |
| Newsletter.TruncateNoSpace | netlify/functions/send-newsletter.js:259-260 | with no space among them the result is exactly `...` |
| Newsletter.CreateExcerpt | netlify/functions/send-newsletter.js:252-261 | the HTML itself when its text is at most `maxLength` (default 300), else the cut of the text |
| Newsletter.CreateTextExcerpt | netlify/functions/send-newsletter.js:264-273 | the text when at most `maxLength` (default 200), else its cut; never longer than `maxLength + 3` |
| Newsletter.TextExcerptNoTag | netlify/functions/send-newsletter.js:264-273 | a text excerpt never carries a tag |
| Newsletter.ExcerptsAgree | netlify/functions/send-newsletter.js:252-273 | when the text is too long both excerpts are the same cut |
| Newsletter.PersonalizeAt | netlify/functions/send-newsletter.js:95-96 | each `{{EMAIL}}` becomes the subscriber's address |
| Newsletter.PersonalizeAbsent | netlify/functions/send-newsletter.js:95-96 | a body without the placeholder is the same for every subscriber |
| Newsletter.SendAll | netlify/functions/send-newsletter.js:80-112 | one personalised mail per subscriber; `sent` counts the deliveries, and `sent + failed` is the number of subscribers |
| Newsletter.ResendKeyUsable | netlify/functions/send-newsletter.js:73-77 | the Resend key is refused iff it is missing, empty or the placeholder |
| Newsletter.SendWithResend | netlify/functions/send-newsletter.js:72-113 | refuses with the key message and sends nothing without a real key; otherwise the counts of `SendAll` |
| Newsletter.SendWithSendGrid | netlify/functions/send-newsletter.js:116-167 | refuses without a key; otherwise the counts of `SendAll` |
| Newsletter.NewsletterHandler | netlify/functions/send-newsletter.js:3-69 | 405; 500 for an unparseable body, missing database settings, or a refused key; otherwise 200 with sent, failed and total, where sent + failed = total |
| Upload.ScanLines | netlify/functions/upload-pdf.js:83-96 | the inner loop yields the part's last `Content-Disposition:` line and its content |
| Upload.ScanHeader | netlify/functions/upload-pdf.js:88-90 | the header is the last `Content-Disposition:` line, or empty when there is none |
| Upload.ScanContent | netlify/functions/upload-pdf.js:88-96 | the content is the lines after the first blank line that are neither blank nor header lines, each followed by CRLF; with no blank line it is empty |
| Upload.SelectFrom | netlify/functions/upload-pdf.js:91-95 | every content line is a line of the part, not a header line, and not blank |
| Upload.QuotedFrom | netlify/functions/upload-pdf.js:99-100 | a match is non-empty, quote-free, and stands after the pattern and before a quote |
| Upload.QuotedRoundTrip | netlify/functions/upload-pdf.js:99-100 | `name="v"` reads back `v` |
| Upload.ApplyPart | netlify/functions/upload-pdf.js:82-112 | a skipped or unnamed part changes nothing; no key is removed; only `file`, `filename` or the part's own name change |
| Upload.FilePartRead | netlify/functions/upload-pdf.js:104-107 | a part with a filename sets `file` to the content bytes and `filename` to the name, both present |
| Upload.FilenameClean | netlify/functions/upload-pdf.js:107 | the filename set is never empty and holds no quote |
| Upload.ParseMultipartFormData | netlify/functions/upload-pdf.js:75-117 | the nested loops fill the form part by part, a later part overwriting an earlier one |
| Upload.Sanitize | netlify/functions/upload-pdf.js:33 | same length; each character is the lower-cased one when in `[a-z0-9-_]`, else `-` |
| Upload.SanitizeIdempotent | netlify/functions/upload-pdf.js:33 | sanitising a folder name changes nothing |
| Upload.SanitizeDash | netlify/functions/upload-pdf.js:33-34 | the name is `-` iff the category is one character outside the set |
| Upload.EmptyFolderUnreachable | netlify/functions/upload-pdf.js:17-34 | a present category never sanitises to the empty name |
| Upload.UploadPdf | netlify/functions/upload-pdf.js:4-73 | 405; 500 without a content type; 400 for a missing field; 400 for a non-PDF name; 400 for the folder `-`; with every field valid, a failed write is 500 and a successful one is 200 and writes `docs/<folder>/<filename>` with the file's bytes; nothing is written otherwise |
| Text.ReplaceAllIsSplitJoin | netlify/functions/scheduled-publisher.js:99 | a global replace of a literal is the split at every occurrence joined with the replacement |
| Text.SplitJoin | netlify/functions/scheduled-publisher.js:91 | joining separator-free pieces and splitting gives back the pieces |
| Text.JoinSplit | netlify/functions/upload-pdf.js:77 | splitting and joining with the same separator gives back the text |
| Text.IndexOf | netlify/functions/generate-sitemap.js:24 | the first index at which the pattern occurs, or none when it never does |
| Text.ReplaceFirst | netlify/functions/generate-sitemap.js:24 | only the first occurrence is replaced; without one the text is unchanged |
| Text.TrimmedEnds | js/post-manager.js:53 | the trimmed text neither starts nor ends with white space, and adds no character |

## Findings

| source | as written | input that shows it | evidently intended | confidence | as-written member | corrected member |
|---|---|---|---|---|---|---|
| js/post-manager.js:158-161 | `importPosts` stores `JSON.parse(postsData)` and re-renders; rendering calls `post.date.toLocaleDateString` (line 94), and a parsed date is a string | the output of `exportPosts()` of a manager holding one post | an export imports back whole: the dates made `Date`s again before rendering | high; not executed | WordPost.ExportImportThrows | WordPost.ExportRevivedRoundTrip |

`WordPost.PostManager.ImportPosts` is the import as written. `WordPost.PostManager.ImportPostsRevived`
is the corrected import whose round trip `WordPost.ExportRevivedRoundTrip` proves.

## Left out

- File I/O, JSON parsing and printing, and the `posts/` folder creation. Files are fields, and
  reads and writes are `Option`s and booleans. A write failure is one boolean per write.
- Dates. `new Date`, `toLocaleDateString` and `toISOString` are opaque strings or integer
  milliseconds passed in.
- The worker's `sendNewsletter` step only logs and its errors are swallowed. It has no effect on
  any file or on the outcome, so it is not modelled.
- `$` patterns in replacement strings. `String.prototype.replace` gives `$&`, `$1` and similar a
  meaning inside a replacement string. The model substitutes every value literally, so a value
  holding `$&` is not expanded.
- Markdown: the model follows the regex chain exactly for the patterns used. Properties are
  proved for one-line documents and for the passes one at a time, not for every multi-line
  document.
- Unicode case mapping. `toLowerCase` is modelled on ASCII letters only. Non-ASCII letters that
  lower-case to ASCII (the Kelvin sign, dotted capital I) are not mapped, which matters for
  `generatePostId` and `Sanitize`.
- Queue sorting with unparseable dates. A `NaN` comparison counts as "equal" (those posts are
  never moved past each other); sortedness and stability are proved only when every date parses,
  because JavaScript leaves the order implementation-defined otherwise.
- Newsletter: `createEmailTemplate` (the HTML and text bodies are inputs), the Supabase client
  and its `update`, and the `fetch` calls (one delivery boolean per subscriber). The handler is
  modelled with Resend as its sender, as the code selects.
- Post manager: the HTML `generatePostHTML` builds, the page `updateWebsite` writes it into, and
  `trackNewPost` (DOM and analytics) are left out; only whether rendering throws is kept. The
  JSON text of `exportPosts` is left out: exports and imports are JSON values. Array entries that
  are not post objects are not modelled; like every parsed entry they have no `Date`. A `Date`
  is its ISO string.
- Malformed JSON files. A file that parses to something other than an array of records is not
  modelled: `None` stands for a file that cannot be read or parsed. In the source such a value
  behaves differently per handler. The publisher's `for…of` throws and it answers 500.
  `updatePostsListing`'s `unshift` throws and nothing is written. The sitemap's `map` throws.
  `schedule-post.js`'s `find` throws and it answers 500.
- The order in which `readdir` lists a new file is up to the file system; the model lists it
  after the names already there.
- UTF-16 strings. JavaScript strings count and cut UTF-16 code units; the model's strings are
  sequences of Unicode characters. Wherever a character outside the Basic Multilingual Plane
  occurs, lengths, cuts and character classes differ:
  - `Upload.Sanitize`, `Upload.SanitizeDash` and `Upload.UploadPdf`: the source turns each
    surrogate of such a character into `-`. A category of one emoji gives `--` and is accepted;
    the model gives `-` and refuses it.
  - `Newsletter.Truncate`, `Newsletter.CreateExcerpt` and `Newsletter.CreateTextExcerpt`: the
    source counts `maxLength` in code units and can cut between the two halves of a surrogate
    pair. The model counts characters.
- Upload: `Buffer.from(content, 'binary')` is the content string unchanged; its truncation to
  bytes is not modelled. `path.join` normalisation of the stored path is not modelled. Field
  names that touch the object prototype (`__proto__`) are treated as ordinary keys.
- Concurrency: every handler is a single writer, as the code assumes.
- Response headers (CORS and `Content-Type`) and the `details` text of 500 replies.
