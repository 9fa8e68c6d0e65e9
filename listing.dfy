/**
 * The published-post listing `posts-listing.json`: one summary per published post, newest
 * first. The publishers add an entry at the front; nothing in this core removes one.
 */
module Listing {
  /** One summary, as `updatePostsListing` writes it. */
  datatype ListingEntry = ListingEntry(title: string, urlSlug: string, date: string,
                                       category: string, url: string)

  /** The address of a published page: `/posts/<slug>.html`. */
  function PostUrl(slug: string): (url: string)
    ensures |url| == |slug| + 12
  {
    "/posts/" + slug + ".html"
  }

  /** The slug is read back from the address between `/posts/` and `.html`. */
  lemma PostUrlSlug(slug: string)
    ensures PostUrl(slug)[7..|slug| + 7] == slug
    ensures PostUrl(slug)[..7] == "/posts/" && PostUrl(slug)[|slug| + 7..] == ".html"
  {
  }

  /** Two slugs with the same address are the same slug. */
  lemma PostUrlInjective(a: string, b: string)
    requires PostUrl(a) == PostUrl(b)
    ensures a == b
  {
    PostUrlSlug(a);
    PostUrlSlug(b);
  }

  /** The summary of a newly published post, with its address derived from the slug. */
  function NewEntry(title: string, slug: string, date: string, category: string): ListingEntry {
    ListingEntry(title, slug, date, category, PostUrl(slug))
  }

  /** Entries whose address is the one derived from their slug, as every new entry's is. */
  predicate WellAddressed(listing: seq<ListingEntry>) {
    forall i :: 0 <= i < |listing| ==> listing[i].url == PostUrl(listing[i].urlSlug)
  }

  /** Putting a new summary in front keeps every address derived from its slug. */
  lemma PrependWellAddressed(e: ListingEntry, listing: seq<ListingEntry>)
    requires e.url == PostUrl(e.urlSlug) && WellAddressed(listing)
    ensures WellAddressed([e] + listing)
  {
    forall i | 0 <= i < |[e] + listing|
      ensures ([e] + listing)[i].url == PostUrl(([e] + listing)[i].urlSlug)
    {
      if i > 0 {
        assert ([e] + listing)[i] == listing[i - 1];
      }
    }
  }
}
