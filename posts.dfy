/**
 * A post waiting in the queue `scheduled-posts.json`, as `schedule-post.js` records it and the
 * scheduled publisher reads it back.
 */
module Posts {
  /**
   * `new Date(scheduledFor)` as the handlers compare it: no value at all, a value that does not
   * parse (an invalid date, whose time is `NaN`), or a time in milliseconds.
   */
  datatype DateField = Absent | Invalid | Time(ms: int)

  /** `new Date(d) <= now`: a missing or unparseable date compares false. */
  predicate DueAt(d: DateField, now: int) {
    d.Time? && d.ms <= now
  }

  /**
   * One queued post. Absent optional strings are `""` and absent lists are `[]`, which is how
   * every `||` default of the handlers sees them.
   */
  datatype ScheduledPost = ScheduledPost(
    id: string,
    title: string,
    content: string,
    urlSlug: string,
    category: string,
    tags: seq<string>,
    metaDescription: string,
    seoKeywords: seq<string>,
    scheduledFor: DateField,
    sendNewsletter: bool,
    createdAt: string)

  /** Only a time compares as due, whatever `now` is. */
  lemma DueNeedsTime(d: DateField, now: int)
    ensures !d.Time? ==> !DueAt(d, now)
    ensures d.Time? ==> (DueAt(d, now) <==> d.ms <= now)
  {
  }
}
