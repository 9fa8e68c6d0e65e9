/**
 * The queue operations of the three queue handlers: the record `schedule-post.js` appends, the
 * lookups by slug and by id, the removal `delete-scheduled-post.js` makes, and the order
 * `get-scheduled-posts.js` lists the queue in.
 */
module Queue {
  import opened Wrappers
  import opened Posts

  // ---------------------------------------------------------------- scheduling

  /** The `options` of a request; absent strings are `""`, absent lists `[]`. */
  datatype PostOptions = PostOptions(
    urlSlug: string,
    category: string,
    tags: seq<string>,
    metaDescription: string,
    seoKeywords: seq<string>,
    sendNewsletter: bool)

  /** The body of a scheduling request; `options` may be missing altogether. */
  datatype ScheduleRequest = ScheduleRequest(
    title: string,
    content: string,
    options: Option<PostOptions>,
    scheduledFor: DateField)

  /**
   * The record a request becomes, with `id` the text of the clock in milliseconds and
   * `createdAt` the time of the request, both given.
   */
  function NewRecord(title: string, content: string, o: PostOptions, scheduledFor: DateField,
                     id: string, createdAt: string): (p: ScheduledPost)
    requires title != ""
    ensures p.id == id && p.title == title && p.content == content
    ensures p.urlSlug == o.urlSlug && p.scheduledFor == scheduledFor && p.createdAt == createdAt
    ensures p.tags == o.tags && p.seoKeywords == o.seoKeywords && p.sendNewsletter == o.sendNewsletter
    ensures p.category != "" && (o.category != "" ==> p.category == o.category)
    ensures p.metaDescription != "" && (o.metaDescription != "" ==> p.metaDescription == o.metaDescription)
  {
    ScheduledPost(id, title, content, o.urlSlug,
                  if o.category == "" then "general" else o.category,
                  o.tags,
                  if o.metaDescription == "" then title else o.metaDescription,
                  o.seoKeywords, scheduledFor, o.sendNewsletter, createdAt)
  }

  /** The defaults a request without them gets: `general`, and the title as description. */
  lemma RecordDefaults(title: string, content: string, o: PostOptions, scheduledFor: DateField,
                       id: string, createdAt: string)
    requires title != "" && o.category == "" && o.metaDescription == ""
    ensures NewRecord(title, content, o, scheduledFor, id, createdAt).category == "general"
    ensures NewRecord(title, content, o, scheduledFor, id, createdAt).metaDescription == title
  {
  }

  /** `scheduledPosts.find(post => post.urlSlug === slug)`. */
  function FindBySlug(q: seq<ScheduledPost>, slug: string): (r: Option<ScheduledPost>)
    ensures r.None? <==> forall i :: 0 <= i < |q| ==> q[i].urlSlug != slug
    ensures r.Some? ==> r.value in q && r.value.urlSlug == slug
    ensures r.Some? ==> exists i :: 0 <= i < |q| && q[i] == r.value &&
                                    (forall j :: 0 <= j < i ==> q[j].urlSlug != slug)
  {
    if |q| == 0 then None
    else if q[0].urlSlug == slug then Some(q[0])
    else
      var r := FindBySlug(q[1..], slug);
      assert forall i :: 1 <= i < |q| ==> q[i] == q[1..][i - 1];
      r
  }

  /** Every slug in a queue grown by scheduling alone is taken once. */
  predicate SlugsDistinct(q: seq<ScheduledPost>) {
    forall i, j :: 0 <= i < j < |q| ==> q[i].urlSlug != q[j].urlSlug
  }

  /** Appending a post whose slug is not yet queued keeps the slugs distinct. */
  lemma AppendKeepsSlugsDistinct(q: seq<ScheduledPost>, p: ScheduledPost)
    requires FindBySlug(q, p.urlSlug).None?
    ensures SlugsDistinct(q) ==> SlugsDistinct(q + [p])
  {
    if SlugsDistinct(q) {
      forall i, j | 0 <= i < j < |q + [p]|
        ensures (q + [p])[i].urlSlug != (q + [p])[j].urlSlug
      {
        assert (q + [p])[i] == q[i];
      }
    }
  }

  // ---------------------------------------------------------------- deletion

  /** `scheduledPosts.findIndex(post => post.id === id)`, with `-1` as `None`. */
  function FindIndexById(q: seq<ScheduledPost>, id: string): (r: Option<nat>)
    ensures r.None? <==> forall i :: 0 <= i < |q| ==> q[i].id != id
    ensures r.Some? ==> r.value < |q| && q[r.value].id == id
    ensures r.Some? ==> forall j :: 0 <= j < r.value ==> q[j].id != id
  {
    if |q| == 0 then None
    else if q[0].id == id then Some(0)
    else
      match FindIndexById(q[1..], id)
      case None =>
        assert forall i :: 1 <= i < |q| ==> q[i] == q[1..][i - 1];
        None
      case Some(k) => Some(k + 1)
  }

  /** `scheduledPosts.splice(i, 1)`: the post at `i` goes, the others close up in order. */
  function RemoveAt(q: seq<ScheduledPost>, i: nat): (r: seq<ScheduledPost>)
    requires i < |q|
    ensures |r| == |q| - 1
    ensures forall j :: 0 <= j < i ==> r[j] == q[j]
    ensures forall j :: i <= j < |r| ==> r[j] == q[j + 1]
  {
    q[..i] + q[i + 1..]
  }

  /** Removing a post takes exactly that one post out of the queue. */
  lemma RemoveAtMultiset(q: seq<ScheduledPost>, i: nat)
    requires i < |q|
    ensures multiset(RemoveAt(q, i)) + multiset{q[i]} == multiset(q)
  {
    assert q == q[..i] + [q[i]] + q[i + 1..];
  }

  /** After the first post with an id is removed, the first post left with it was later. */
  lemma RemoveFirstById(q: seq<ScheduledPost>, id: string, i: nat)
    requires FindIndexById(q, id) == Some(i)
    ensures FindIndexById(RemoveAt(q, i), id).Some? ==> FindIndexById(RemoveAt(q, i), id).value >= i
    ensures (forall j :: i < j < |q| ==> q[j].id != id) ==> FindIndexById(RemoveAt(q, i), id).None?
  {
  }

  // ---------------------------------------------------------------- listing order

  /**
   * `new Date(a) - new Date(b) > 0`: the comparator puts `b` first. A difference with an invalid
   * date is `NaN`, which the sort takes as `0`, so such posts are never moved past each other.
   */
  predicate Later(a: DateField, b: DateField) {
    a.Time? && b.Time? && a.ms > b.ms
  }

  /** Put `x` after the posts of the ordered `t` that are not later than it. */
  function Insert(t: seq<ScheduledPost>, x: ScheduledPost): (r: seq<ScheduledPost>)
    ensures |r| == |t| + 1
    decreases |t|
  {
    if |t| == 0 || !Later(t[|t| - 1].scheduledFor, x.scheduledFor) then t + [x]
    else Insert(t[..|t| - 1], x) + [t[|t| - 1]]
  }

  /** The stable sort by scheduled time: the posts inserted one after the other. */
  function SortByTime(s: seq<ScheduledPost>): (r: seq<ScheduledPost>)
    ensures |r| == |s|
    decreases |s|
  {
    if |s| == 0 then [] else Insert(SortByTime(s[..|s| - 1]), s[|s| - 1])
  }

  /** Every post's date parses. */
  predicate AllTimed(s: seq<ScheduledPost>) {
    forall i :: 0 <= i < |s| ==> s[i].scheduledFor.Time?
  }

  /** No post stands after a post that is later than it. */
  predicate Sorted(s: seq<ScheduledPost>) {
    forall i, j :: 0 <= i < j < |s| ==> !Later(s[i].scheduledFor, s[j].scheduledFor)
  }

  /** The posts of one scheduled time, in order. */
  function AtTime(s: seq<ScheduledPost>, d: DateField): (r: seq<ScheduledPost>)
    ensures |r| <= |s|
    decreases |s|
  {
    if |s| == 0 then []
    else AtTime(s[..|s| - 1], d) + (if s[|s| - 1].scheduledFor == d then [s[|s| - 1]] else [])
  }

  lemma {:induction false} InsertMultiset(t: seq<ScheduledPost>, x: ScheduledPost)
    ensures multiset(Insert(t, x)) == multiset(t) + multiset{x}
    decreases |t|
  {
    if |t| > 0 && Later(t[|t| - 1].scheduledFor, x.scheduledFor) {
      var n := |t| - 1;
      InsertMultiset(t[..n], x);
      assert t == t[..n] + [t[n]];
    }
  }

  /** The listing holds the stored posts, each as often as stored. */
  lemma {:induction false} SortPermutes(s: seq<ScheduledPost>)
    ensures multiset(SortByTime(s)) == multiset(s)
    decreases |s|
  {
    if |s| > 0 {
      var n := |s| - 1;
      SortPermutes(s[..n]);
      InsertMultiset(SortByTime(s[..n]), s[n]);
      assert s == s[..n] + [s[n]];
    }
  }

  lemma {:induction false} InsertSorted(t: seq<ScheduledPost>, x: ScheduledPost)
    requires Sorted(t) && AllTimed(t) && x.scheduledFor.Time?
    ensures Sorted(Insert(t, x))
    decreases |t|
  {
    var r := Insert(t, x);
    if |t| == 0 {
    } else if !Later(t[|t| - 1].scheduledFor, x.scheduledFor) {
      assert r == t + [x];
      forall i, j | 0 <= i < j < |r|
        ensures !Later(r[i].scheduledFor, r[j].scheduledFor)
      {
        if j == |t| {
          assert r[i] == t[i] && r[j] == x;
          assert !Later(t[i].scheduledFor, t[|t| - 1].scheduledFor);
        }
      }
    } else {
      var n := |t| - 1;
      var u := Insert(t[..n], x);
      InsertSorted(t[..n], x);
      InsertMultiset(t[..n], x);
      assert r == u + [t[n]];
      forall i, j | 0 <= i < j < |r|
        ensures !Later(r[i].scheduledFor, r[j].scheduledFor)
      {
        if j == n + 1 {
          assert r[i] == u[i];
          assert u[i] in multiset(t[..n]) + multiset{x};
          if u[i] != x {
            var k :| 0 <= k < n && t[..n][k] == u[i];
            assert !Later(t[k].scheduledFor, t[n].scheduledFor);
          }
        }
      }
    }
  }

  /** With every date parsed, the listing is in ascending order of scheduled time. */
  lemma {:induction false} SortSorts(s: seq<ScheduledPost>)
    requires AllTimed(s)
    ensures Sorted(SortByTime(s))
    decreases |s|
  {
    if |s| > 0 {
      var n := |s| - 1;
      assert AllTimed(s[..n]);
      SortSorts(s[..n]);
      SortTimed(s[..n]);
      InsertSorted(SortByTime(s[..n]), s[n]);
    }
  }

  lemma {:induction false} AtTimeConcat(a: seq<ScheduledPost>, b: seq<ScheduledPost>, d: DateField)
    ensures AtTime(a + b, d) == AtTime(a, d) + AtTime(b, d)
    decreases |b|
  {
    if |b| == 0 {
      assert a + b == a;
    } else {
      var n := |b| - 1;
      AtTimeConcat(a, b[..n], d);
      var ab := a + b;
      assert ab[..|ab| - 1] == a + b[..n];
      assert ab[|ab| - 1] == b[n];
    }
  }

  lemma {:induction false} InsertAtTime(t: seq<ScheduledPost>, x: ScheduledPost, d: DateField)
    requires AllTimed(t) && x.scheduledFor.Time?
    ensures AtTime(Insert(t, x), d) == AtTime(t, d) + AtTime([x], d)
    decreases |t|
  {
    if |t| == 0 || !Later(t[|t| - 1].scheduledFor, x.scheduledFor) {
      AtTimeConcat(t, [x], d);
    } else {
      var n := |t| - 1;
      assert AllTimed(t[..n]);
      InsertAtTime(t[..n], x, d);
      AtTimeConcat(Insert(t[..n], x), [t[n]], d);
      AtTimeLast(t, d);
    }
  }

  /**
   * The sort is stable: with every date parsed, the posts of any one scheduled time keep the
   * order they are stored in.
   */
  lemma {:induction false} SortStable(s: seq<ScheduledPost>, d: DateField)
    requires AllTimed(s)
    ensures AtTime(SortByTime(s), d) == AtTime(s, d)
    decreases |s|
  {
    if |s| > 0 {
      var n := |s| - 1;
      assert AllTimed(s[..n]);
      SortStable(s[..n], d);
      SortTimed(s[..n]);
      InsertAtTime(SortByTime(s[..n]), s[n], d);
      AtTimeLast(s, d);
    }
  }

  /** Sorting keeps every date parsed. */
  lemma SortTimed(s: seq<ScheduledPost>)
    requires AllTimed(s)
    ensures AllTimed(SortByTime(s))
  {
    SortPermutes(s);
    var t := SortByTime(s);
    forall i | 0 <= i < |t|
      ensures t[i].scheduledFor.Time?
    {
      assert t[i] in multiset(s);
    }
  }

  /** The posts of one time in `s` are those before its last post, then maybe that post. */
  lemma AtTimeLast(s: seq<ScheduledPost>, d: DateField)
    requires |s| > 0
    ensures AtTime(s, d) == AtTime(s[..|s| - 1], d) + AtTime([s[|s| - 1]], d)
  {
    assert [s[|s| - 1]][..0] == [];
  }

  /** A queue already in order is listed as it is stored. */
  lemma {:induction false} SortKeepsSorted(s: seq<ScheduledPost>)
    requires Sorted(s)
    ensures SortByTime(s) == s
    decreases |s|
  {
    if |s| > 0 {
      var n := |s| - 1;
      assert Sorted(s[..n]);
      SortKeepsSorted(s[..n]);
      assert s == s[..n] + [s[n]];
      if n > 0 {
        assert !Later(s[n - 1].scheduledFor, s[n].scheduledFor);
        assert s[..n][n - 1] == s[n - 1];
      }
    }
  }

  /** One step of the insertion: moving `x` left past a later post. */
  lemma InsertStep(t: seq<ScheduledPost>, x: ScheduledPost, j: nat)
    requires 0 < j <= |t| && Later(t[j - 1].scheduledFor, x.scheduledFor)
    ensures Insert(t[..j], x) + t[j..] == Insert(t[..j - 1], x) + t[j - 1..]
  {
    assert t[..j][..j - 1] == t[..j - 1] && t[..j][j - 1] == t[j - 1];
    assert t[j - 1..] == [t[j - 1]] + t[j..];
  }

  /** Move the post at `i` left into the ordered posts before it. */
  method InsertInPlace(a: array<ScheduledPost>, i: nat)
    requires i < a.Length
    modifies a
    ensures a[..i + 1] == Insert(old(a[..i]), old(a[i]))
    ensures a[i + 1..] == old(a[i + 1..])
  {
    ghost var t := a[..i];
    var x := a[i];
    var j := i;
    assert t[..i] == t && t[i..] == [];
    while j > 0 && Later(a[j - 1].scheduledFor, x.scheduledFor)
      invariant 0 <= j <= i
      invariant forall k :: 0 <= k < j ==> a[k] == t[k]
      invariant forall k :: j < k <= i ==> a[k] == t[k - 1]
      invariant forall k :: i < k < a.Length ==> a[k] == old(a[k])
      invariant Insert(t, x) == Insert(t[..j], x) + t[j..]
    {
      InsertStep(t, x, j);
      a[j] := a[j - 1];
      j := j - 1;
    }
    a[j] := x;
    InsertStop(t, x, j);
    ghost var r := t[..j] + [x] + t[j..];
    forall k | 0 <= k <= i
      ensures a[k] == r[k]
    {
      InsertedAt(t, x, j, k);
    }
    assert a[..i + 1] == r;
  }

  lemma InsertedAt<T>(t: seq<T>, x: T, j: nat, k: nat)
    requires j <= |t| && k <= |t|
    ensures |t[..j] + [x] + t[j..]| == |t| + 1
    ensures (t[..j] + [x] + t[j..])[k] == if k < j then t[k] else if k == j then x else t[k - 1]
  {
  }

  /** Where the insertion stops, `x` goes right after the posts before it. */
  lemma InsertStop(t: seq<ScheduledPost>, x: ScheduledPost, j: nat)
    requires j <= |t| && (j == 0 || !Later(t[j - 1].scheduledFor, x.scheduledFor))
    ensures Insert(t[..j], x) == t[..j] + [x]
  {
  }

  /**
   * `scheduledPosts.sort(...)` on the array read from the file, as the insertion the stable sort
   * describes: each post moves left past the posts later than it.
   */
  method SortInPlace(a: array<ScheduledPost>)
    modifies a
    ensures a[..] == SortByTime(old(a[..]))
  {
    ghost var s := a[..];
    for i := 0 to a.Length
      invariant a[..i] == SortByTime(s[..i])
      invariant a[i..] == s[i..]
    {
      assert a[i] == s[i];
      InsertInPlace(a, i);
      assert s[..i + 1][..i] == s[..i];
    }
    assert s[..a.Length] == s;
  }
}
