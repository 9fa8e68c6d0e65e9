/**
 * The scheduled publisher's bookkeeping: the queue is split into the posts that are due and the
 * rest, each due post is attempted in turn, and the queue written back is the posts that were
 * not due followed by the due posts whose publication failed.
 */
module Worker {
  import opened Seqs
  import opened Posts

  /** `postsToPublish`: the queued posts due at `now`, in queue order. */
  function Due(q: seq<ScheduledPost>, now: int): (d: seq<ScheduledPost>)
    ensures |d| <= |q|
    decreases |q|
  {
    if |q| == 0 then []
    else Due(q[..|q| - 1], now) + (if DueAt(q[|q| - 1].scheduledFor, now) then [q[|q| - 1]] else [])
  }

  /** The posts that stay scheduled: not due at `now`, in queue order. */
  function NotDue(q: seq<ScheduledPost>, now: int): (r: seq<ScheduledPost>)
    ensures |r| <= |q|
    decreases |q|
  {
    if |q| == 0 then []
    else NotDue(q[..|q| - 1], now) + (if DueAt(q[|q| - 1].scheduledFor, now) then [] else [q[|q| - 1]])
  }

  /** The loop over the queue that fills `postsToPublish` and `remainingPosts`. */
  method Partition(q: seq<ScheduledPost>, now: int) returns (due: seq<ScheduledPost>, rest: seq<ScheduledPost>)
    ensures due == Due(q, now) && rest == NotDue(q, now)
  {
    due, rest := [], [];
    for i := 0 to |q|
      invariant due == Due(q[..i], now) && rest == NotDue(q[..i], now)
    {
      assert q[..i + 1][..i] == q[..i];
      if DueAt(q[i].scheduledFor, now) {
        due := due + [q[i]];
      } else {
        rest := rest + [q[i]];
      }
    }
    assert q[..|q|] == q;
  }

  /** Every queued post lands in exactly one of the two parts: together they are the queue. */
  lemma {:induction false} PartitionConserves(q: seq<ScheduledPost>, now: int)
    ensures multiset(Due(q, now)) + multiset(NotDue(q, now)) == multiset(q)
    ensures |Due(q, now)| + |NotDue(q, now)| == |q|
    decreases |q|
  {
    if |q| > 0 {
      var n := |q| - 1;
      var d, r := Due(q[..n], now), NotDue(q[..n], now);
      PartitionConserves(q[..n], now);
      SnocParts(q);
      SplitStep(d, r, q[..n], q[n]);
      if DueAt(q[n].scheduledFor, now) {
        assert Due(q, now) == d + [q[n]] && NotDue(q, now) == r;
      } else {
        assert Due(q, now) == d && NotDue(q, now) == r + [q[n]];
      }
    }
  }

  /** A post is in the due part exactly when it is queued and due. */
  lemma {:induction false} DueMembers(q: seq<ScheduledPost>, now: int, p: ScheduledPost)
    ensures p in Due(q, now) <==> p in q && DueAt(p.scheduledFor, now)
    ensures p in NotDue(q, now) <==> p in q && !DueAt(p.scheduledFor, now)
    decreases |q|
  {
    if |q| > 0 {
      var n := |q| - 1;
      DueMembers(q[..n], now, p);
      assert q == q[..n] + [q[n]];
    }
  }

  /** Both parts keep queue order: the parts of two queues side by side are side by side. */
  lemma {:induction false} PartitionConcat(a: seq<ScheduledPost>, b: seq<ScheduledPost>, now: int)
    ensures Due(a + b, now) == Due(a, now) + Due(b, now)
    ensures NotDue(a + b, now) == NotDue(a, now) + NotDue(b, now)
    decreases |b|
  {
    if |b| == 0 {
      assert a + b == a;
    } else {
      var n := |b| - 1;
      var x := b[n];
      var c := b[..n];
      PartitionConcat(a, c, now);
      SnocParts(b);
      SnocAssoc(a, c, x);
      assert a + b == (a + c) + [x];
      PartitionSnoc(a + c, x, now);
      PartitionSnoc(c, x, now);
      var dx := if DueAt(x.scheduledFor, now) then [x] else [];
      var rx := if DueAt(x.scheduledFor, now) then [] else [x];
      Assoc3(Due(a, now), Due(c, now), dx);
      Assoc3(NotDue(a, now), NotDue(c, now), rx);
    }
  }

  /** The parts of a queue with one more post at its end. */
  lemma PartitionSnoc(q: seq<ScheduledPost>, x: ScheduledPost, now: int)
    ensures Due(q + [x], now) == Due(q, now) + (if DueAt(x.scheduledFor, now) then [x] else [])
    ensures NotDue(q + [x], now) == NotDue(q, now) + (if DueAt(x.scheduledFor, now) then [] else [x])
  {
    assert (q + [x])[..|q|] == q;
  }

  /** When nothing is due, every post stays and nothing is published. */
  lemma {:induction false} NothingDue(q: seq<ScheduledPost>, now: int)
    requires forall i :: 0 <= i < |q| ==> !DueAt(q[i].scheduledFor, now)
    ensures Due(q, now) == [] && NotDue(q, now) == q
    decreases |q|
  {
    if |q| > 0 {
      var n := |q| - 1;
      NothingDue(q[..n], now);
      assert q == q[..n] + [q[n]];
    }
  }

  // ---------------------------------------------------------------- retries

  /** The due posts whose publication failed (`ok[i]` false), in the order they were tried. */
  function Failed(due: seq<ScheduledPost>, ok: seq<bool>): (f: seq<ScheduledPost>)
    requires |ok| == |due|
    ensures |f| <= |due|
    decreases |due|
  {
    if |due| == 0 then []
    else
      var n := |due| - 1;
      Failed(due[..n], ok[..n]) + (if ok[n] then [] else [due[n]])
  }

  /** The due posts that were published, in the order they were tried. */
  function Published(due: seq<ScheduledPost>, ok: seq<bool>): (f: seq<ScheduledPost>)
    requires |ok| == |due|
    ensures |f| <= |due|
    decreases |due|
  {
    if |due| == 0 then []
    else
      var n := |due| - 1;
      Published(due[..n], ok[..n]) + (if ok[n] then [due[n]] else [])
  }

  /** The queue written back: what was not due, then what failed. */
  function NextQueue(q: seq<ScheduledPost>, now: int, ok: seq<bool>): seq<ScheduledPost>
    requires |ok| == |Due(q, now)|
  {
    NotDue(q, now) + Failed(Due(q, now), ok)
  }

  /** Every due post is either published or failed, never both, never neither. */
  lemma {:induction false} AttemptsConserve(due: seq<ScheduledPost>, ok: seq<bool>)
    requires |ok| == |due|
    ensures multiset(Failed(due, ok)) + multiset(Published(due, ok)) == multiset(due)
    decreases |due|
  {
    if |due| > 0 {
      var n := |due| - 1;
      var f, p := Failed(due[..n], ok[..n]), Published(due[..n], ok[..n]);
      AttemptsConserve(due[..n], ok[..n]);
      SnocParts(due);
      SplitStep(f, p, due[..n], due[n]);
      if ok[n] {
        assert Failed(due, ok) == f;
        assert Published(due, ok) == p + [due[n]];
      } else {
        assert Failed(due, ok) == f + [due[n]];
        assert Published(due, ok) == p;
      }
    }
  }

  /** When every attempt fails all due posts come back, in order; when all succeed none do. */
  lemma {:induction false} AllOrNothing(due: seq<ScheduledPost>, ok: seq<bool>)
    requires |ok| == |due|
    ensures (forall i :: 0 <= i < |ok| ==> !ok[i]) ==> Failed(due, ok) == due
    ensures (forall i :: 0 <= i < |ok| ==> ok[i]) ==> Failed(due, ok) == []
    decreases |due|
  {
    if |due| > 0 {
      var n := |due| - 1;
      AllOrNothing(due[..n], ok[..n]);
      assert due == due[..n] + [due[n]];
    }
  }

  /**
   * Nothing is lost and nothing is duplicated: the written queue and the published posts are,
   * together, exactly the queue that was read.
   */
  lemma NextQueueConserves(q: seq<ScheduledPost>, now: int, ok: seq<bool>)
    requires |ok| == |Due(q, now)|
    ensures multiset(NextQueue(q, now, ok)) + multiset(Published(Due(q, now), ok)) == multiset(q)
    ensures |NextQueue(q, now, ok)| + |Published(Due(q, now), ok)| == |q|
  {
    PartitionConserves(q, now);
    AttemptsConserve(Due(q, now), ok);
  }

  /** A post queued once and published is not written back. */
  lemma PublishedLeaves(q: seq<ScheduledPost>, now: int, ok: seq<bool>, p: ScheduledPost)
    requires |ok| == |Due(q, now)|
    requires multiset(q)[p] == 1 && p in Published(Due(q, now), ok)
    ensures p !in NextQueue(q, now, ok)
  {
    NextQueueConserves(q, now, ok);
  }

  /** No post appears in the written queue more often than in the queue that was read. */
  lemma NoPostDuplicated(q: seq<ScheduledPost>, now: int, ok: seq<bool>, p: ScheduledPost)
    requires |ok| == |Due(q, now)|
    ensures multiset(NextQueue(q, now, ok))[p] <= multiset(q)[p]
  {
    NextQueueConserves(q, now, ok);
  }

  /**
   * The counts the worker reports: `published` is the number of due posts, so it counts the
   * failed attempts too, and `remaining` is what was not due plus what failed.
   */
  lemma ReportedCounts(q: seq<ScheduledPost>, now: int, ok: seq<bool>)
    requires |ok| == |Due(q, now)|
    ensures |Due(q, now)| == |Published(Due(q, now), ok)| + |Failed(Due(q, now), ok)|
    ensures |NextQueue(q, now, ok)| == |NotDue(q, now)| + |Failed(Due(q, now), ok)|
    ensures |Published(Due(q, now), ok)| == |Due(q, now)| <==> Failed(Due(q, now), ok) == []
  {
    AttemptsConserve(Due(q, now), ok);
    assert |multiset(Due(q, now))|
      == |multiset(Failed(Due(q, now), ok))| + |multiset(Published(Due(q, now), ok))|;
  }
}
