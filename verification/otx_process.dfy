/**
 * `OtxProcess.Process`: one write-and-publish unit over the document
 * repository. The repository's answers are inputs (`Answers`); every call the
 * unit makes to the repository or the publisher is recorded as an `Event`, so
 * the order of calls and what each one carried can be stated.
 */
module OtxProcess {
  import opened Feed

  /** The two document kinds, each with its own index and topic. */
  datatype Kind = PostKind | IocKind

  /** The work handed to one unit; `Subscribed` fills only one of the two lists. */
  datatype Job = Job(postList: seq<Post>, iocList: seq<Indicator>)

  datatype Batch = PostBatch(posts: seq<Post>) | IocBatch(iocs: seq<Indicator>) {
    function KindOf(): Kind {
      if PostBatch? then PostKind else IocKind
    }
  }

  /** Calls made to the repository and the publisher, in order. */
  datatype Event =
    | ExistsIndex(kind: Kind)
    | CreateIndex(kind: Kind)
    | ExistsDoc(batch: Batch)
    | Insert(batch: Batch)
    | Publish(topic: string, batch: Batch)

  /** The repository's answer to each question `Process` can ask it once. */
  datatype Answers = Answers(
    postIndexExists: bool,
    iocIndexExists: bool,
    postBatchExists: bool,
    postInsertOk: bool,
    iocBatchExists: bool,
    iocInsertOk: bool)

  function Topic(k: Kind): string {
    match k
    case PostKind => "post"
    case IocKind => "ioc"
  }

  function JobBatch(job: Job, k: Kind): Batch {
    match k
    case PostKind => PostBatch(job.postList)
    case IocKind => IocBatch(job.iocList)
  }

  function IndexExists(a: Answers, k: Kind): bool {
    match k
    case PostKind => a.postIndexExists
    case IocKind => a.iocIndexExists
  }

  function BatchExists(a: Answers, k: Kind): bool {
    match k
    case PostKind => a.postBatchExists
    case IocKind => a.iocBatchExists
  }

  function InsertOk(a: Answers, k: Kind): bool {
    match k
    case PostKind => a.postInsertOk
    case IocKind => a.iocInsertOk
  }

  predicate IsPublishOf(e: Event, k: Kind) {
    e.Publish? && e.batch.KindOf() == k
  }

  predicate IsIndexEvent(e: Event) {
    e.ExistsIndex? || e.CreateIndex?
  }

  predicate IsDocEvent(e: Event, k: Kind) {
    (e.ExistsDoc? || e.Insert? || e.Publish?) && e.batch.KindOf() == k
  }

  /** The post batch was judged new and then stored successfully. */
  predicate PostWritten(a: Answers) {
    !a.postBatchExists && a.postInsertOk
  }

  /** The post path ended without returning early. */
  predicate PostPathCompleted(a: Answers) {
    a.postBatchExists || a.postInsertOk
  }

  /** Check-then-create of one index. */
  function EnsureIndex(k: Kind, present: bool): seq<Event> {
    [ExistsIndex(k)] + (if present then [] else [CreateIndex(k)])
  }

  /** Existence check, insert and publish of one batch. */
  function WriteBatch(b: Batch, present: bool, insertOk: bool): (w: seq<Event>)
    ensures 1 <= |w| <= 3
    ensures forall p :: 0 <= p < |w| ==> !IsIndexEvent(w[p]) && w[p].batch == b
    ensures forall p :: 0 <= p < |w| && w[p].Publish? ==>
      p > 0 && w[p - 1] == Insert(b) && w[p].topic == Topic(b.KindOf())
  {
    if present then [ExistsDoc(b)]
    else if !insertOk then [ExistsDoc(b), Insert(b)]
    else [ExistsDoc(b), Insert(b), Publish(Topic(b.KindOf()), b)]
  }

  function Process(job: Job, a: Answers): (trace: seq<Event>)
    // an index is created exactly when the repository reports it missing
    ensures forall k :: CreateIndex(k) in trace <==> !IndexExists(a, k)
    // a post publish happens exactly when the batch was new and its insert succeeded
    ensures (exists i :: 0 <= i < |trace| && IsPublishOf(trace[i], PostKind)) <==> PostWritten(a)
  {
    var indexes := EnsureIndex(PostKind, a.postIndexExists) + EnsureIndex(IocKind, a.iocIndexExists);
    var posts := WriteBatch(PostBatch(job.postList), a.postBatchExists, a.postInsertOk);
    var trace := if !PostPathCompleted(a) then indexes + posts
                 else indexes + posts + WriteBatch(IocBatch(job.iocList), a.iocBatchExists, a.iocInsertOk);
    assert PostWritten(a) ==> IsPublishOf(trace[|indexes| + 2], PostKind);
    trace
  }

  /** The index events of a unit, followed by its batch events. */
  lemma ProcessSegments(job: Job, a: Answers)
    ensures var indexes := EnsureIndex(PostKind, a.postIndexExists) + EnsureIndex(IocKind, a.iocIndexExists);
            var posts := WriteBatch(PostBatch(job.postList), a.postBatchExists, a.postInsertOk);
            var iocs := WriteBatch(IocBatch(job.iocList), a.iocBatchExists, a.iocInsertOk);
            && (forall p :: 0 <= p < |indexes| ==> IsIndexEvent(indexes[p]))
            && Process(job, a) == indexes + posts + (if PostPathCompleted(a) then iocs else [])
  {
  }

  /** An ioc publish needs the post path to finish, then a new ioc batch and a successful insert. */
  lemma IocPublishCondition(job: Job, a: Answers)
    ensures (exists i :: 0 <= i < |Process(job, a)| && IsPublishOf(Process(job, a)[i], IocKind))
            <==> PostPathCompleted(a) && !a.iocBatchExists && a.iocInsertOk
  {
    var trace := Process(job, a);
    if PostPathCompleted(a) && !a.iocBatchExists && a.iocInsertOk {
      assert IsPublishOf(trace[|trace| - 1], IocKind);
    }
  }

  /**
   * A publish carries exactly the job's batch of its kind, on that kind's
   * topic, and comes right after an insert of that same batch.
   */
  lemma PublishFollowsInsert(job: Job, a: Answers, i: int)
    requires 0 <= i < |Process(job, a)| && Process(job, a)[i].Publish?
    ensures Process(job, a)[i].batch == JobBatch(job, Process(job, a)[i].batch.KindOf())
    ensures Process(job, a)[i].topic == Topic(Process(job, a)[i].batch.KindOf())
    ensures i > 0 && Process(job, a)[i - 1] == Insert(Process(job, a)[i].batch)
  {
    ProcessSegments(job, a);
    var indexes := EnsureIndex(PostKind, a.postIndexExists) + EnsureIndex(IocKind, a.iocIndexExists);
    var posts := WriteBatch(PostBatch(job.postList), a.postBatchExists, a.postInsertOk);
    var iocs := WriteBatch(IocBatch(job.iocList), a.iocBatchExists, a.iocInsertOk);
    var trace := Process(job, a);
    assert i >= |indexes|;
    if i < |indexes| + |posts| {
      assert trace[i] == posts[i - |indexes|];
      assert trace[i - 1] == posts[i - |indexes| - 1];
    } else {
      assert PostPathCompleted(a) && trace == (indexes + posts) + iocs;
      assert trace[i] == iocs[i - |indexes| - |posts|];
      assert trace[i - 1] == iocs[i - |indexes| - |posts| - 1];
    }
  }

  /** Both indexes are ensured before any batch is looked at. */
  lemma IndexesBeforeBatches(job: Job, a: Answers, i: int, j: int)
    requires 0 <= i < |Process(job, a)| && 0 <= j < |Process(job, a)|
    requires IsIndexEvent(Process(job, a)[i]) && !IsIndexEvent(Process(job, a)[j])
    ensures i < j
  {
    ProcessSegments(job, a);
    var indexes := EnsureIndex(PostKind, a.postIndexExists) + EnsureIndex(IocKind, a.iocIndexExists);
    var posts := WriteBatch(PostBatch(job.postList), a.postBatchExists, a.postInsertOk);
    var iocs := WriteBatch(IocBatch(job.iocList), a.iocBatchExists, a.iocInsertOk);
    var rest := posts + (if PostPathCompleted(a) then iocs else []);
    assert Process(job, a) == indexes + rest;
    assert forall p :: 0 <= p < |rest| ==> !IsIndexEvent(rest[p]);
  }

  /** A failed post insert ends the unit: nothing about iocs is asked, written or published. */
  lemma FailedPostInsertStops(job: Job, a: Answers)
    requires !a.postBatchExists && !a.postInsertOk
    ensures Process(job, a)[|Process(job, a)| - 1] == Insert(PostBatch(job.postList))
    ensures forall i :: 0 <= i < |Process(job, a)| ==> !IsDocEvent(Process(job, a)[i], IocKind)
  {
  }

  /** Number of publish events of kind `k` in a trace. */
  function PublishCount(trace: seq<Event>, k: Kind): nat {
    if |trace| == 0 then 0
    else PublishCount(trace[..|trace| - 1], k) + (if IsPublishOf(trace[|trace| - 1], k) then 1 else 0)
  }

  lemma {:induction false} PublishCountAppend(s: seq<Event>, t: seq<Event>, k: Kind)
    ensures PublishCount(s + t, k) == PublishCount(s, k) + PublishCount(t, k)
  {
    if |t| == 0 {
      assert s + t == s;
    } else {
      assert (s + t)[..|s + t| - 1] == s + t[..|t| - 1];
      PublishCountAppend(s, t[..|t| - 1], k);
    }
  }

  lemma {:induction false} PublishCountAbsent(t: seq<Event>, k: Kind)
    requires forall i :: 0 <= i < |t| ==> !IsPublishOf(t[i], k)
    ensures PublishCount(t, k) == 0
  {
    if |t| > 0 {
      PublishCountAbsent(t[..|t| - 1], k);
    }
  }

  lemma PublishCountOne(e: Event, k: Kind)
    ensures PublishCount([e], k) == if IsPublishOf(e, k) then 1 else 0
  {
    assert [e][..0] == [];
  }

  /** Whether a unit run against answers `a` writes (and so publishes) its batch of kind `k`. */
  predicate Writes(a: Answers, k: Kind) {
    match k
    case PostKind => PostWritten(a)
    case IocKind => PostPathCompleted(a) && !a.iocBatchExists && a.iocInsertOk
  }

  lemma {:induction false} WriteBatchPublishCount(b: Batch, present: bool, insertOk: bool, k: Kind)
    ensures PublishCount(WriteBatch(b, present, insertOk), k)
            == if !present && insertOk && b.KindOf() == k then 1 else 0
  {
    var w := WriteBatch(b, present, insertOk);
    if !present && insertOk {
      assert w == w[..2] + [w[2]];
      PublishCountAppend(w[..2], [w[2]], k);
      PublishCountAbsent(w[..2], k);
      PublishCountOne(w[2], k);
    } else {
      PublishCountAbsent(w, k);
    }
  }

  /** A unit publishes a kind once when it writes that kind's batch, and never otherwise. */
  lemma {:induction false} ProcessPublishCount(job: Job, a: Answers, k: Kind)
    ensures PublishCount(Process(job, a), k) == if Writes(a, k) then 1 else 0
  {
    var indexes := EnsureIndex(PostKind, a.postIndexExists) + EnsureIndex(IocKind, a.iocIndexExists);
    var posts := WriteBatch(PostBatch(job.postList), a.postBatchExists, a.postInsertOk);
    var iocs := WriteBatch(IocBatch(job.iocList), a.iocBatchExists, a.iocInsertOk);
    PublishCountAbsent(indexes, k);
    WriteBatchPublishCount(PostBatch(job.postList), a.postBatchExists, a.postInsertOk, k);
    WriteBatchPublishCount(IocBatch(job.iocList), a.iocBatchExists, a.iocInsertOk, k);
    PublishCountAppend(indexes, posts, k);
    if PostPathCompleted(a) {
      PublishCountAppend(indexes + posts, iocs, k);
    }
  }

  lemma {:induction false} PublishCountPositive(t: seq<Event>, k: Kind, m: int)
    requires 0 <= m < |t| && IsPublishOf(t[m], k)
    ensures PublishCount(t, k) >= 1
  {
    var n := |t| - 1;
    if m < n {
      assert t[..n][m] == t[m];
      PublishCountPositive(t[..n], k, m);
    }
  }

  /** A trace with at most one publish of a kind has that publish at one index only. */
  lemma {:induction false} PublishUnique(t: seq<Event>, k: Kind, i: int, j: int)
    requires PublishCount(t, k) <= 1
    requires 0 <= i < |t| && 0 <= j < |t| && IsPublishOf(t[i], k) && IsPublishOf(t[j], k)
    ensures i == j
  {
    var n := |t| - 1;
    if i < n && j < n {
      assert t[..n][i] == t[i] && t[..n][j] == t[j];
      PublishUnique(t[..n], k, i, j);
    } else if i < n || j < n {
      var m := if i < n then i else j;
      assert t[..n][m] == t[m];
      PublishCountPositive(t[..n], k, m);
    }
  }

  /** Each kind is published at most once per unit. */
  lemma AtMostOnePublishPerKind(job: Job, a: Answers, i: int, j: int)
    requires 0 <= i < |Process(job, a)| && 0 <= j < |Process(job, a)|
    requires Process(job, a)[i].Publish? && Process(job, a)[j].Publish?
    requires Process(job, a)[i].batch.KindOf() == Process(job, a)[j].batch.KindOf()
    ensures i == j
  {
    var k := Process(job, a)[i].batch.KindOf();
    ProcessPublishCount(job, a, k);
    PublishUnique(Process(job, a), k, i, j);
  }

  /**
   * Running a unit again after its batch of kind `k` was written, against a
   * repository that now reports that batch present, adds no second publish
   * of that kind.
   */
  lemma RepeatedUnitPublishesOnce(job: Job, first: Answers, second: Answers, k: Kind)
    requires Writes(first, k)
    requires BatchExists(second, k)
    ensures PublishCount(Process(job, first) + Process(job, second), k) == 1
  {
    PublishCountAppend(Process(job, first), Process(job, second), k);
    ProcessPublishCount(job, first, k);
    ProcessPublishCount(job, second, k);
  }

  /**
   * The post-only unit that `Subscribed` submits still runs the ioc path, on an
   * empty list: when the repository accepts that empty batch, an empty ioc
   * batch is published.
   */
  lemma PostUnitPublishesEmptyIocBatch(posts: seq<Post>, a: Answers)
    requires PostPathCompleted(a) && !a.iocBatchExists && a.iocInsertOk
    ensures Publish("ioc", IocBatch([])) in Process(Job(posts, []), a)
  {
    var trace := Process(Job(posts, []), a);
    assert trace[|trace| - 1] == Publish("ioc", IocBatch([]));
  }

  /**
   * The ioc-only unit first runs the post path on an empty list: when the
   * repository refuses that empty insert, the unit's indicators are never
   * inserted or published.
   */
  lemma IocUnitBlockedByEmptyPostInsert(iocs: seq<Indicator>, a: Answers)
    requires !a.postBatchExists && !a.postInsertOk
    ensures Insert(IocBatch(iocs)) !in Process(Job([], iocs), a)
    ensures Publish("ioc", IocBatch(iocs)) !in Process(Job([], iocs), a)
  {
    FailedPostInsertStops(Job([], iocs), a);
  }

  /**
   * The two units of a page are independent: when the post unit's insert
   * fails and the ioc unit writes its indicators, the page publishes exactly
   * once, on the ioc topic, carrying those indicators.
   */
  lemma UnitsIndependent(posts: seq<Post>, iocs: seq<Indicator>, postAnswers: Answers, iocAnswers: Answers)
    requires !postAnswers.postBatchExists && !postAnswers.postInsertOk
    requires Writes(iocAnswers, IocKind)
    ensures PublishCount(Process(Job(posts, []), postAnswers) + Process(Job([], iocs), iocAnswers), PostKind)
            == if iocAnswers.postBatchExists then 0 else 1
    ensures PublishCount(Process(Job(posts, []), postAnswers) + Process(Job([], iocs), iocAnswers), IocKind) == 1
    ensures Publish("ioc", IocBatch(iocs)) in Process(Job([], iocs), iocAnswers)
  {
    var t1 := Process(Job(posts, []), postAnswers);
    var t2 := Process(Job([], iocs), iocAnswers);
    PublishCountAppend(t1, t2, PostKind);
    PublishCountAppend(t1, t2, IocKind);
    ProcessPublishCount(Job(posts, []), postAnswers, PostKind);
    ProcessPublishCount(Job(posts, []), postAnswers, IocKind);
    ProcessPublishCount(Job([], iocs), iocAnswers, PostKind);
    ProcessPublishCount(Job([], iocs), iocAnswers, IocKind);
    assert t2[|t2| - 1] == Publish("ioc", IocBatch(iocs));
  }
}
