/** Catalog to search index: the outbox table, its publishers, the stream and the indexer loop, as one
    state machine whose steps are the single database statements, sends, acknowledgements and writes. */
module Pipeline {
  import opened Text
  import opened Wrappers

  datatype Anime = Anime(
    title: string, titleEnglish: string, titleJapanese: string, image: string, description: string,
    genres: seq<string>, score: real, status: string, kind: string, totalEpisodes: int)

  datatype AnimeDoc = AnimeDoc(
    animeId: string, title: string, titleEnglish: string, titleJapanese: string, image: string, description: string,
    genres: seq<string>, score: real, status: string, kind: string, totalEpisodes: int)

  function Document(id: string, a: Anime): AnimeDoc {
    AnimeDoc(id, a.title, a.titleEnglish, a.titleJapanese, a.image, a.description,
             a.genres, a.score, a.status, a.kind, a.totalEpisodes)
  }

  /** An outbox row; rows are named by their place in the table. */
  datatype Row = Row(anime: string, published: bool)

  /** An open transaction of a publisher: the rows it has locked, how many it has sent, and for how
      many the acknowledgement has come back. */
  datatype Flush = Flush(rows: seq<nat>, sent: nat, confirmed: nat)

  datatype Indexing =
    | Waiting
    | Fetched(m: nat)
    | Read(m: nat, found: Option<Anime>)
    | Written(m: nat)

  /** `stream` holds for every stored message the outbox row it announces; `acking` are the messages whose
      acknowledgement the indexer has sent, `acked` those whose acknowledgement has arrived. */
  datatype State = State(
    catalog: map<string, Anime>,
    outbox: seq<Row>,
    flushes: map<nat, Flush>,
    inFlight: set<nat>,
    stream: seq<nat>,
    acking: set<nat>,
    acked: set<nat>,
    index: map<string, AnimeDoc>,
    indexing: Indexing)

  const START := State(map[], [], map[], {}, [], {}, {}, map[], Waiting)

  datatype Step =
    | CommitAnime(id: string, anime: Anime)
    | CommitEpisodes(id: string)
    | Begin(p: nat, rows: seq<nat>)
    | Send(p: nat)
    | Store(row: nat)
    | Confirm(p: nat)
    | Commit(p: nat)
    | Abandon(p: nat)
    | Fetch(m: nat)
    | ReadCatalog
    | WriteIndex
    | Ack
    | Settle(m: nat)
    | GiveUp

  // ---- the steps ----

  predicate Held(s: State, row: nat) {
    exists p :: p in s.flushes && row in s.flushes[p].rows
  }

  /** A row that the locking query of a publisher may return. */
  predicate Eligible(s: State, row: nat) {
    row < |s.outbox| && !s.outbox[row].published && !Held(s, row)
  }

  predicate Can(s: State, step: Step) {
    match step
    case CommitAnime(id, anime) => true
    case CommitEpisodes(id) => id in s.catalog
    case Begin(p, rows) => p !in s.flushes && rows != [] && forall r :: r in rows ==> Eligible(s, r)
    case Send(p) => p in s.flushes && s.flushes[p].sent < |s.flushes[p].rows|
    case Store(row) => row in s.inFlight
    case Confirm(p) =>
      && p in s.flushes
      && var f := s.flushes[p];
      f.sent == |f.rows| && f.confirmed < |f.rows| && f.rows[f.confirmed] in s.stream
    case Commit(p) => p in s.flushes && s.flushes[p].confirmed == |s.flushes[p].rows|
    case Abandon(p) => p in s.flushes
    case Fetch(m) => s.indexing.Waiting? && m < |s.stream| && m !in s.acked
    case ReadCatalog => s.indexing.Fetched? && Announces(s, s.indexing.m)
    case WriteIndex => s.indexing.Read? && Announces(s, s.indexing.m) && s.indexing.found.Some?
    case Settle(m) => m in s.acking
    case Ack => s.indexing.Written? || (s.indexing.Read? && s.indexing.found.None?)
    case GiveUp => true
  }

  predicate Announces(s: State, m: nat) {
    m < |s.stream| && s.stream[m] < |s.outbox|
  }

  function AnimeOf(s: State, m: nat): string
    requires Announces(s, m)
  {
    s.outbox[s.stream[m]].anime
  }

  function Looked(catalog: map<string, Anime>, id: string): Option<Anime> {
    if id in catalog then Some(catalog[id]) else None
  }

  function Marked(outbox: seq<Row>, rows: seq<nat>): (marked: seq<Row>)
    ensures |marked| == |outbox|
  {
    seq(|outbox|, k requires 0 <= k < |outbox| => if k in rows then Row(outbox[k].anime, true) else outbox[k])
  }

  function Do(s: State, step: Step): State
    requires Can(s, step)
  {
    match step
    case CommitAnime(id, anime) => s.(catalog := s.catalog[id := anime], outbox := s.outbox + [Row(id, false)])
    case CommitEpisodes(id) => s.(outbox := s.outbox + [Row(id, false)])
    case Begin(p, rows) => s.(flushes := s.flushes[p := Flush(rows, 0, 0)])
    case Send(p) =>
      var f := s.flushes[p];
      s.(flushes := s.flushes[p := f.(sent := f.sent + 1)], inFlight := s.inFlight + {f.rows[f.sent]})
    case Store(row) => s.(stream := s.stream + [row])
    case Confirm(p) => s.(flushes := s.flushes[p := s.flushes[p].(confirmed := s.flushes[p].confirmed + 1)])
    case Commit(p) => s.(outbox := Marked(s.outbox, s.flushes[p].rows), flushes := s.flushes - {p})
    case Abandon(p) => s.(flushes := s.flushes - {p})
    case Fetch(m) => s.(indexing := Fetched(m))
    case ReadCatalog => s.(indexing := Read(s.indexing.m, Looked(s.catalog, AnimeOf(s, s.indexing.m))))
    case WriteIndex =>
      var a := AnimeOf(s, s.indexing.m);
      s.(index := s.index[a := Document(a, s.indexing.found.value)], indexing := Written(s.indexing.m))
    case Ack => s.(acking := s.acking + {s.indexing.m}, indexing := Waiting)
    case Settle(m) => s.(acked := s.acked + {m})
    case GiveUp => s.(indexing := Waiting)
  }

  /** The state some steps lead to; None when one of them is not possible. */
  ghost function From(s: State, steps: seq<Step>): Option<State> {
    if steps == [] then Some(s)
    else
      var before := From(s, steps[..|steps| - 1]);
      if before.Some? && Can(before.value, steps[|steps| - 1]) then Some(Do(before.value, steps[|steps| - 1])) else None
  }

  ghost predicate IsRun(steps: seq<Step>) {
    From(START, steps).Some?
  }

  ghost function After(steps: seq<Step>): State
    requires IsRun(steps)
  {
    From(START, steps).value
  }

  // ---- the outbox ----

  ghost predicate InRange(s: State) {
    && (forall m :: 0 <= m < |s.stream| ==> s.stream[m] < |s.outbox|)
    && (forall r :: r in s.inFlight ==> r < |s.outbox|)
    && (forall m :: m in s.acking ==> m < |s.stream|) && s.acked <= s.acking
    && (!s.indexing.Waiting? ==> s.indexing.m < |s.stream|)
  }

  ghost predicate Known(s: State) {
    forall r :: 0 <= r < |s.outbox| ==> s.outbox[r].anime in s.catalog
  }

  ghost predicate Logged(s: State) {
    forall a :: a in s.catalog ==> exists r :: 0 <= r < |s.outbox| && s.outbox[r].anime == a
  }

  ghost predicate PublishedIsStored(s: State) {
    forall r :: 0 <= r < |s.outbox| && s.outbox[r].published ==> r in s.stream
  }

  ghost predicate ConfirmedIsStored(s: State) {
    forall p :: p in s.flushes ==>
      s.flushes[p].confirmed <= |s.flushes[p].rows| && forall k :: 0 <= k < s.flushes[p].confirmed ==>
          s.flushes[p].rows[k] in s.stream
  }

  ghost predicate AllOpen(outbox: seq<Row>, rows: seq<nat>) {
    forall r :: r in rows ==> r < |outbox| && !outbox[r].published
  }

  ghost predicate LocksHold(s: State) {
    forall p :: p in s.flushes ==> AllOpen(s.outbox, s.flushes[p].rows)
  }

  ghost predicate LocksExclude(s: State) {
    forall p, q, r :: p in s.flushes && q in s.flushes && r in s.flushes[p].rows && r in s.flushes[q].rows ==> p == q
  }

  ghost predicate OutboxSound(s: State) {
    InRange(s) && Known(s) && Logged(s) && PublishedIsStored(s) && ConfirmedIsStored(s) && LocksHold(s)
        && LocksExclude(s)
  }

  lemma InRangeKept(s: State, step: Step)
    requires InRange(s) && LocksHold(s) && Can(s, step)
    ensures InRange(Do(s, step))
  {
    var t := Do(s, step);
    assert |s.outbox| <= |t.outbox|;
    forall r | r in t.inFlight ensures r < |t.outbox| {
      if step.Send? && r !in s.inFlight {
        assert r in s.flushes[step.p].rows;
      }
    }
  }

  lemma KnownKept(s: State, step: Step)
    requires Known(s) && Logged(s) && Can(s, step)
    ensures Known(Do(s, step)) && Logged(Do(s, step))
  {
    var t := Do(s, step);
    forall a | a in t.catalog ensures exists r :: 0 <= r < |t.outbox| && t.outbox[r].anime == a {
      if a in s.catalog {
        var r :| 0 <= r < |s.outbox| && s.outbox[r].anime == a;
        assert t.outbox[r].anime == a;
      } else {
        assert t.outbox[|s.outbox|].anime == a;
      }
    }
  }

  lemma StoredKept(s: State, step: Step)
    requires PublishedIsStored(s) && ConfirmedIsStored(s) && Can(s, step)
    ensures PublishedIsStored(Do(s, step)) && ConfirmedIsStored(Do(s, step))
  {
    var t := Do(s, step);
    if step.Commit? {
      var f := s.flushes[step.p];
      assert forall r :: r in f.rows ==> r in s.stream;
    }
  }

  lemma LocksKept(s: State, step: Step)
    requires LocksHold(s) && LocksExclude(s) && Can(s, step)
    ensures LocksHold(Do(s, step)) && LocksExclude(Do(s, step))
  {
    var t := Do(s, step);
    forall p | p in t.flushes ensures AllOpen(t.outbox, t.flushes[p].rows) {
      if step.Begin? && p == step.p {
        assert forall r :: r in step.rows ==> Eligible(s, r);
      } else {
        assert p in s.flushes && AllOpen(s.outbox, s.flushes[p].rows);
        assert t.flushes[p].rows == s.flushes[p].rows;
        if step.Commit? {
          assert forall r :: r in s.flushes[p].rows ==> r !in s.flushes[step.p].rows;
        }
      }
    }
    if step.Begin? {
      assert forall p, r :: p in s.flushes && r in s.flushes[p].rows ==> Held(s, r);
    }
  }

  lemma OutboxKept(s: State, step: Step)
    requires OutboxSound(s) && Can(s, step)
    ensures OutboxSound(Do(s, step))
  {
    InRangeKept(s, step);
    KnownKept(s, step);
    StoredKept(s, step);
    LocksKept(s, step);
  }

  // ---- the index ----

  /** No later event of the same anime. */
  ghost predicate IsLast(outbox: seq<Row>, r: nat) {
    r < |outbox| && forall k :: r < k < |outbox| ==> outbox[k].anime != outbox[r].anime
  }

  predicate Current(s: State, a: string) {
    && a in s.catalog && a in s.index
    && var doc, row := s.index[a], s.catalog[a];
    && doc.animeId == a && doc.title == row.title && doc.titleEnglish == row.titleEnglish
    && doc.titleJapanese == row.titleJapanese && doc.image == row.image && doc.description == row.description
    && doc.genres == row.genres && doc.score == row.score && doc.status == row.status && doc.kind == row.kind
    && doc.totalEpisodes == row.totalEpisodes
  }

  ghost predicate Newest(s: State, m: nat) {
    Announces(s, m) && IsLast(s.outbox, s.stream[m])
  }

  /** A handled message of the last event of an anime leaves its document current. */
  ghost predicate HandledIsCurrent(s: State) {
    forall m :: Newest(s, m) && (m in s.acking || s.indexing == Written(m)) ==> Current(s, AnimeOf(s, m))
  }

  /** What is read for the last event of an anime stays up to date until it is written. */
  ghost predicate ReadIsCurrent(s: State) {
    s.indexing.Read? && Newest(s, s.indexing.m) ==> s.indexing.found == Looked(s.catalog, AnimeOf(s, s.indexing.m))
  }

  /** Out-of-date data in the indexer's hands means that the last event is still to come. */
  ghost predicate StaleIsPending(s: State) {
    && s.indexing.Read? && Announces(s, s.indexing.m)
    && s.indexing.found != Looked(s.catalog, AnimeOf(s, s.indexing.m)) ==>
      forall k :: k in s.acking && Newest(s, k) ==> AnimeOf(s, k) != AnimeOf(s, s.indexing.m)
  }

  ghost predicate IndexedIsKnown(s: State) {
    s.index.Keys <= s.catalog.Keys
  }

  ghost predicate IndexSound(s: State) {
    HandledIsCurrent(s) && ReadIsCurrent(s) && StaleIsPending(s) && IndexedIsKnown(s)
  }

  lemma StillLast(s: State, step: Step, m: nat)
    requires InRange(s) && Can(s, step) && Newest(Do(s, step), m) && m < |s.stream|
    ensures Newest(s, m) && AnimeOf(Do(s, step), m) == AnimeOf(s, m)
    ensures step.CommitAnime? || step.CommitEpisodes? ==> AnimeOf(s, m) != step.id
  {
    var t := Do(s, step);
    assert Announces(s, m);
    var r := s.stream[m];
    assert forall k :: 0 <= k < |s.outbox| ==> t.outbox[k].anime == s.outbox[k].anime;
    if step.CommitAnime? || step.CommitEpisodes? {
      assert t.outbox[|s.outbox|].anime == step.id;
    }
  }

  lemma HandledKept(s: State, step: Step)
    requires OutboxSound(s) && IndexSound(s) && Can(s, step)
    ensures HandledIsCurrent(Do(s, step))
  {
    var t := Do(s, step);
    forall m: nat | Newest(t, m) && (m in t.acking || t.indexing == Written(m)) ensures Current(t, AnimeOf(t, m)) {
      assert m < |s.stream|;
      StillLast(s, step, m);
      assert s.outbox[s.stream[m]].anime in s.catalog;
      if step.WriteIndex? {
        assert s.indexing.m == m || m in s.acking;
      }
    }
  }

  lemma KnownIndexedKept(s: State, step: Step)
    requires OutboxSound(s) && IndexedIsKnown(s) && Can(s, step)
    ensures IndexedIsKnown(Do(s, step))
  {
    if step.WriteIndex? {
      assert AnimeOf(s, s.indexing.m) in s.catalog;
    }
  }

  lemma ReadKept(s: State, step: Step)
    requires OutboxSound(s) && IndexSound(s) && Can(s, step)
    ensures ReadIsCurrent(Do(s, step)) && StaleIsPending(Do(s, step))
  {
    var t := Do(s, step);
    if t.indexing.Read? {
      assert t.indexing.m < |s.stream| && Announces(s, t.indexing.m);
      forall m: nat | m < |s.stream| && Newest(t, m)
        ensures Newest(s, m) && AnimeOf(t, m) == AnimeOf(s, m)
        ensures step.CommitAnime? || step.CommitEpisodes? ==> AnimeOf(s, m) != step.id
      {
        StillLast(s, step, m);
      }
    }
  }

  lemma {:induction false} RunIsSound(steps: seq<Step>)
    requires IsRun(steps)
    ensures OutboxSound(After(steps)) && IndexSound(After(steps))
  {
    if steps != [] {
      var before := steps[..|steps| - 1];
      RunIsSound(before);
      OutboxKept(After(before), steps[|steps| - 1]);
      HandledKept(After(before), steps[|steps| - 1]);
      ReadKept(After(before), steps[|steps| - 1]);
      KnownIndexedKept(After(before), steps[|steps| - 1]);
    }
  }

  // ---- what the users of the pipeline rely on ----

  /** The event of the row has not been handled yet: it is unpublished or one of its messages unacknowledged. */
  ghost predicate Outstanding(s: State, r: nat) {
    r < |s.outbox| && (!s.outbox[r].published || exists m :: 0 <= m < |s.stream| && s.stream[m] == r && m !in s.acked)
  }

  ghost predicate Pending(s: State, a: string) {
    exists r: nat :: Outstanding(s, r) && s.outbox[r].anime == a
  }

  lemma {:induction false} LastRow(outbox: seq<Row>, r: nat) returns (last: nat)
    requires r < |outbox|
    ensures IsLast(outbox, last) && outbox[last].anime == outbox[r].anime
    decreases |outbox| - r
  {
    if k: nat :| r < k < |outbox| && outbox[k].anime == outbox[r].anime {
      last := LastRow(outbox, k);
    } else {
      last := r;
    }
  }

  /** At any moment each anime's document equals its catalog row, or an event for it is still to be handled. */
  lemma AgreesOrPending(steps: seq<Step>, a: string)
    requires IsRun(steps) && a in After(steps).catalog
    ensures Current(After(steps), a) || Pending(After(steps), a)
  {
    var s := After(steps);
    RunIsSound(steps);
    var any: nat :| any < |s.outbox| && s.outbox[any].anime == a;
    var r := LastRow(s.outbox, any);
    if !Outstanding(s, r) {
      assert r in s.stream;
      var m: nat :| m < |s.stream| && s.stream[m] == r;
      assert Newest(s, m);
    }
  }

  /** Every event is published and every message acknowledged. */
  ghost predicate Drained(s: State) {
    && (forall r :: 0 <= r < |s.outbox| ==> s.outbox[r].published)
    && (forall m :: 0 <= m < |s.stream| ==> m in s.acked)
  }

  function Documents(catalog: map<string, Anime>): map<string, AnimeDoc> {
    map a | a in catalog :: Document(a, catalog[a])
  }

  /** Once everything is drained the index is exactly the catalog. */
  lemma DrainedAgrees(steps: seq<Step>)
    requires IsRun(steps) && Drained(After(steps))
    ensures After(steps).index == Documents(After(steps).catalog)
    ensures After(steps).index.Keys == After(steps).catalog.Keys
    ensures forall a :: a in After(steps).catalog ==>
      var doc, row := After(steps).index[a], After(steps).catalog[a];
      && doc.animeId == a && doc.title == row.title && doc.titleEnglish == row.titleEnglish
      && doc.titleJapanese == row.titleJapanese && doc.image == row.image && doc.description == row.description
      && doc.genres == row.genres && doc.score == row.score && doc.status == row.status && doc.kind == row.kind
      && doc.totalEpisodes == row.totalEpisodes
  {
    var s := After(steps);
    RunIsSound(steps);
    forall a | a in s.catalog ensures Current(s, a) {
      AgreesOrPending(steps, a);
    }
  }

  /** The upserts of a run, in order. */
  function Upserted(steps: seq<Step>): seq<string> {
    if steps == [] then []
    else
      var before, last := Upserted(steps[..|steps| - 1]), steps[|steps| - 1];
      if last.CommitAnime? || last.CommitEpisodes? then before + [last.id] else before
  }

  function Animes(outbox: seq<Row>): (animes: seq<string>)
    ensures |animes| == |outbox|
  {
    seq(|outbox|, k requires 0 <= k < |outbox| => outbox[k].anime)
  }

  lemma StepLogs(s: State, step: Step)
    requires Can(s, step)
    ensures
      var logged, after := Animes(s.outbox), Animes(Do(s, step).outbox);
      after == if step.CommitAnime? || step.CommitEpisodes? then logged + [step.id] else logged
  {
  }

  /** Every committed upsert has its own outbox row, in commit order, and there are no others. */
  lemma {:induction false} RowPerUpsert(steps: seq<Step>)
    requires IsRun(steps)
    ensures Animes(After(steps).outbox) == Upserted(steps)
  {
    if steps != [] {
      var before := steps[..|steps| - 1];
      RowPerUpsert(before);
      StepLogs(After(before), steps[|steps| - 1]);
    }
  }

  ghost predicate HeldBy(s: State, p: nat, r: nat) {
    p in s.flushes && r in s.flushes[p].rows
  }

  /** No event is lost: a row that is marked published has a message in the stream, and any other row is
      free to be picked up or held by exactly one publisher. */
  lemma OutboxLosesNothing(steps: seq<Step>, r: nat)
    requires IsRun(steps) && r < |After(steps).outbox|
    ensures
      var s := After(steps);
      if s.outbox[r].published then r in s.stream && !Held(s, r)
      else Eligible(s, r) || exists p :: HeldBy(s, p, r) && forall q :: HeldBy(s, q, r) ==> q == p
  {
    var s := After(steps);
    RunIsSound(steps);
    if Held(s, r) {
      var p :| p in s.flushes && r in s.flushes[p].rows;
      assert HeldBy(s, p, r) && AllOpen(s.outbox, s.flushes[p].rows);
      assert forall q :: HeldBy(s, q, r) ==> q == p;
    }
  }

  /** A flush that fails, for whatever reason, leaves each of its rows to the next flush. */
  lemma FailedFlushFrees(steps: seq<Step>, p: nat)
    requires IsRun(steps) && p in After(steps).flushes
    ensures
      var s, t := After(steps), Do(After(steps), Abandon(p));
      t.outbox == s.outbox && forall r :: r in s.flushes[p].rows ==> Eligible(t, r)
  {
    var s, t := After(steps), Do(After(steps), Abandon(p));
    RunIsSound(steps);
    forall r | r in s.flushes[p].rows ensures Eligible(t, r) {
      assert AllOpen(s.outbox, s.flushes[p].rows);
    }
  }

  // ---- draining is always possible ----

  ghost predicate NoUpserts(steps: seq<Step>) {
    forall k :: 0 <= k < |steps| ==> !steps[k].CommitAnime? && !steps[k].CommitEpisodes?
  }

  /** `more` leads from s to t without touching the catalog. */
  ghost predicate Leads(s: State, more: seq<Step>, t: State) {
    From(s, more) == Some(t) && NoUpserts(more) && OutboxSound(t) && t.catalog == s.catalog && |t.outbox| == |s.outbox|
  }

  lemma LeadsOn(s: State, more: seq<Step>, t: State, step: Step)
    requires Leads(s, more, t) && Can(t, step) && !step.CommitAnime? && !step.CommitEpisodes?
    ensures Leads(s, more + [step], Do(t, step))
  {
    assert (more + [step])[..|more|] == more;
    OutboxKept(t, step);
  }

  lemma {:induction false} FreeAll(s: State, more: seq<Step>, t: State) returns (steps: seq<Step>, u: State)
    requires Leads(s, more, t)
    ensures Leads(s, steps, u) && u.flushes == map[]
    decreases |t.flushes|
  {
    if p :| p in t.flushes {
      LeadsOn(s, more, t, Abandon(p));
      var freed := Do(t, Abandon(p));
      assert freed.flushes.Keys == t.flushes.Keys - {p};
      assert |freed.flushes| == |freed.flushes.Keys| && |t.flushes| == |t.flushes.Keys|;
      steps, u := FreeAll(s, more + [Abandon(p)], freed);
    } else {
      steps, u := more, t;
    }
  }

  ghost predicate PublishedUpTo(outbox: seq<Row>, r: nat) {
    r <= |outbox| && forall k :: 0 <= k < r ==> outbox[k].published
  }

  lemma OneMorePublished(outbox: seq<Row>, r: nat)
    requires r < |outbox| && PublishedUpTo(outbox, r)
    ensures PublishedUpTo(Marked(outbox, [r]), r + 1)
  {
  }

  lemma BeginOne(s: State, more: seq<Step>, t: State, r: nat) returns (steps: seq<Step>, u: State)
    requires Leads(s, more, t) && t.flushes == map[] && r < |t.outbox| && !t.outbox[r].published
    ensures Leads(s, steps, u) && u == t.(flushes := map[0 := Flush([r], 0, 0)])
  {
    assert Eligible(t, r);
    LeadsOn(s, more, t, Begin(0, [r]));
    steps, u := more + [Begin(0, [r])], Do(t, Begin(0, [r]));
  }

  lemma SendOne(s: State, more: seq<Step>, t: State, r: nat) returns (steps: seq<Step>, u: State)
    requires Leads(s, more, t) && t.flushes == map[0 := Flush([r], 0, 0)]
    ensures Leads(s, steps, u) && u == t.(flushes := map[0 := Flush([r], 1, 0)], inFlight := t.inFlight + {r})
  {
    LeadsOn(s, more, t, Send(0));
    steps, u := more + [Send(0)], Do(t, Send(0));
  }

  lemma StoreOne(s: State, more: seq<Step>, t: State, r: nat) returns (steps: seq<Step>, u: State)
    requires Leads(s, more, t) && r in t.inFlight
    ensures Leads(s, steps, u) && u == t.(stream := t.stream + [r])
  {
    LeadsOn(s, more, t, Store(r));
    steps, u := more + [Store(r)], Do(t, Store(r));
  }

  lemma ConfirmOne(s: State, more: seq<Step>, t: State, r: nat) returns (steps: seq<Step>, u: State)
    requires Leads(s, more, t) && t.flushes == map[0 := Flush([r], 1, 0)] && r in t.stream
    ensures Leads(s, steps, u) && u == t.(flushes := map[0 := Flush([r], 1, 1)])
  {
    LeadsOn(s, more, t, Confirm(0));
    steps, u := more + [Confirm(0)], Do(t, Confirm(0));
  }

  lemma CommitOne(s: State, more: seq<Step>, t: State, r: nat) returns (steps: seq<Step>, u: State)
    requires Leads(s, more, t) && t.flushes == map[0 := Flush([r], 1, 1)]
    ensures Leads(s, steps, u) && u.flushes == map[] && u.outbox == Marked(t.outbox, [r])
  {
    LeadsOn(s, more, t, Commit(0));
    steps, u := more + [Commit(0)], Do(t, Commit(0));
  }

  lemma PublishOne(s: State, more: seq<Step>, t: State, r: nat) returns (steps: seq<Step>, u: State)
    requires Leads(s, more, t) && t.flushes == map[] && r < |t.outbox| && !t.outbox[r].published
    ensures Leads(s, steps, u) && u.flushes == map[] && u.outbox == Marked(t.outbox, [r])
  {
    steps, u := BeginOne(s, more, t, r);
    steps, u := SendOne(s, steps, u, r);
    steps, u := StoreOne(s, steps, u, r);
    assert u.stream[|t.stream|] == r;
    steps, u := ConfirmOne(s, steps, u, r);
    steps, u := CommitOne(s, steps, u, r);
  }

  lemma {:induction false} PublishAll(s: State, more: seq<Step>, t: State, r: nat) returns (steps: seq<Step>, u: State)
    requires Leads(s, more, t) && t.flushes == map[] && PublishedUpTo(t.outbox, r)
    ensures Leads(s, steps, u) && PublishedUpTo(u.outbox, |u.outbox|)
    decreases |t.outbox| - r
  {
    if r == |t.outbox| {
      steps, u := more, t;
    } else if t.outbox[r].published {
      steps, u := PublishAll(s, more, t, r + 1);
    } else {
      var more1, t1 := PublishOne(s, more, t, r);
      OneMorePublished(t.outbox, r);
      steps, u := PublishAll(s, more1, t1, r + 1);
    }
  }

  ghost predicate AckedUpTo(s: State, m: nat) {
    m <= |s.stream| && forall k :: 0 <= k < m ==> k in s.acked
  }

  lemma ReadOne(s: State, more: seq<Step>, t: State, m: nat) returns (steps: seq<Step>, u: State)
    requires Leads(s, more, t) && t.indexing.Waiting? && m < |t.stream| && m !in t.acked
    ensures Leads(s, steps, u) && Announces(t, m) && u == t.(indexing := Read(m, Looked(t.catalog, AnimeOf(t, m))))
  {
    LeadsOn(s, more, t, Fetch(m));
    var t1, more1 := Do(t, Fetch(m)), more + [Fetch(m)];
    LeadsOn(s, more1, t1, ReadCatalog);
    steps, u := more1 + [ReadCatalog], Do(t1, ReadCatalog);
  }

  lemma WriteOne(s: State, more: seq<Step>, t: State, m: nat, anime: Anime) returns (steps: seq<Step>, u: State)
    requires Leads(s, more, t) && Announces(t, m) && t.indexing == Read(m, Some(anime))
    ensures Leads(s, steps, u) && u.indexing.Waiting? && u.outbox == t.outbox && u.stream == t.stream
    ensures u.acked == t.acked && m in u.acking
  {
    LeadsOn(s, more, t, WriteIndex);
    var t1, more1 := Do(t, WriteIndex), more + [WriteIndex];
    LeadsOn(s, more1, t1, Ack);
    steps, u := more1 + [Ack], Do(t1, Ack);
  }

  lemma IndexOne(s: State, more: seq<Step>, t: State, m: nat) returns (steps: seq<Step>, u: State)
    requires Leads(s, more, t) && t.indexing.Waiting? && m < |t.stream| && m !in t.acked
    ensures Leads(s, steps, u) && u.indexing.Waiting? && u.outbox == t.outbox && u.stream == t.stream
    ensures u.acked == t.acked + {m}
  {
    steps, u := ReadOne(s, more, t, m);
    assert AnimeOf(t, m) in t.catalog;
    steps, u := WriteOne(s, steps, u, m, t.catalog[AnimeOf(t, m)]);
    LeadsOn(s, steps, u, Settle(m));
    steps, u := steps + [Settle(m)], Do(u, Settle(m));
  }

  lemma {:induction false} IndexAll(s: State, more: seq<Step>, t: State, m: nat) returns (steps: seq<Step>, u: State)
    requires Leads(s, more, t) && t.indexing.Waiting? && AckedUpTo(t, m)
    ensures Leads(s, steps, u) && AckedUpTo(u, |u.stream|) && u.outbox == t.outbox
    decreases |t.stream| - m
  {
    if m == |t.stream| {
      steps, u := more, t;
    } else if m in t.acked {
      steps, u := IndexAll(s, more, t, m + 1);
    } else {
      var more1, t1 := IndexOne(s, more, t, m);
      steps, u := IndexAll(s, more1, t1, m + 1);
    }
  }

  lemma {:induction false} RunOn(steps: seq<Step>, more: seq<Step>)
    requires IsRun(steps)
    ensures From(START, steps + more) == From(After(steps), more)
  {
    if more == [] {
      assert steps + more == steps;
    } else {
      RunOn(steps, more[..|more| - 1]);
      assert (steps + more)[..|steps + more| - 1] == steps + more[..|more| - 1];
    }
  }

  lemma DrainFrom(s: State) returns (more: seq<Step>, t: State)
    requires OutboxSound(s)
    ensures Leads(s, more, t) && Drained(t)
  {
    assert Leads(s, [], s);
    more, t := FreeAll(s, [], s);
    more, t := PublishAll(s, more, t, 0);
    LeadsOn(s, more, t, GiveUp);
    more, t := more + [GiveUp], Do(t, GiveUp);
    more, t := IndexAll(s, more, t, 0);
  }

  /** From every reachable state, whatever crashed before, the pipeline can still drain without another
      upsert, and the index then is exactly the catalog. */
  lemma CanAlwaysDrain(steps: seq<Step>) returns (more: seq<Step>)
    requires IsRun(steps)
    ensures NoUpserts(more) && IsRun(steps + more) && Drained(After(steps + more))
    ensures After(steps + more).catalog == After(steps).catalog
    ensures After(steps + more).index == Documents(After(steps).catalog)
    ensures forall a :: a in After(steps).catalog ==>
      && a in After(steps + more).index
      && var doc, row := After(steps + more).index[a], After(steps).catalog[a];
      && doc.animeId == a && doc.title == row.title && doc.titleEnglish == row.titleEnglish
      && doc.titleJapanese == row.titleJapanese && doc.image == row.image && doc.description == row.description
      && doc.genres == row.genres && doc.score == row.score && doc.status == row.status && doc.kind == row.kind
      && doc.totalEpisodes == row.totalEpisodes
  {
    RunIsSound(steps);
    var t;
    more, t := DrainFrom(After(steps));
    RunOn(steps, more);
    DrainedAgrees(steps + more);
  }

  // ---- the publisher's code ----

  /** A publisher's own view of its transaction. */
  datatype Local = Closed | Open(flush: Flush) | Broken

  predicate Concerns(step: Step, p: nat) {
    (step.Begin? || step.Send? || step.Confirm? || step.Commit? || step.Abandon?) && step.p == p
  }

  /** How the view changes with the publisher's own steps, out of order steps break it. */
  function Viewed(view: Local, step: Step): Local {
    match step
    case Begin(p, rows) => if view.Closed? && rows != [] then Open(Flush(rows, 0, 0)) else Broken
    case Send(p) =>
      if view.Open? && view.flush.sent < |view.flush.rows| then Open(view.flush.(sent := view.flush.sent + 1))
      else Broken
    case Confirm(p) =>
      if view.Open? && view.flush.sent == |view.flush.rows| && view.flush.confirmed < |view.flush.rows|
      then Open(view.flush.(confirmed := view.flush.confirmed + 1)) else Broken
    case Commit(p) => if view.Open? && view.flush.confirmed == |view.flush.rows| then Closed else Broken
    case Abandon(p) => if view.Open? then Closed else Broken
    case _ => view
  }

  function ViewOf(s: State, p: nat): Local {
    if p in s.flushes then Open(s.flushes[p]) else Closed
  }

  /** What the locking query and the acknowledgement promise. */
  predicate Promised(s: State, step: Step) {
    match step
    case Begin(p, rows) => forall r :: r in rows ==> Eligible(s, r)
    case Confirm(p) =>
      p in s.flushes && s.flushes[p].confirmed < |s.flushes[p].rows|
          && s.flushes[p].rows[s.flushes[p].confirmed] in s.stream
    case _ => true
  }

  /** In any interleaving a publisher's step is possible exactly when its own view allows it and the other
      side keeps its promise; steps of anyone else leave the view alone. */
  lemma ViewDecides(s: State, step: Step, p: nat)
    ensures Concerns(step, p) ==> (Can(s, step) <==> !Viewed(ViewOf(s, p), step).Broken? && Promised(s, step))
    ensures Concerns(step, p) && Can(s, step) ==> ViewOf(Do(s, step), p) == Viewed(ViewOf(s, p), step)
    ensures !Concerns(step, p) && Can(s, step) ==> ViewOf(Do(s, step), p) == ViewOf(s, p)
  {
  }

  function Views(view: Local, steps: seq<Step>): Local {
    if steps == [] then view else Viewed(Views(view, steps[..|steps| - 1]), steps[|steps| - 1])
  }

  lemma ViewsOn(view: Local, steps: seq<Step>, step: Step)
    ensures Views(view, steps + [step]) == Viewed(Views(view, steps), step)
  {
    assert (steps + [step])[..|steps|] == steps;
  }

  /** Steps of one publisher that its view allows, starting with the lock on `items`, up to this view. */
  ghost predicate Underway(p: nat, items: seq<nat>, steps: seq<Step>, view: Local) {
    && steps != [] && steps[0] == Begin(p, items) && Views(Closed, steps) == view
    && forall k :: 0 <= k < |steps| ==> Concerns(steps[k], p)
  }

  lemma UnderwayOn(p: nat, items: seq<nat>, steps: seq<Step>, view: Local, step: Step)
    requires Underway(p, items, steps, view) && Concerns(step, p)
    ensures Underway(p, items, steps + [step], Viewed(view, step))
  {
    ViewsOn(Closed, steps, step);
  }

  /** The loop that sends every item. */
  method SendAll(p: nat, items: seq<nat>, sends: nat -> bool) returns (steps: seq<Step>, ok: bool)
    requires items != []
    ensures ok <==> forall k :: 0 <= k < |items| ==> sends(k)
    ensures exists sent :: Underway(p, items, steps, Open(Flush(items, sent, 0))) && (ok ==> sent == |items|)
  {
    steps, ok := [Begin(p, items)], true;
    assert steps[..0] == [] && Views(Closed, []) == Closed;
    var i := 0;
    while i < |items|
      invariant 0 <= i <= |items| && ok && forall k :: 0 <= k < i ==> sends(k)
      invariant Underway(p, items, steps, Open(Flush(items, i, 0)))
    {
      if !sends(i) {
        return steps, false;
      }
      UnderwayOn(p, items, steps, Open(Flush(items, i, 0)), Send(p));
      steps := steps + [Send(p)];
      i := i + 1;
    }
  }

  /** The loop that waits for every acknowledgement. */
  method AwaitAll(p: nat, items: seq<nat>, before: seq<Step>, acks: nat -> bool) returns (steps: seq<Step>, ok: bool)
    requires Underway(p, items, before, Open(Flush(items, |items|, 0)))
    ensures ok <==> forall k :: 0 <= k < |items| ==> acks(k)
    ensures exists confirmed ::
      && Underway(p, items, steps, Open(Flush(items, |items|, confirmed)))
      && (ok ==> confirmed == |items|)
  {
    steps, ok := before, true;
    var j := 0;
    while j < |items|
      invariant 0 <= j <= |items| && ok && forall k :: 0 <= k < j ==> acks(k)
      invariant Underway(p, items, steps, Open(Flush(items, |items|, j)))
    {
      if !acks(j) {
        return steps, false;
      }
      UnderwayOn(p, items, steps, Open(Flush(items, |items|, j)), Confirm(p));
      steps := steps + [Confirm(p)];
      j := j + 1;
    }
  }

  /** flushOnce with the rows its query returned and the answers it gets to each send, acknowledgement,
      update and commit. Its steps never break its view, it ends with no open transaction, and rows are
      marked exactly when every send and every acknowledgement succeeded, and then all of them. */
  method FlushOnce(p: nat, items: seq<nat>, sends: nat -> bool, acks: nat -> bool, update: bool, commit: CommitAnswer)
    returns (steps: seq<Step>, ok: bool, marked: seq<nat>)
    ensures items == [] ==> steps == [] && ok
    ensures marked == if steps != [] && steps[|steps| - 1].Commit? then items else []
    ensures items != [] ==>
      var all := (forall k :: 0 <= k < |items| ==> sends(k)) && (forall k :: 0 <= k < |items| ==> acks(k)) && update;
      && Underway(p, items, steps, Closed)
      && (steps[|steps| - 1] == if all && !commit.Fails? then Commit(p) else Abandon(p))
      && (ok <==> all && commit.Commits?)
  {
    if |items| == 0 {
      return [], true, [];
    }
    steps, ok := SendAll(p, items, sends);
    ghost var sent :| Underway(p, items, steps, Open(Flush(items, sent, 0))) && (ok ==> sent == |items|);
    ghost var view := Open(Flush(items, sent, 0));
    if ok {
      steps, ok := AwaitAll(p, items, steps, acks);
      ghost var confirmed :|
        && Underway(p, items, steps, Open(Flush(items, |items|, confirmed)))
        && (ok ==> confirmed == |items|);
      view := Open(Flush(items, |items|, confirmed));
    }
    var ids: seq<nat> := [];
    if ok {
      var i := 0;
      while i < |items|
        invariant 0 <= i <= |items| && ids == items[..i]
      {
        ids := ids + [items[i]];
        i := i + 1;
      }
    }
    if !ok || !update || commit.Fails? {
      UnderwayOn(p, items, steps, view, Abandon(p));
      return steps + [Abandon(p)], false, [];
    }
    UnderwayOn(p, items, steps, view, Commit(p));
    return steps + [Commit(p)], commit.Commits?, ids;
  }

  // ---- the indexer's code ----

  /** What the search engine does with a write. */
  datatype WriteAnswer = Wrote | Refused | WroteUnseen

  function Indexed(
      index: map<string, AnimeDoc>, response: Option<seq<(string, Anime)>>, write: WriteAnswer): map<string, AnimeDoc>
  {
    if response.None? || response.value == [] || write.Refused? then index
    else var (id, anime) := response.value[0]; index[id := Document(id, anime)]
  }

  /** The steps of one turn of the loop for message m; an anime id that is empty after trimming, like a
      payload that cannot be parsed, is an error. */
  function Turn(
      m: nat, payload: Option<string>, response: Option<seq<(string, Anime)>>, write: WriteAnswer): seq<Step>
  {
    if payload.None? || TrimSpace(payload.value) == "" || response.None? then [Fetch(m), GiveUp]
    else if response.value == [] then [Fetch(m), ReadCatalog, Ack]
    else match write
      case Refused => [Fetch(m), ReadCatalog, GiveUp]
      case WroteUnseen => [Fetch(m), ReadCatalog, WriteIndex, GiveUp]
      case Wrote => [Fetch(m), ReadCatalog, WriteIndex, Ack]
  }

  function Reindexed(
      index: map<string, AnimeDoc>, ids: seq<string>, catalogs: nat -> map<string, Anime>): map<string, AnimeDoc>
  {
    if ids == [] then index
    else
      var n, id := |ids| - 1, ids[|ids| - 1];
      var before := Reindexed(index, ids[..n], catalogs);
      if id in catalogs(n) then before[id := Document(id, catalogs(n)[id])] else before
  }

  /** Entry k looks the anime up and finds it. */
  predicate LooksUp(ids: seq<string>, catalogs: nat -> map<string, Anime>, id: string, k: nat)
    requires k < |ids|
  {
    ids[k] == id && id in catalogs(k)
  }

  /** Entry k is the last one to do so. */
  ghost predicate LooksUpLast(ids: seq<string>, catalogs: nat -> map<string, Anime>, id: string, k: nat) {
    k < |ids| && LooksUp(ids, catalogs, id, k) && forall j: nat :: k < j < |ids| ==> !LooksUp(ids, catalogs, id, j)
  }

  /** While the catalog may change under it, reindexing leaves every listed anime with the document of the last
      lookup that found it. */
  lemma {:induction false} ReindexCovers(
      index: map<string, AnimeDoc>, ids: seq<string>, catalogs: nat -> map<string, Anime>, id: string, k: nat)
    requires LooksUpLast(ids, catalogs, id, k)
    ensures id in Reindexed(index, ids, catalogs)
    ensures
      var doc, row := Reindexed(index, ids, catalogs)[id], catalogs(k)[id];
      && doc.animeId == id && doc.title == row.title && doc.titleEnglish == row.titleEnglish
      && doc.titleJapanese == row.titleJapanese && doc.image == row.image && doc.description == row.description
      && doc.genres == row.genres && doc.score == row.score && doc.status == row.status && doc.kind == row.kind
      && doc.totalEpisodes == row.totalEpisodes
  {
    var n := |ids| - 1;
    if k < n {
      assert !LooksUp(ids, catalogs, id, n);
      assert forall j: nat :: j < n ==> LooksUp(ids[..n], catalogs, id, j) == LooksUp(ids, catalogs, id, j);
      ReindexCovers(index, ids[..n], catalogs, id, k);
    }
  }

  /** It touches no document of an anime that it does not find. */
  lemma {:induction false} ReindexLeaves(
      index: map<string, AnimeDoc>, ids: seq<string>, catalogs: nat -> map<string, Anime>, id: string)
    requires forall k: nat :: k < |ids| ==> !LooksUp(ids, catalogs, id, k)
    ensures
      var after := Reindexed(index, ids, catalogs);
      (id in after <==> id in index) && (id in after ==> after[id] == index[id])
  {
    if ids != [] {
      var n := |ids| - 1;
      assert !LooksUp(ids, catalogs, id, n);
      assert forall j: nat :: j < n ==> LooksUp(ids[..n], catalogs, id, j) == LooksUp(ids, catalogs, id, j);
      ReindexLeaves(index, ids[..n], catalogs, id);
    }
  }

  class Indexer {
    var index: map<string, AnimeDoc>

    constructor ()
      ensures index == map[]
    {
      index := map[];
    }

    method IndexAnime(response: Option<seq<(string, Anime)>>, write: WriteAnswer) returns (ok: bool)
      modifies this
      ensures index == Indexed(old(index), response, write)
      ensures ok <==> response.Some? && (response.value == [] || write.Wrote?)
      ensures response.None? || response.value == [] || write.Refused? ==> index == old(index)
      ensures response.Some? && response.value != [] && !write.Refused? ==>
        var (id, row) := response.value[0];
        && index.Keys == old(index).Keys + {id}
        && (forall other :: other in old(index) && other != id ==> index[other] == old(index)[other])
        && var doc := index[id];
        && doc.animeId == id && doc.title == row.title && doc.titleEnglish == row.titleEnglish
        && doc.titleJapanese == row.titleJapanese && doc.image == row.image && doc.description == row.description
        && doc.genres == row.genres && doc.score == row.score && doc.status == row.status && doc.kind == row.kind
        && doc.totalEpisodes == row.totalEpisodes
    {
      if response.None? {
        return false;
      }
      if |response.value| == 0 {
        return true;
      }
      var id, a := response.value[0].0, response.value[0].1;
      var doc := AnimeDoc(id, a.title, a.titleEnglish, a.titleJapanese, a.image, a.description,
                          a.genres, a.score, a.status, a.kind, a.totalEpisodes);
      if !write.Refused? {
        index := index[id := doc];
      }
      ok := write.Wrote?;
    }

    method HandleMsg(payload: Option<string>, response: Option<seq<(string, Anime)>>, write: WriteAnswer)
      returns (ok: bool)
      modifies this
      ensures
        if payload.None? || TrimSpace(payload.value) == "" then !ok && index == old(index)
        else
          && index == Indexed(old(index), response, write)
          && (ok <==> response.Some? && (response.value == [] || write.Wrote?))
    {
      if payload.None? {
        return false;
      }
      var animeId := TrimSpace(payload.value);
      if |animeId| == 0 {
        return false;
      }
      ok := IndexAnime(response, write);
    }

    /** ReindexAll over the ids the catalog listed, up to the first error; None when it could not list them. It
        looks entry k up in catalogs(k). */
    method ReindexAll(
        listed: Option<seq<string>>, catalogs: nat -> map<string, Anime>, lookupFails: nat -> bool,
        writes: nat -> WriteAnswer)
      returns (ok: bool, ghost covered: nat)
      modifies this
      ensures listed.None? ==> !ok && index == old(index)
      ensures listed.Some? ==>
        var ids := listed.value;
        && (ok <==> forall k :: 0 <= k < |ids| ==> !lookupFails(k) && (ids[k] !in catalogs(k) || writes(k).Wrote?))
        && covered <= |ids| && index == Reindexed(old(index), ids[..covered], catalogs) && (ok ==> covered == |ids|)
    {
      if listed.None? {
        return false, 0;
      }
      var ids, i := listed.value, 0;
      while i < |ids|
        invariant 0 <= i <= |ids|
        invariant forall k :: 0 <= k < i ==> !lookupFails(k) && (ids[k] !in catalogs(k) || writes(k).Wrote?)
        invariant index == Reindexed(old(index), ids[..i], catalogs)
      {
        assert ids[..i + 1][..i] == ids[..i];
        var found := if ids[i] in catalogs(i) then [(ids[i], catalogs(i)[ids[i]])] else [];
        var response := if lookupFails(i) then None else Some(found);
        ok := IndexAnime(response, writes(i));
        if !ok {
          return false, if response.None? || writes(i).Refused? then i else i + 1;
        }
        i := i + 1;
      }
      return true, i;
    }

    /** One turn of the loop: the message is acknowledged or given back. */
    method Next(payload: Option<string>, response: Option<seq<(string, Anime)>>, write: WriteAnswer)
      returns (acks: bool)
      modifies this
      ensures
        var handled := payload.Some? && TrimSpace(payload.value) != "";
        && index == (if handled then Indexed(old(index), response, write) else old(index))
        && (acks <==> handled && response.Some? && (response.value == [] || write.Wrote?))
    {
      acks := HandleMsg(payload, response, write);
    }
  }

  /** The steps that the indexer takes itself. */
  predicate Own(step: Step) {
    step.Fetch? || step.ReadCatalog? || step.WriteIndex? || step.Ack? || step.GiveUp?
  }

  function OwnSteps(steps: seq<Step>): seq<Step> {
    if steps == [] then []
    else
      var before, last := OwnSteps(steps[..|steps| - 1]), steps[|steps| - 1];
      if Own(last) then before + [last] else before
  }

  /** In any interleaving the indexer's step is possible exactly when its own state and, for a fetch, the
      stream allow it; steps of anyone else leave its state and the index alone. */
  lemma IndexerDecides(s: State, step: Step)
    requires InRange(s)
    ensures Own(step) ==> (Can(s, step) <==>
      match step
      case Fetch(m) => s.indexing.Waiting? && m < |s.stream| && m !in s.acked
      case ReadCatalog => s.indexing.Fetched?
      case WriteIndex => s.indexing.Read? && s.indexing.found.Some?
      case Ack => s.indexing.Written? || (s.indexing.Read? && s.indexing.found.None?)
      case _ => true)
    ensures !Own(step) && Can(s, step) ==>
      Do(s, step).indexing == s.indexing && Do(s, step).index == s.index && Do(s, step).acking == s.acking
  {
  }

  /** Beginnings of turns. */
  predicate TurnShape(own: seq<Step>, m: nat) {
    && |own| <= 4
    && (|own| > 0 ==> own[0] == Fetch(m))
    && (|own| > 1 ==> own[1] == GiveUp || own[1] == ReadCatalog)
    && (|own| > 2 ==> own[1] == ReadCatalog && (own[2] == GiveUp || own[2] == Ack || own[2] == WriteIndex))
    && (|own| > 3 ==> own[2] == WriteIndex && (own[3] == GiveUp || own[3] == Ack))
  }

  /** Where these steps leave the indexer when the catalog answered `found`. */
  function Position(own: seq<Step>, m: nat, found: Option<Anime>): Indexing {
    if own == [] || own[|own| - 1].Ack? || own[|own| - 1].GiveUp? then Waiting
    else if own[|own| - 1].ReadCatalog? then Read(m, found)
    else if own[|own| - 1].WriteIndex? then Written(m)
    else Fetched(m)
  }

  function Writes(own: seq<Step>): bool {
    |own| > 2 && own[2].WriteIndex?
  }

  function AcksIt(own: seq<Step>): bool {
    own != [] && own[|own| - 1].Ack?
  }

  /** The part of a state that only the indexer moves. */
  datatype Side = Side(indexing: Indexing, index: map<string, AnimeDoc>, acking: set<nat>)

  function SideOf(s: State): Side {
    Side(s.indexing, s.index, s.acking)
  }

  /** Where these steps leave it. */
  function Moved(side: Side, own: seq<Step>, m: nat, anime: string, found: Option<Anime>): Side {
    Side(Position(own, m, found),
         if Writes(own) && found.Some? then side.index[anime := Document(anime, found.value)] else side.index,
         if AcksIt(own) then side.acking + {m} else side.acking)
  }

  predicate Announcing(s: State, m: nat, anime: string) {
    Announces(s, m) && AnimeOf(s, m) == anime
  }

  lemma AnnouncingKept(s: State, m: nat, anime: string, step: Step)
    requires Announcing(s, m, anime) && Can(s, step)
    ensures Announcing(Do(s, step), m, anime)
  {
  }

  lemma {:induction false} RunKeepsOutbox(s: State, steps: seq<Step>, m: nat, anime: string)
    requires OutboxSound(s) && Announcing(s, m, anime) && From(s, steps).Some?
    ensures OutboxSound(From(s, steps).value) && Announcing(From(s, steps).value, m, anime)
  {
    if steps != [] {
      var before := steps[..|steps| - 1];
      RunKeepsOutbox(s, before, m, anime);
      OutboxKept(From(s, before).value, steps[|steps| - 1]);
      AnnouncingKept(From(s, before).value, m, anime, steps[|steps| - 1]);
    }
  }

  /** What the catalog answered to the one read of the run, if there was one. */
  ghost predicate Found(s: State, steps: seq<Step>, anime: string, found: Option<Anime>) {
    forall k :: 0 <= k < |steps| && steps[k].ReadCatalog? && From(s, steps[..k]).Some? ==>
      found == Looked(From(s, steps[..k]).value.catalog, anime)
  }

  lemma OwnStepMoves(start: Side, t: State, own: seq<Step>, m: nat, anime: string, found: Option<Anime>, step: Step)
    requires SideOf(t) == Moved(start, own, m, anime, found) && Announcing(t, m, anime) && Can(t, step) && Own(step)
    requires TurnShape(own + [step], m) && (step.ReadCatalog? ==> found == Looked(t.catalog, anime))
    ensures SideOf(Do(t, step)) == Moved(start, own + [step], m, anime, found)
  {
    var more := own + [step];
    assert more[|more| - 1] == step && more[..|own|] == own;
  }

  lemma ShapePrefix(own: seq<Step>, step: Step, m: nat)
    requires TurnShape(own + [step], m)
    ensures TurnShape(own, m)
  {
    var more := own + [step];
    assert forall k :: 0 <= k < |own| ==> own[k] == more[k];
  }

  lemma {:induction false} RunReaches(s: State, steps: seq<Step>, m: nat, anime: string, found: Option<Anime>)
    requires OutboxSound(s) && s.indexing.Waiting? && Announcing(s, m, anime) && From(s, steps).Some?
    requires TurnShape(OwnSteps(steps), m) && Found(s, steps, anime, found)
    ensures SideOf(From(s, steps).value) == Moved(SideOf(s), OwnSteps(steps), m, anime, found)
  {
    if steps != [] {
      var before, last := steps[..|steps| - 1], steps[|steps| - 1];
      assert forall k :: 0 <= k < |before| ==> before[..k] == steps[..k];
      var t := From(s, before).value;
      RunKeepsOutbox(s, before, m, anime);
      if Own(last) {
        ShapePrefix(OwnSteps(before), last, m);
        RunReaches(s, before, m, anime, found);
        OwnStepMoves(SideOf(s), t, OwnSteps(before), m, anime, found, last);
      } else {
        RunReaches(s, before, m, anime, found);
        IndexerDecides(t, last);
      }
    }
  }

  lemma TurnHasShape(m: nat, payload: Option<string>, response: Option<seq<(string, Anime)>>, write: WriteAnswer)
    ensures TurnShape(Turn(m, payload, response, write), m)
  {
  }

  /** Whatever other parties do between its steps, a turn of the loop leaves the index as the code leaves it,
      with the document the catalog had when it was asked, and sends an acknowledgement only after that. */
  lemma TurnAmidOthers(
      s: State, steps: seq<Step>, m: nat, payload: Option<string>, response: Option<seq<(string, Anime)>>,
      write: WriteAnswer, found: Option<Anime>)
    requires OutboxSound(s) && s.indexing.Waiting? && m < |s.stream| && From(s, steps).Some?
    requires OwnSteps(steps) == Turn(m, payload, response, write) && Found(s, steps, AnimeOf(s, m), found)
    requires response.Some? ==> response.value == if found.Some? then [(AnimeOf(s, m), found.value)] else []
    ensures
      var t, handled := From(s, steps).value, payload.Some? && TrimSpace(payload.value) != "";
      && t.indexing.Waiting?
      && t.index == (if handled then Indexed(s.index, response, write) else s.index)
      && t.acking == (if handled && response.Some? && (found.None? || write.Wrote?) then s.acking + {m} else s.acking)
  {
    TurnHasShape(m, payload, response, write);
    RunReaches(s, steps, m, AnimeOf(s, m), found);
  }
}
