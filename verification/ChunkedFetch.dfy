/** The continue-watching join of the BFF: episodes fetched in concurrent chunks (handlers/activity.go). */
module ChunkedFetch {
  import opened Pieces
  import opened Wrappers

  datatype Episode = Episode(id: string, animeId: string, number: int, title: string, airedAt: string)

  datatype Progress = Progress(
    episodeId: string, position: int, duration: int, completed: bool, updatedAtMs: int, clientTsMs: int)

  // ---- the catalog's answers ----

  /** The catalog answers a list of ids with one episode for each listed id it knows, in any order. */
  ghost predicate IsAnswer(table: map<string, Episode>, ids: seq<string>, eps: seq<Episode>) {
    && (forall e :: e in eps ==> e.id in ids && e.id in table && table[e.id] == e)
    && (forall id :: id in ids && id in table ==> table[id] in eps)
  }

  /** Every row is kept under its own id. */
  ghost predicate Keyed(table: map<string, Episode>) {
    forall id :: id in table ==> table[id].id == id
  }

  // ---- chunks ----

  /** The lists handed to the goroutines; there is none for an empty list. */
  function Tasks(ids: seq<string>, size: nat): seq<seq<string>>
    requires size > 0
  {
    if ids == [] then [] else Chunks(ids, size)
  }

  /** The tasks partition the list in order, none is empty or too long, and their number is the capacity of
      the channels. */
  lemma {:induction false} TasksPartition(ids: seq<string>, size: nat)
    requires size > 0
    ensures Concat(Tasks(ids, size)) == ids
    ensures forall k :: 0 <= k < |Tasks(ids, size)| ==> 0 < |Tasks(ids, size)[k]| <= size
    ensures |Tasks(ids, size)| == (|ids| + size - 1) / size
    decreases |ids|
  {
    if ids == [] {
      SmallQuotient(size - 1, size, 0);
    } else {
      ChunksCover(ids, size);
      if |ids| <= size {
        SmallQuotient(|ids| + size - 1, size, 1);
      } else {
        TasksPartition(ids[size..], size);
        OneMore(|ids| - 1, size);
      }
    }
  }

  lemma SmallQuotient(n: nat, size: nat, q: nat)
    requires size > 0 && q * size <= n < q * size + size
    ensures n / size == q
  {
    var d: int := n / size - q;
    assert n == size * (q + d) + n % size == size * q + size * d + n % size;
    assert d >= 1 ==> size * d >= size;
    assert d <= -1 ==> size * d <= 0 - size;
  }

  lemma OneMore(n: nat, size: nat)
    requires size > 0
    ensures (n + size) / size == n / size + 1
  {
    var q := n / size;
    assert n == q * size + n % size;
    assert (q + 1) * size == q * size + size;
    SmallQuotient(n + size, size, q + 1);
  }

  // ---- the answers together ----

  /** A goroutine for every chunk, in the order in which they finish. */
  ghost predicate IsOrder(order: seq<nat>, tasks: nat) {
    && |order| == tasks
    && (forall k :: 0 <= k < tasks ==> order[k] < tasks)
    && (forall t: nat :: t < tasks ==> t in order)
  }

  ghost predicate AllAnswer(table: map<string, Episode>, chunks: seq<seq<string>>, answers: seq<Option<seq<Episode>>>) {
    |answers| == |chunks| && forall k :: 0 <= k < |chunks| && answers[k].Some? ==>
        IsAnswer(table, chunks[k], answers[k].value)
  }

  /** What the loop over the results builds. */
  function MetaOf(eps: seq<Episode>): map<string, Episode> {
    if eps == [] then map[] else MetaOf(eps[..|eps| - 1])[eps[|eps| - 1].id := eps[|eps| - 1]]
  }

  function Known(table: map<string, Episode>, ids: seq<string>): map<string, Episode> {
    map id | id in ids && id in table :: table[id]
  }

  lemma {:induction false} MetaOfAnswers(table: map<string, Episode>, eps: seq<Episode>)
    requires forall e :: e in eps ==> e.id in table && table[e.id] == e
    ensures forall id :: id in MetaOf(eps) <==> id in table && table[id] in eps && table[id].id == id
    ensures forall id :: id in MetaOf(eps) ==> MetaOf(eps)[id] == table[id]
  {
    if eps != [] {
      var before, last := eps[..|eps| - 1], eps[|eps| - 1];
      assert eps == before + [last];
      MetaOfAnswers(table, before);
    }
  }

  /** One answer for the whole list gives its known episodes by id. */
  lemma MetaOfOneCall(table: map<string, Episode>, ids: seq<string>, eps: seq<Episode>)
    requires Keyed(table) && IsAnswer(table, ids, eps)
    ensures MetaOf(eps) == Known(table, ids)
  {
    MetaOfAnswers(table, eps);
  }

  function Delivered(answers: seq<Option<seq<Episode>>>, order: seq<nat>): seq<seq<Episode>>
    requires forall k :: 0 <= k < |order| ==> order[k] < |answers|
  {
    if order == [] then []
    else
      var before, a := Delivered(answers, order[..|order| - 1]), answers[order[|order| - 1]];
      if a.Some? then before + [a.value] else before
  }

  lemma {:induction false} DeliveredHas(answers: seq<Option<seq<Episode>>>, order: seq<nat>, x: Episode)
    requires forall k :: 0 <= k < |order| ==> order[k] < |answers|
    ensures x in Concat(Delivered(answers, order))
        <==> exists t :: t in order && answers[t].Some? && x in answers[t].value
  {
    if order != [] {
      var before, t := order[..|order| - 1], order[|order| - 1];
      DeliveredHas(answers, before, x);
      assert order == before + [t];
      var d := Delivered(answers, before);
      if answers[t].Some? {
        ConcatAppend(d, answers[t].value);
      }
    }
  }

  /** Whatever the order in which the goroutines finish, the answers to the chunks together are an answer to
      the whole list. */
  lemma ChunksAnswerList(
      table: map<string, Episode>, ids: seq<string>, size: nat, answers: seq<Option<seq<Episode>>>, order: seq<nat>)
    requires size > 0 && AllAnswer(table, Tasks(ids, size), answers) && IsOrder(order, |answers|)
    requires forall k :: 0 <= k < |answers| ==> answers[k].Some?
    ensures IsAnswer(table, ids, Concat(Delivered(answers, order)))
  {
    var chunks, out := Tasks(ids, size), Concat(Delivered(answers, order));
    TasksPartition(ids, size);
    forall e | e in out ensures e.id in ids && e.id in table && table[e.id] == e {
      DeliveredHas(answers, order, e);
      var t :| t in order && answers[t].Some? && e in answers[t].value;
      InConcat(chunks, e.id);
      assert e.id in chunks[t];
    }
    forall id | id in ids && id in table ensures table[id] in out {
      InConcat(chunks, id);
      var t: nat :| t < |chunks| && id in chunks[t];
      DeliveredHas(answers, order, table[id]);
      assert t in order && table[id] in answers[t].value;
    }
  }

  /** The chunked fetch finds the same episodes by id as one call with the whole list. */
  lemma ChunkedEqualsOneCall(
      table: map<string, Episode>, ids: seq<string>, size: nat, answers: seq<Option<seq<Episode>>>, order: seq<nat>,
      whole: seq<Episode>)
    requires Keyed(table) && IsAnswer(table, ids, whole)
    requires size > 0 && AllAnswer(table, Tasks(ids, size), answers) && IsOrder(order, |answers|)
    requires forall k :: 0 <= k < |answers| ==> answers[k].Some?
    ensures MetaOf(Concat(Delivered(answers, order))) == MetaOf(whole)
  {
    ChunksAnswerList(table, ids, size, answers, order);
    MetaOfOneCall(table, ids, Concat(Delivered(answers, order)));
    MetaOfOneCall(table, ids, whole);
  }

  function Errors(answers: seq<Option<seq<Episode>>>, order: seq<nat>): nat
    requires forall k :: 0 <= k < |order| ==> order[k] < |answers|
  {
    if order == [] then 0
    else Errors(answers, order[..|order| - 1]) + if answers[order[|order| - 1]].None? then 1 else 0
  }

  lemma {:induction false} ErrorsCount(answers: seq<Option<seq<Episode>>>, order: seq<nat>)
    requires forall k :: 0 <= k < |order| ==> order[k] < |answers|
    ensures Errors(answers, order) == 0 <==> forall t :: t in order ==> answers[t].Some?
    ensures |Delivered(answers, order)| + Errors(answers, order) == |order|
  {
    if order != [] {
      ErrorsCount(answers, order[..|order| - 1]);
      assert order == order[..|order| - 1] + [order[|order| - 1]];
    }
  }

  function SizeOrDefault(chunkSize: int): (size: nat)
    ensures size > 0
  {
    if chunkSize <= 0 then 20 else chunkSize
  }

  function Rest(ids: seq<string>, i: nat): seq<string> {
    if i < |ids| then ids[i..] else []
  }

  lemma FirstTask(rest: seq<string>, size: nat)
    requires size > 0 && rest != []
    ensures Tasks(rest, size) == [Take(rest, size)] + Tasks(Rest(rest, size), size)
  {
    if |rest| <= size {
      assert Take(rest, size) == rest && Rest(rest, size) == [];
      assert Tasks(rest, size) == [rest] + Tasks([], size);
    }
  }

  lemma FirstMoves<T>(done: seq<T>, x: T, rest: seq<T>)
    ensures done + [x] + rest == done + ([x] + rest)
  {
  }

  lemma NextTask(ids: seq<string>, i: nat, size: nat)
    requires size > 0 && i < |ids|
    ensures
      var end := if i + size > |ids| then |ids| else i + size;
      Tasks(Rest(ids, i), size) == [ids[i..end]] + Tasks(Rest(ids, i + size), size)
  {
    var end := if i + size > |ids| then |ids| else i + size;
    FirstTask(ids[i..], size);
    assert Take(ids[i..], size) == ids[i..end];
    assert Rest(ids[i..], size) == Rest(ids, i + size);
  }

  /** The chunks cut so far are the first tasks. */
  ghost predicate IsCut(chunks: seq<seq<string>>, ids: seq<string>, i: nat, size: nat)
    requires size > 0
  {
    chunks + Tasks(Rest(ids, i), size) == Tasks(ids, size)
  }

  lemma NothingCut(ids: seq<string>, size: nat)
    requires size > 0
    ensures IsCut([], ids, 0, size)
  {
    assert Rest(ids, 0) == ids;
  }

  lemma AllCut(chunks: seq<seq<string>>, ids: seq<string>, i: nat, size: nat)
    requires size > 0 && i >= |ids| && IsCut(chunks, ids, i, size)
    ensures chunks == Tasks(ids, size)
  {
    assert chunks + [] == chunks;
  }

  lemma ChunkCut(chunks: seq<seq<string>>, ids: seq<string>, i: nat, size: nat)
    requires size > 0 && i < |ids| && IsCut(chunks, ids, i, size)
    ensures
      var end := if i + size > |ids| then |ids| else i + size;
      IsCut(chunks + [ids[i..end]], ids, i + size, size)
  {
    var end := if i + size > |ids| then |ids| else i + size;
    NextTask(ids, i, size);
    FirstMoves(chunks, ids[i..end], Tasks(Rest(ids, i + size), size));
  }

  /** The slices handed to the goroutines. */
  method CutIntoChunks(ids: seq<string>, size: nat) returns (chunks: seq<seq<string>>)
    requires size > 0
    ensures chunks == Tasks(ids, size)
  {
    chunks := [];
    var i := 0;
    NothingCut(ids, size);
    while i < |ids|
      invariant 0 <= i && IsCut(chunks, ids, i, size)
      decreases |ids| - i
    {
      var end := i + size;
      if end > |ids| {
        end := |ids|;
      }
      ChunkCut(chunks, ids, i, size);
      chunks := chunks + [ids[i..end]];
      i := i + size;
    }
    AllCut(chunks, ids, i, size);
  }

  /** The sends of the goroutines in the order in which they finish, into two channels of the given capacity:
      there is room for every one of them. */
  method Collect(answers: seq<Option<seq<Episode>>>, order: seq<nat>, capacity: nat)
    returns (ch: seq<seq<Episode>>, errors: nat)
    requires |order| <= capacity && forall k :: 0 <= k < |order| ==> order[k] < |answers|
    ensures ch == Delivered(answers, order) && errors == Errors(answers, order)
    ensures |ch| + errors == |order| <= capacity
  {
    ch, errors := [], 0;
    var n := 0;
    while n < |order|
      invariant 0 <= n <= |order| && |ch| + errors == n
      invariant ch == Delivered(answers, order[..n]) && errors == Errors(answers, order[..n])
    {
      assert order[..n + 1][..n] == order[..n];
      assert |ch| < capacity && errors < capacity;
      if answers[order[n]].None? {
        errors := errors + 1;
      } else {
        ch := ch + [answers[order[n]].value];
      }
      n := n + 1;
    }
    assert order[..n] == order;
  }

  method Drain(ch: seq<seq<Episode>>) returns (out: seq<Episode>)
    ensures out == Concat(ch)
  {
    out := [];
    var c := 0;
    while c < |ch|
      invariant 0 <= c <= |ch| && out == Concat(ch[..c])
    {
      ConcatAppend(ch[..c], ch[c]);
      assert ch[..c + 1] == ch[..c] + [ch[c]];
      out := out + ch[c];
      c := c + 1;
    }
    assert ch[..c] == ch;
  }

  /** fetchEpisodesConcurrently with the answers its goroutines get and the order in which they finish. The
      channels have room for every send; any error is an error of the whole, and otherwise the result answers
      the whole list. */
  method FetchEpisodesConcurrently(
      ids: seq<string>, chunkSize: int, answers: seq<Option<seq<Episode>>>, order: seq<nat>,
      ghost table: map<string, Episode>)
    returns (r: Option<seq<Episode>>)
    requires AllAnswer(table, Tasks(ids, SizeOrDefault(chunkSize)), answers) && IsOrder(order, |answers|)
    ensures r.None? <==> exists k :: 0 <= k < |answers| && answers[k].None?
    ensures r.Some? ==> IsAnswer(table, ids, r.value)
    ensures
      var size := if chunkSize <= 0 then 20 else chunkSize;
      |answers| == (|ids| + size - 1) / size
  {
    if |ids| == 0 {
      return Some([]);
    }
    var size := if chunkSize <= 0 then 20 else chunkSize;
    var tasks := (|ids| + size - 1) / size;
    TasksPartition(ids, size);
    var chunks := CutIntoChunks(ids, size);
    assert |chunks| == tasks == |order|;
    var ch, errors := Collect(answers, order, tasks);
    ErrorsCount(answers, order);
    if errors > 0 {
      return None;
    }
    assert forall k :: 0 <= k < |answers| ==> k in order && answers[k].Some?;
    var out := Drain(ch);
    ChunksAnswerList(table, ids, size, answers, order);
    return Some(out);
  }

  // ---- the join ----

  datatype Item = Item(episode: Episode, progress: Progress)

  /** The episode shown for a progress row: the catalog's when it knows one, otherwise only its id. */
  function Shown(known: map<string, Episode>, p: Progress): Item {
    if p.episodeId in known then Item(known[p.episodeId], p)
    else Item(Episode(p.episodeId, "", 0, "", ""), p)
  }

  function Present(items: seq<Option<Progress>>): seq<Progress> {
    if items == [] then []
    else
      var before, last := Present(items[..|items| - 1]), items[|items| - 1];
      if last.Some? then before + [last.value] else before
  }

  lemma {:induction false} PresentIsGiven(items: seq<Option<Progress>>, p: Progress)
    ensures p in Present(items) <==> Some(p) in items
  {
    if items != [] {
      var before, last := items[..|items| - 1], items[|items| - 1];
      PresentIsGiven(before, p);
      assert items == before + [last];
    }
  }

  lemma {:induction false} AllPresent(items: seq<Option<Progress>>)
    requires forall i :: 0 <= i < |items| ==> items[i].Some?
    ensures |Present(items)| == |items| && forall i :: 0 <= i < |items| ==> Present(items)[i] == items[i].value
  {
    if items != [] {
      AllPresent(items[..|items| - 1]);
    }
  }

  function EpisodeIds(ps: seq<Progress>): (ids: seq<string>)
    ensures |ids| == |ps| && forall k :: 0 <= k < |ps| ==> ids[k] == ps[k].episodeId
  {
    seq(|ps|, k requires 0 <= k < |ps| => ps[k].episodeId)
  }

  /** The handler's three loops, one method each. */
  method IdsToFetch(items: seq<Option<Progress>>) returns (epIds: seq<string>)
    ensures epIds == EpisodeIds(Present(items))
  {
    epIds := [];
    var i := 0;
    while i < |items|
      invariant 0 <= i <= |items| && epIds == EpisodeIds(Present(items[..i]))
    {
      assert items[..i + 1][..i] == items[..i];
      if items[i].Some? {
        epIds := epIds + [items[i].value.episodeId];
      }
      i := i + 1;
    }
    assert items[..i] == items;
  }

  method ById(episodes: seq<Episode>) returns (meta: map<string, Episode>)
    ensures meta == MetaOf(episodes)
  {
    meta := map[];
    var e := 0;
    while e < |episodes|
      invariant 0 <= e <= |episodes| && meta == MetaOf(episodes[..e])
    {
      assert episodes[..e + 1][..e] == episodes[..e];
      meta := meta[episodes[e].id := episodes[e]];
      e := e + 1;
    }
    assert episodes[..e] == episodes;
  }

  method Join(items: seq<Option<Progress>>, meta: map<string, Episode>) returns (out: seq<Item>)
    ensures |out| == |Present(items)| && forall k :: 0 <= k < |out| ==> out[k] == Shown(meta, Present(items)[k])
  {
    out := [];
    var i := 0;
    while i < |items|
      invariant 0 <= i <= |items| && |out| == |Present(items[..i])|
      invariant forall k :: 0 <= k < |out| ==> out[k] == Shown(meta, Present(items[..i])[k])
    {
      assert items[..i + 1][..i] == items[..i];
      if items[i].Some? {
        var p := items[i].value;
        if p.episodeId in meta {
          out := out + [Item(meta[p.episodeId], p)];
        } else {
          out := out + [Item(Episode(p.episodeId, "", 0, "", ""), p)];
        }
      }
      i := i + 1;
    }
    assert items[..i] == items;
  }

  /** The joined items in their fields: each shows one of the given rows with the table's episode, when it has one. */
  lemma JoinInFields(table: map<string, Episode>, items: seq<Option<Progress>>, out: seq<Item>)
    requires Keyed(table) && |out| == |Present(items)|
    requires forall k :: 0 <= k < |out| ==> out[k] == Shown(table, Present(items)[k])
    ensures forall k :: 0 <= k < |out| ==>
      && Some(out[k].progress) in items
      && var id := out[k].progress.episodeId;
      if id in table then out[k].episode == table[id] && out[k].episode.id == id
      else out[k].episode.id == id && out[k].episode.title == ""
  {
    forall k | 0 <= k < |out| ensures Some(out[k].progress) in items {
      PresentIsGiven(items, Present(items)[k]);
    }
  }

  lemma EveryItemShown(table: map<string, Episode>, items: seq<Option<Progress>>, out: seq<Item>)
    requires |out| == |Present(items)|
    requires forall k :: 0 <= k < |out| ==> out[k] == Shown(table, Present(items)[k])
    ensures forall i :: 0 <= i < |items| && items[i].Some? ==>
      exists k :: 0 <= k < |out| && out[k].progress == items[i].value
    ensures (forall i :: 0 <= i < |items| ==> items[i].Some?) ==>
      |out| == |items| && forall i :: 0 <= i < |items| ==> out[i].progress == items[i].value
  {
    if forall i :: 0 <= i < |items| ==> items[i].Some? {
      AllPresent(items);
    }
    forall i | 0 <= i < |items| && items[i].Some?
      ensures exists k :: 0 <= k < |out| && out[k].progress == items[i].value
    {
      PresentIsGiven(items, items[i].value);
      var k :| 0 <= k < |Present(items)| && Present(items)[k] == items[i].value;
      assert out[k] == Shown(table, Present(items)[k]);
    }
  }

  /** The body of the ContinueWatching handler. Its answer is the activity's items in their order, each with
      what the catalog knows of its episode: chunking and concurrency leave no trace. */
  method ContinueWatching(
      items: seq<Option<Progress>>, answers: seq<Option<seq<Episode>>>, order: seq<nat>,
      ghost table: map<string, Episode>)
    returns (r: Option<seq<Item>>)
    requires Keyed(table) && AllAnswer(table, Tasks(EpisodeIds(Present(items)), 20), answers)
    requires IsOrder(order, |answers|)
    ensures r.None? <==> exists k :: 0 <= k < |answers| && answers[k].None?
    ensures r.Some? ==>
        |r.value| == |Present(items)| && forall k :: 0 <= k < |r.value| ==>
            r.value[k] == Shown(table, Present(items)[k])
    ensures r.Some? ==>
      && (forall k :: 0 <= k < |r.value| ==>
            && Some(r.value[k].progress) in items
            && var id := r.value[k].progress.episodeId;
            if id in table then r.value[k].episode == table[id] && r.value[k].episode.id == id
            else r.value[k].episode.id == id && r.value[k].episode.title == "")
      && (forall i :: 0 <= i < |items| && items[i].Some? ==>
            exists k :: 0 <= k < |r.value| && r.value[k].progress == items[i].value)
      && ((forall i :: 0 <= i < |items| ==> items[i].Some?) ==>
            |r.value| == |items| && forall i :: 0 <= i < |items| ==> r.value[i].progress == items[i].value)
  {
    var epIds := IdsToFetch(items);
    var meta: map<string, Episode> := map[];
    if |epIds| > 0 {
      var episodes := FetchEpisodesConcurrently(epIds, 20, answers, order, table);
      if episodes.None? {
        return None;
      }
      meta := ById(episodes.value);
      MetaOfOneCall(table, epIds, episodes.value);
    }
    assert meta == Known(table, epIds);
    var out := Join(items, meta);
    forall k | 0 <= k < |out| ensures out[k] == Shown(table, Present(items)[k]) {
      assert epIds[k] == Present(items)[k].episodeId && epIds[k] in epIds;
    }
    JoinInFields(table, items, out);
    EveryItemShown(table, items, out);
    return Some(out);
  }
}
