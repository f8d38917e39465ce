/** Thread listing: what one page holds in each store, and what following the cursors adds up to. */
module Threads {
  import opened CommentTables
  import opened Keyset
  import opened Pieces
  import opened Text
  import opened Wrappers

  datatype Sort = New | Top

  datatype Store = Postgres | Memory

  function KeyOf(sort: Sort, c: Comment): Key {
    Key(if sort.Top? then c.score else 0, c.createdAt, c.id)
  }

  predicate IsRoot(c: Comment, animeId: string) {
    c.animeId == animeId && c.parentId.None?
  }

  function RootKeys(t: Tables, animeId: string, sort: Sort): set<Key> {
    set id | id in t.comments && IsRoot(t.comments[id], animeId) :: KeyOf(sort, t.comments[id])
  }

  /** What the column types guarantee: ids are keys, and numbers fit 64 bits. */
  ghost predicate WellTyped(t: Tables) {
    forall id :: id in t.comments ==>
      && id != "" && t.comments[id].id == id && IsBytes(id)
      && InInt64(t.comments[id].createdAt) && InInt64(t.comments[id].score)
  }

  function PageSize(limit: int): nat {
    if limit <= 0 || limit > 100 then 50 else limit
  }

  // ---- cursors ----

  /** encodeNewCursor and encodeTopCursor. */
  function EncodeCursor(sort: Sort, k: Key): string {
    var tail := FormatInt(k.time) + ['|'] + k.id;
    Encode64(if sort.Top? then FormatInt(k.rank) + ['|'] + tail else tail, true)
  }

  function DecodeTail(rank: int, raw: string): Option<Key> {
    match Cut(raw, '|')
    case None => None
    case Some((time, id)) =>
      match ScanInt(time)
      case None => None
      case Some(n) => Some(Key(rank, n, id))
  }

  /** decodeNewCursor and decodeTopCursor. */
  function DecodeCursor(sort: Sort, cursor: string): Option<Key> {
    match Decode64(cursor, true)
    case None => None
    case Some(raw) =>
      if sort.New? then DecodeTail(0, raw)
      else
        match Cut(raw, '|')
        case None => None
        case Some((score, tail)) =>
          match ScanInt(score)
          case None => None
          case Some(n) => DecodeTail(n, tail)
  }

  lemma TailRoundTrip(rank: int, time: int, id: string)
    requires InInt64(time)
    ensures DecodeTail(rank, FormatInt(time) + ['|'] + id) == Some(Key(rank, time, id))
  {
    FormatIntIsDecimal(time);
    DecimalRoundTrip(time);
    CutJoined(FormatInt(time), '|', id);
  }

  lemma JoinedIsBytes(n: int, tail: string)
    requires IsBytes(tail)
    ensures IsBytes(FormatInt(n) + ['|'] + tail)
  {
    FormatIntIsDecimal(n);
  }

  lemma CursorRoundTrip(sort: Sort, k: Key)
    requires InInt64(k.rank) && InInt64(k.time) && IsBytes(k.id) && (sort.New? ==> k.rank == 0)
    ensures DecodeCursor(sort, EncodeCursor(sort, k)) == Some(k) && EncodeCursor(sort, k) != ""
  {
    var tail := FormatInt(k.time) + ['|'] + k.id;
    var raw := if sort.Top? then FormatInt(k.rank) + ['|'] + tail else tail;
    TailRoundTrip(k.rank, k.time, k.id);
    JoinedIsBytes(k.time, k.id);
    JoinedIsBytes(k.rank, tail);
    Base64RoundTrip(raw, true);
    EncodedAlphabet(raw, true);
    if sort.Top? {
      FormatIntIsDecimal(k.rank);
      DecimalRoundTrip(k.rank);
      CutJoined(FormatInt(k.rank), '|', tail);
    }
  }

  // ---- one page ----

  function CursorText(store: Store, sort: Sort): Key -> string {
    k => if store.Postgres? then EncodeCursor(sort, k) else k.id
  }

  /** The page below a key: up to size + 1 roots are read. */
  ghost function PageBelow(t: Tables, animeId: string, sort: Sort, limit: int, c: Option<Key>): Page {
    var rows := Take(Sorted(Below(RootKeys(t, animeId, sort), c)), PageSize(limit) + 1);
    FirstPage(CursorText(Postgres, sort), rows, PageSize(limit))
  }

  /** The Postgres page: the one strictly below the decoded cursor. */
  ghost function PostgresPage(t: Tables, animeId: string, sort: Sort, limit: int, cursor: string): Result<Page, ()> {
    var decoded := if cursor == "" then None else DecodeCursor(sort, cursor);
    if cursor != "" && decoded.None? then Err(())
    else
      Ok(PageBelow(t, animeId, sort, limit, decoded))
  }

  function IndexOfId(list: seq<Key>, id: string): (i: nat)
    ensures i <= |list| && (i < |list| ==> list[i].id == id)
    ensures forall j :: 0 <= j < i ==> list[j].id != id
  {
    if list == [] || list[0].id == id then 0 else 1 + IndexOfId(list[1..], id)
  }

  /** How many entries the in-memory store skips; none for an unknown cursor. */
  function Skipped(list: seq<Key>, cursor: string): (n: nat)
    ensures n <= |list|
  {
    var i := IndexOfId(list, cursor);
    if cursor != "" && i < |list| then i + 1 else 0
  }

  ghost function MemoryPage(t: Tables, animeId: string, sort: Sort, limit: int, cursor: string): Page {
    var list := Sorted(RootKeys(t, animeId, sort));
    FirstPage(CursorText(Memory, sort), list[Skipped(list, cursor)..], PageSize(limit))
  }

  /** How a store answers the requests for one listing. */
  ghost function AnswerOf(store: Store, t: Tables, animeId: string, sort: Sort, limit: int): Answer {
    cursor =>
      if store.Postgres? then PostgresPage(t, animeId, sort, limit, cursor)
      else Ok(MemoryPage(t, animeId, sort, limit, cursor))
  }

  lemma RootKeyFacts(t: Tables, animeId: string, sort: Sort, k: Key)
    requires WellTyped(t) && k in RootKeys(t, animeId, sort)
    ensures InInt64(k.rank) && InInt64(k.time) && IsBytes(k.id) && k.id != "" && (sort.New? ==> k.rank == 0)
    ensures k.id in t.comments && KeyOf(sort, t.comments[k.id]) == k
  {
  }

  lemma PostgresFirst(t: Tables, animeId: string, sort: Sort, limit: int)
    ensures
      var keys, text, size := RootKeys(t, animeId, sort), CursorText(Postgres, sort), PageSize(limit);
      AnswerOf(Postgres, t, animeId, sort, limit)("") == Ok(FirstPage(text, Sorted(keys), size))
  {
    TakeOneMore(CursorText(Postgres, sort), Sorted(RootKeys(t, animeId, sort)), PageSize(limit));
    assert Below(RootKeys(t, animeId, sort), None) == RootKeys(t, animeId, sort);
  }

  lemma PostgresNext(t: Tables, animeId: string, sort: Sort, limit: int, k: Key)
    requires WellTyped(t) && k in RootKeys(t, animeId, sort)
    ensures
      var keys, text, size := RootKeys(t, animeId, sort), CursorText(Postgres, sort), PageSize(limit);
      text(k) != "" && AnswerOf(Postgres, t, animeId, sort, limit)(text(k))
          == Ok(FirstPage(text, Sorted(Below(keys, Some(k))), size))
  {
    RootKeyFacts(t, animeId, sort, k);
    CursorRoundTrip(sort, k);
    TakeOneMore(CursorText(Postgres, sort), Sorted(Below(RootKeys(t, animeId, sort), Some(k))), PageSize(limit));
  }

  lemma PostgresLists(t: Tables, animeId: string, sort: Sort, limit: int)
    requires WellTyped(t)
    ensures Lists(AnswerOf(Postgres, t, animeId, sort, limit), CursorText(Postgres, sort), RootKeys(t, animeId, sort),
                  PageSize(limit))
  {
    var keys, text, size := RootKeys(t, animeId, sort), CursorText(Postgres, sort), PageSize(limit);
    PostgresFirst(t, animeId, sort, limit);
    forall k | k in keys
      ensures text(k) != ""
      ensures AnswerOf(Postgres, t, animeId, sort, limit)(text(k))
          == Ok(FirstPage(text, Sorted(Below(keys, Some(k))), size))
    {
      PostgresNext(t, animeId, sort, limit, k);
    }
  }

  lemma IdsDiffer(t: Tables, animeId: string, sort: Sort, list: seq<Key>)
    requires WellTyped(t) && Descending(list) && Elements(list) <= RootKeys(t, animeId, sort)
    ensures forall i, j :: 0 <= i < j < |list| ==> list[i].id != list[j].id
  {
    forall i, j | 0 <= i < j < |list| ensures list[i].id != list[j].id {
      assert list[i] in Elements(list) && list[j] in Elements(list);
      RootKeyFacts(t, animeId, sort, list[i]);
      RootKeyFacts(t, animeId, sort, list[j]);
      LessIsTotal(list[i], list[i]);
    }
  }

  lemma MemoryFirst(t: Tables, animeId: string, sort: Sort, limit: int)
    ensures
      var keys, text, size := RootKeys(t, animeId, sort), CursorText(Memory, sort), PageSize(limit);
      AnswerOf(Memory, t, animeId, sort, limit)("") == Ok(FirstPage(text, Sorted(keys), size))
  {
    var list := Sorted(RootKeys(t, animeId, sort));
    assert list[0..] == list;
  }

  lemma SkipsTo(list: seq<Key>, m: nat)
    requires m < |list| && list[m].id != "" && forall i, j :: 0 <= i < j < |list| ==> list[i].id != list[j].id
    ensures Skipped(list, list[m].id) == m + 1
  {
    assert IndexOfId(list, list[m].id) == m;
  }

  lemma MemoryNext(t: Tables, animeId: string, sort: Sort, limit: int, k: Key)
    requires WellTyped(t) && k in RootKeys(t, animeId, sort)
    ensures
      var keys, text, size := RootKeys(t, animeId, sort), CursorText(Memory, sort), PageSize(limit);
      text(k) != "" && AnswerOf(Memory, t, animeId, sort, limit)(text(k))
          == Ok(FirstPage(text, Sorted(Below(keys, Some(k))), size))
  {
    var keys := RootKeys(t, animeId, sort);
    var list := Sorted(keys);
    RootKeyFacts(t, animeId, sort, k);
    assert k in Elements(list);
    var m: nat :| m < |list| && list[m] == k;
    IdsDiffer(t, animeId, sort, list);
    SkipsTo(list, m);
    SortedBelowElement(keys, m);
  }

  lemma MemoryLists(t: Tables, animeId: string, sort: Sort, limit: int)
    requires WellTyped(t)
    ensures Lists(AnswerOf(Memory, t, animeId, sort, limit), CursorText(Memory, sort), RootKeys(t, animeId, sort),
                  PageSize(limit))
  {
    var keys, text, size := RootKeys(t, animeId, sort), CursorText(Memory, sort), PageSize(limit);
    MemoryFirst(t, animeId, sort, limit);
    forall k | k in keys
      ensures text(k) != ""
      ensures AnswerOf(Memory, t, animeId, sort, limit)(text(k))
          == Ok(FirstPage(text, Sorted(Below(keys, Some(k))), size))
    {
      MemoryNext(t, animeId, sort, limit, k);
    }
  }

  lemma StoreLists(store: Store, t: Tables, animeId: string, sort: Sort, limit: int)
    requires WellTyped(t)
    ensures Lists(AnswerOf(store, t, animeId, sort, limit), CursorText(store, sort), RootKeys(t, animeId, sort),
                  PageSize(limit))
  {
    PostgresLists(t, animeId, sort, limit);
    MemoryLists(t, animeId, sort, limit);
  }

  // ---- "new" listing while others write ----

  lemma RootsPersist(t: Tables, u: Tables, animeId: string)
    requires WellTyped(t) && Extends(t, u)
    ensures RootKeys(t, animeId, New) <= RootKeys(u, animeId, New)
  {
    forall k | k in RootKeys(t, animeId, New) ensures k in RootKeys(u, animeId, New) {
      RootKeyFacts(t, animeId, New, k);
      assert k == KeyOf(New, u.comments[k.id]);
    }
  }

  /** Other users may create, edit, delete and vote between any two pages. */
  ghost predicate Growing(ts: seq<Tables>) {
    && (forall i :: 0 <= i < |ts| ==> WellTyped(ts[i]))
    && (forall i :: 0 < i < |ts| ==> Extends(ts[i - 1], ts[i]))
  }

  function RootSets(ts: seq<Tables>, animeId: string): (sets: seq<set<Key>>)
    ensures |sets| == |ts| && forall i :: 0 <= i < |ts| ==> sets[i] == RootKeys(ts[i], animeId, New)
  {
    seq(|ts|, i requires 0 <= i < |ts| => RootKeys(ts[i], animeId, New))
  }

  lemma {:induction false} RootSetsNested(ts: seq<Tables>, animeId: string, i: nat, j: nat)
    requires Growing(ts) && i <= j < |ts|
    ensures RootSets(ts, animeId)[i] <= RootSets(ts, animeId)[j]
    decreases j
  {
    if i < j {
      RootSetsNested(ts, animeId, i, j - 1);
      RootsPersist(ts[j - 1], ts[j], animeId);
    }
  }

  /** Page i is answered on table ts[i]. */
  ghost function Answers(store: Store, ts: seq<Tables>, animeId: string, sort: Sort, limit: int): (a: seq<Answer>)
    ensures |a| == |ts| && forall i :: 0 <= i < |ts| ==> a[i] == AnswerOf(store, ts[i], animeId, sort, limit)
  {
    seq(|ts|, i requires 0 <= i < |ts| => AnswerOf(store, ts[i], animeId, sort, limit))
  }

  /** Listing by "new" is exact while other users write, in either store: the pages are strictly descending, so no
      root comes twice, they hold only roots, and every root present before the first page is
      there. */
  lemma NewWalkIsExact(store: Store, ts: seq<Tables>, animeId: string, limit: int, pages: seq<Page>)
    requires IsWalk(Answers(store, ts, animeId, New, limit), "", pages) && Growing(ts)
    ensures
      var all := Concat(Listed(pages));
      && Descending(all)
      && (forall i, j :: 0 <= i < j < |all| ==> all[i].id != all[j].id)
      && RootKeys(ts[0], animeId, New) <= Elements(all) <= RootKeys(ts[|ts| - 1], animeId, New)
  {
    var sets, answers := RootSets(ts, animeId), Answers(store, ts, animeId, New, limit);
    forall i, j | 0 <= i <= j < |sets| ensures sets[i] <= sets[j] {
      RootSetsNested(ts, animeId, i, j);
    }
    forall i | 0 <= i < |sets|
      ensures Lists(answers[i], CursorText(store, New), sets[i], PageSize(limit))
    {
      StoreLists(store, ts[i], animeId, New, limit);
    }
    WalkOfKeys(answers, CursorText(store, New), sets, PageSize(limit), pages, None);
    KeysetWalkIsExact(sets, PageSize(limit), Listed(pages), None);
    IdsDiffer(ts[|ts| - 1], animeId, New, Concat(Listed(pages)));
  }

  // ---- a fixed table: both stores, both orders ----

  function Steady(t: Tables, n: nat): seq<Tables> {
    seq(n, _ => t)
  }

  /** Over fixed comments a walk in either store and either order is one thing only: the sorted
      roots cut into pages. In particular it ends. */
  lemma FixedThread(store: Store, t: Tables, animeId: string, sort: Sort, limit: int, pages: seq<Page>)
    requires WellTyped(t)
    ensures
      IsWalk(Answers(store, Steady(t, |pages|), animeId, sort, limit), "", pages) <==>
        pages == Expected(CursorText(store, sort), Sorted(RootKeys(t, animeId, sort)), PageSize(limit))
  {
    StoreLists(store, t, animeId, sort, limit);
    FixedWalk(Answers(store, Steady(t, |pages|), animeId, sort, limit), AnswerOf(store, t, animeId, sort, limit),
              CursorText(store, sort), RootKeys(t, animeId, sort), PageSize(limit), pages, None);
  }

  /** Two stores, one thread: over the same comments the keyset walk and the in-memory walk exist,
      end, and list the same pages of roots, each root once. */
  lemma StoresAgree(t: Tables, animeId: string, sort: Sort, limit: int)
    requires WellTyped(t)
    ensures
      var list := Sorted(RootKeys(t, animeId, sort));
      var p := Expected(CursorText(Postgres, sort), list, PageSize(limit));
      var q := Expected(CursorText(Memory, sort), list, PageSize(limit));
      && IsWalk(Answers(Postgres, Steady(t, |p|), animeId, sort, limit), "", p)
      && IsWalk(Answers(Memory, Steady(t, |q|), animeId, sort, limit), "", q)
      && Listed(p) == Listed(q) == Chunks(list, PageSize(limit))
      && Concat(Listed(p)) == list
  {
    var list, size := Sorted(RootKeys(t, animeId, sort)), PageSize(limit);
    FixedThread(Postgres, t, animeId, sort, limit, Expected(CursorText(Postgres, sort), list, size));
    FixedThread(Memory, t, animeId, sort, limit, Expected(CursorText(Memory, sort), list, size));
    ExpectedIsChunks(CursorText(Postgres, sort), list, size);
    ExpectedIsChunks(CursorText(Memory, sort), list, size);
    ChunksCover(list, size);
  }

  // ---- what a walk shows, in the fields of the comments ----

  /** A listing of roots comes by score, when the order is "top", then by time and id, all decreasing. */
  lemma FieldOrder(t: Tables, animeId: string, sort: Sort, k: Key, l: Key)
    requires forall id :: id in t.comments ==> t.comments[id].id == id
    requires k in RootKeys(t, animeId, sort) && l in RootKeys(t, animeId, sort) && Less(l, k)
    ensures k.id in t.comments && l.id in t.comments
    ensures
      var a, b := t.comments[k.id], t.comments[l.id];
      || (sort.Top? && a.score > b.score)
      || ((sort.New? || a.score == b.score) && a.createdAt > b.createdAt)
      || ((sort.New? || a.score == b.score) && a.createdAt == b.createdAt
          && exists n :: 0 <= n < |a.id| && n <= |b.id| && a.id[..n] == b.id[..n]
               && (n == |b.id| || a.id[n] > b.id[n]))
  {
    if k.rank == l.rank && k.time == l.time {
      TextDiffers(k.id, l.id);
    }
  }

  /** Over fixed comments a walk, in either store and either order, shows exactly the comments on the anime that
      have no parent, each once, ordered by their score, when the order is "top", their time and their id. */
  lemma WalkShowsThread(store: Store, t: Tables, animeId: string, sort: Sort, limit: int, pages: seq<Page>)
    returns (all: seq<Key>)
    requires WellTyped(t) && IsWalk(Answers(store, Steady(t, |pages|), animeId, sort, limit), "", pages)
    ensures all == Concat(Listed(pages))
    ensures forall i :: 0 <= i < |all| ==>
      && all[i].id in t.comments
      && t.comments[all[i].id].animeId == animeId && t.comments[all[i].id].parentId == None
    ensures forall id :: id in t.comments && t.comments[id].animeId == animeId && t.comments[id].parentId == None ==>
      exists i :: 0 <= i < |all| && all[i].id == id
    ensures forall i, j :: 0 <= i < j < |all| ==> all[i].id != all[j].id
    ensures
      forall i, j :: 0 <= i < j < |all| ==>
        var a, b := t.comments[all[i].id], t.comments[all[j].id];
        || (sort.Top? && a.score > b.score)
        || ((sort.New? || a.score == b.score) && a.createdAt > b.createdAt)
        || ((sort.New? || a.score == b.score) && a.createdAt == b.createdAt
            && exists n :: 0 <= n < |a.id| && n <= |b.id| && a.id[..n] == b.id[..n]
                 && (n == |b.id| || a.id[n] > b.id[n]))
  {
    all := Sorted(RootKeys(t, animeId, sort));
    WalkIsListing(store, t, animeId, sort, limit, pages);
    ListShowsThread(t, animeId, sort, all);
  }

  lemma ListShowsThread(t: Tables, animeId: string, sort: Sort, all: seq<Key>)
    requires WellTyped(t) && all == Sorted(RootKeys(t, animeId, sort))
    ensures forall i :: 0 <= i < |all| ==>
      && all[i].id in t.comments
      && t.comments[all[i].id].animeId == animeId && t.comments[all[i].id].parentId == None
    ensures forall id :: id in t.comments && t.comments[id].animeId == animeId && t.comments[id].parentId == None ==>
      exists i :: 0 <= i < |all| && all[i].id == id
    ensures forall i, j :: 0 <= i < j < |all| ==> all[i].id != all[j].id
    ensures
      forall i, j :: 0 <= i < j < |all| ==>
        var a, b := t.comments[all[i].id], t.comments[all[j].id];
        || (sort.Top? && a.score > b.score)
        || ((sort.New? || a.score == b.score) && a.createdAt > b.createdAt)
        || ((sort.New? || a.score == b.score) && a.createdAt == b.createdAt
            && exists n :: 0 <= n < |a.id| && n <= |b.id| && a.id[..n] == b.id[..n]
                 && (n == |b.id| || a.id[n] > b.id[n]))
  {
    ListShowsRoots(t, animeId, sort, all);
    ListIsOrdered(t, animeId, sort, all);
  }

  lemma WalkIsListing(store: Store, t: Tables, animeId: string, sort: Sort, limit: int, pages: seq<Page>)
    requires WellTyped(t) && IsWalk(Answers(store, Steady(t, |pages|), animeId, sort, limit), "", pages)
    ensures Concat(Listed(pages)) == Sorted(RootKeys(t, animeId, sort))
  {
    var keys, size, text := RootKeys(t, animeId, sort), PageSize(limit), CursorText(store, sort);
    FixedThread(store, t, animeId, sort, limit, pages);
    ExpectedIsChunks(text, Sorted(keys), size);
    ChunksCover(Sorted(keys), size);
  }

  lemma ListShowsRoots(t: Tables, animeId: string, sort: Sort, all: seq<Key>)
    requires WellTyped(t) && all == Sorted(RootKeys(t, animeId, sort))
    ensures forall i :: 0 <= i < |all| ==>
      && all[i].id in t.comments
      && t.comments[all[i].id].animeId == animeId && t.comments[all[i].id].parentId == None
    ensures forall id :: id in t.comments && t.comments[id].animeId == animeId && t.comments[id].parentId == None ==>
      exists i :: 0 <= i < |all| && all[i].id == id
    ensures forall i, j :: 0 <= i < j < |all| ==> all[i].id != all[j].id
  {
    IdsDiffer(t, animeId, sort, all);
    assert forall i :: 0 <= i < |all| ==> all[i] in Elements(all);
    forall id | id in t.comments && t.comments[id].animeId == animeId && t.comments[id].parentId == None
      ensures exists i :: 0 <= i < |all| && all[i].id == id
    {
      assert KeyOf(sort, t.comments[id]) in Elements(all);
      var i :| 0 <= i < |all| && all[i] == KeyOf(sort, t.comments[id]);
    }
  }

  lemma ListIsOrdered(t: Tables, animeId: string, sort: Sort, all: seq<Key>)
    requires forall id :: id in t.comments ==> t.comments[id].id == id
    requires Descending(all) && Elements(all) <= RootKeys(t, animeId, sort)
    ensures forall i :: 0 <= i < |all| ==> all[i].id in t.comments
    ensures forall i, j :: 0 <= i < j < |all| ==>
      var a, b := t.comments[all[i].id], t.comments[all[j].id];
      || (sort.Top? && a.score > b.score)
      || ((sort.New? || a.score == b.score) && a.createdAt > b.createdAt)
      || ((sort.New? || a.score == b.score) && a.createdAt == b.createdAt
          && exists n :: 0 <= n < |a.id| && n <= |b.id| && a.id[..n] == b.id[..n]
               && (n == |b.id| || a.id[n] > b.id[n]))
  {
    assert forall i :: 0 <= i < |all| ==> all[i] in Elements(all);
    forall i, j | 0 <= i < j < |all|
      ensures
        var a, b := t.comments[all[i].id], t.comments[all[j].id];
        || (sort.Top? && a.score > b.score)
        || ((sort.New? || a.score == b.score) && a.createdAt > b.createdAt)
        || ((sort.New? || a.score == b.score) && a.createdAt == b.createdAt
            && exists n :: 0 <= n < |a.id| && n <= |b.id| && a.id[..n] == b.id[..n]
                 && (n == |b.id| || a.id[n] > b.id[n]))
    {
      FieldOrder(t, animeId, sort, all[i], all[j]);
    }
  }
}
