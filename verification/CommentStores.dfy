/** The two comment stores behind one interface: comments_postgres.go and comments_memory.go. */
module CommentStores {
  import opened CommentHistory
  import opened CommentTables
  import opened IdempotentBatches
  import opened Keyset
  import opened Pieces
  import opened Threads
  import opened Wrappers

  datatype Error = NotFoundOrForbidden | InvalidVote | InvalidCursor | Database

  /** A root with its direct replies. */
  datatype Node = Node(comment: Comment, replies: seq<Comment>)

  /** How a store reports a write: the error it returns and the tables it leaves. */
  ghost predicate Reports(before: Tables, op: Op, fk: bool, commit: CommitAnswer, rejection: Error,
                          failed: Option<Error>, after: Tables)
  {
    if commit.Fails? then failed == Some(Database) && after == before
    else
      match Execute(before, op, fk)
      case NotFound => failed == Some(NotFoundOrForbidden) && after == before
      case Rejected => failed == Some(rejection) && after == before
      case Done(t) => failed == (if commit.Commits? then None else Some(Database)) && after == t
  }

  // ---- selecting rows ----

  ghost predicate Keyed(rows: map<string, Comment>) {
    forall id :: id in rows ==> rows[id].id == id
  }

  /** `out` holds exactly the rows that satisfy `want`, each once. */
  ghost predicate Selects(rows: map<string, Comment>, want: Comment -> bool, out: seq<Comment>) {
    && (forall i :: 0 <= i < |out| ==> out[i].id in rows && rows[out[i].id] == out[i] && want(out[i]))
    && (forall i, j :: 0 <= i < j < |out| ==> out[i].id != out[j].id)
    && (forall id :: id in rows && want(rows[id]) ==> rows[id] in out)
  }

  /** A scan visits the rows in no particular order. */
  method Select(rows: map<string, Comment>, want: Comment -> bool) returns (out: seq<Comment>)
    requires Keyed(rows)
    ensures Selects(rows, want, out)
  {
    out := [];
    var rest := rows.Keys;
    while rest != {}
      invariant rest <= rows.Keys
      invariant forall i :: 0 <= i < |out| ==>
        out[i].id in rows && out[i].id !in rest && rows[out[i].id] == out[i] && want(out[i])
      invariant forall i, j :: 0 <= i < j < |out| ==> out[i].id != out[j].id
      invariant forall id :: id in rows && id !in rest && want(rows[id]) ==> rows[id] in out
      decreases |rest|
    {
      var id :| id in rest;
      rest := rest - {id};
      if want(rows[id]) {
        out := out + [rows[id]];
      }
    }
  }

  ghost predicate AreRows(rows: map<string, Comment>, out: seq<Comment>) {
    forall i :: 0 <= i < |out| ==> out[i].id in rows && rows[out[i].id] == out[i]
  }

  lemma SelectedElements(
      rows: map<string, Comment>, want: Comment -> bool, out: seq<Comment>, key: Comment -> Key, keys: set<Key>)
    requires Keyed(rows) && Selects(rows, want, out)
    requires keys == set id | id in rows && want(rows[id]) :: key(rows[id])
    ensures Elements(KeysOf(out, key)) == keys
  {
    forall k ensures k in KeysOf(out, key) <==> k in keys {
      if k in keys {
        var id :| id in rows && want(rows[id]) && key(rows[id]) == k;
        var i :| 0 <= i < |out| && out[i] == rows[id];
        assert KeysOf(out, key)[i] == k;
      }
      if k in KeysOf(out, key) {
        var i :| 0 <= i < |out| && KeysOf(out, key)[i] == k;
        assert out[i].id in rows;
      }
    }
  }

  /** Sorting the selected rows lists the keys of the selected rows. */
  lemma SelectedKeys(
      rows: map<string, Comment>, want: Comment -> bool, out: seq<Comment>, key: Comment -> Key, keys: set<Key>)
    requires Keyed(rows) && Selects(rows, want, out)
    requires forall c :: key(c).id == c.id
    requires keys == set id | id in rows && want(rows[id]) :: key(rows[id])
    ensures KeysOf(SortedRows(out, key), key) == Sorted(keys)
    ensures AreRows(rows, SortedRows(out, key))
  {
    forall i, j | 0 <= i < j < |out| ensures key(out[i]) != key(out[j]) {
      assert key(out[i]).id == out[i].id && key(out[j]).id == out[j].id;
    }
    SortedRowsDescend(out, key);
    SelectedElements(rows, want, out, key, keys);
    SameMembers(out, SortedRows(out, key));
    forall i | 0 <= i < |SortedRows(out, key)| ensures SortedRows(out, key)[i] in out {
    }
  }

  // ---- replies ----

  predicate Ascending(rows: seq<Comment>) {
    forall i, j :: 0 <= i < j < |rows| ==> rows[i].createdAt <= rows[j].createdAt
  }

  /** Orders by created_at; rows with equal times keep the order in which the scan met them. */
  function ByTime(rows: seq<Comment>): seq<Comment> {
    SortedRows(rows, OldestFirst())
  }

  function OldestFirst(): Comment -> Key {
    (c: Comment) => Key(0, -c.createdAt, "")
  }

  lemma ByTimeAscends(rows: seq<Comment>)
    ensures Ascending(ByTime(rows)) && multiset(ByTime(rows)) == multiset(rows)
  {
    var s, key := ByTime(rows), OldestFirst();
    SortedRowsOrdered(rows, key);
    forall i, j | 0 <= i < j < |s| ensures s[i].createdAt <= s[j].createdAt {
      assert !Less(key(s[i]), key(s[j]));
    }
  }

  predicate IsReplyTo(c: Comment, id: string) {
    c.parentId == Some(id)
  }

  function ReplyTo(id: string): Comment -> bool {
    c => IsReplyTo(c, id)
  }

  function ReplyToAny(ids: set<string>): Comment -> bool {
    (c: Comment) => c.parentId.Some? && c.parentId.value in ids
  }

  function SortKey(sort: Sort): Comment -> Key {
    c => KeyOf(sort, c)
  }

  function RootBelow(animeId: string, sort: Sort, cursor: Option<Key>): Comment -> bool {
    c => IsRoot(c, animeId) && (cursor.None? || Less(KeyOf(sort, c), cursor.value))
  }

  /** `replies` are exactly the direct replies to a comment, oldest first. */
  ghost predicate AreReplies(t: Tables, id: string, replies: seq<Comment>) {
    Selects(t.comments, ReplyTo(id), replies) && Ascending(replies)
  }

  function IdKey(): Comment -> Key {
    (c: Comment) => Key(0, 0, c.id)
  }

  lemma SameReplies(t: Tables, id: string, a: seq<Comment>, b: seq<Comment>)
    requires AreReplies(t, id, a) && AreReplies(t, id, b)
    ensures multiset(a) == multiset(b)
  {
    forall c ensures multiset(a)[c] == multiset(b)[c] {
      DistinctKeysOnce(a, IdKey(), c);
      DistinctKeysOnce(b, IdKey(), c);
      if c in a {
        assert t.comments[c.id] in b;
      }
      if c in b {
        assert t.comments[c.id] in a;
      }
    }
  }

  /** Both stores give a root the same replies; only replies of one instant may change places. */
  lemma RepliesAgree(t: Tables, id: string, a: seq<Comment>, b: seq<Comment>)
    requires AreReplies(t, id, a) && AreReplies(t, id, b)
    ensures multiset(a) == multiset(b)
    ensures (forall i, j :: 0 <= i < j < |a| ==> a[i].createdAt != a[j].createdAt) ==> a == b
  {
    SameReplies(t, id, a, b);
    if forall i, j :: 0 <= i < j < |a| ==> a[i].createdAt != a[j].createdAt {
      assert |multiset(a)| == |multiset(b)|;
      SameMembers(a, b);
      SameOrder(a, b);
    }
  }

  lemma {:induction false} SameOrder(a: seq<Comment>, b: seq<Comment>)
    requires |a| == |b| && (forall c :: c in a <==> c in b)
    requires Ascending(a) && Ascending(b)
    requires forall i, j :: 0 <= i < j < |a| ==> a[i].createdAt != a[j].createdAt
    requires DistinctKeys(b, IdKey())
    ensures a == b
  {
    if a != [] {
      SameHead(a, b);
      forall c ensures c in a[1..] <==> c in b[1..] {
        RestHas(a, c);
        RestHas(b, c);
        assert forall i :: 0 < i < |a| ==> a[i] != a[0];
        assert forall i :: 0 < i < |b| ==> IdKey()(b[0]) != IdKey()(b[i]);
      }
      SameOrder(a[1..], b[1..]);
    }
  }

  lemma RestHas(s: seq<Comment>, c: Comment)
    requires s != [] && forall i :: 0 < i < |s| ==> s[i] != s[0]
    ensures c in s[1..] <==> c in s && c != s[0]
  {
    assert s == [s[0]] + s[1..];
  }

  lemma SameHead(a: seq<Comment>, b: seq<Comment>)
    requires a != [] && b != [] && Ascending(a) && Ascending(b)
    requires a[0] in b && b[0] in a
    requires forall i, j :: 0 <= i < j < |a| ==> a[i].createdAt != a[j].createdAt
    ensures a[0] == b[0]
  {
    var i :| 0 <= i < |a| && a[i] == b[0];
    var j :| 0 <= j < |b| && b[j] == a[0];
    assert i > 0 ==> a[0].createdAt < a[i].createdAt;
    assert j > 0 ==> b[0].createdAt <= b[j].createdAt;
  }

  /** The nodes show these roots, each with its replies. */
  ghost predicate ShowsRoots(t: Tables, roots: seq<Comment>, nodes: seq<Node>) {
    |nodes| == |roots|
    && forall i :: 0 <= i < |nodes| ==> nodes[i].comment == roots[i] && AreReplies(t, roots[i].id, nodes[i].replies)
  }

  /** The nodes show exactly the roots of a page. */
  ghost predicate Shows(t: Tables, keys: seq<Key>, nodes: seq<Node>) {
    |nodes| == |keys|
    && forall i :: 0 <= i < |nodes| ==>
         && keys[i].id in t.comments
         && nodes[i].comment == t.comments[keys[i].id]
         && AreReplies(t, keys[i].id, nodes[i].replies)
  }

  lemma ShowsPage(t: Tables, sort: Sort, roots: seq<Comment>, nodes: seq<Node>)
    requires AreRows(t.comments, roots) && ShowsRoots(t, roots, nodes)
    ensures Shows(t, KeysOf(roots, SortKey(sort)), nodes)
  {
  }

  /** The page that the first rows of a longer listing make. */
  lemma CutPage(text: Key -> string, rows: seq<Comment>, key: Comment -> Key, size: nat)
    requires size > 0
    ensures FirstPage(text, KeysOf(rows, key), size)
         == if |rows| > size then Page(KeysOf(rows[..size], key), text(key(rows[size - 1])))
            else Page(KeysOf(rows, key), "")
  {
    if |rows| > size {
      assert KeysOf(rows, key)[..size] == KeysOf(rows[..size], key);
    }
  }

  /** A page lists roots in descending order. */
  lemma BelowIsListing(t: Tables, animeId: string, sort: Sort, limit: int, c: Option<Key>)
    ensures
      var keys := PageBelow(t, animeId, sort, limit, c).keys;
      Descending(keys) && Elements(keys) <= RootKeys(t, animeId, sort)
  {
    var list, size := Sorted(Below(RootKeys(t, animeId, sort), c)), PageSize(limit);
    TakenIsListing(list, size + 1);
    TakenIsListing(Take(list, size + 1), size);
    assert PageBelow(t, animeId, sort, limit, c).keys == Take(Take(list, size + 1), size);
  }

  lemma TakenIsListing(list: seq<Key>, n: nat)
    requires Descending(list)
    ensures Descending(Take(list, n)) && Elements(Take(list, n)) <= Elements(list)
  {
  }

  lemma SkippedIsListing(t: Tables, animeId: string, sort: Sort, limit: int, cursor: string)
    ensures
      var keys := MemoryPage(t, animeId, sort, limit, cursor).keys;
      Descending(keys) && Elements(keys) <= RootKeys(t, animeId, sort)
  {
  }

  /** What the nodes are, in the fields of the comments. */
  lemma NodesInFields(t: Tables, animeId: string, sort: Sort, keys: seq<Key>, nodes: seq<Node>)
    requires Keyed(t.comments) && Shows(t, keys, nodes)
    requires Descending(keys) && Elements(keys) <= RootKeys(t, animeId, sort)
    ensures
      && (forall i :: 0 <= i < |nodes| ==>
            var c := nodes[i].comment;
            c.id in t.comments && t.comments[c.id] == c && c.animeId == animeId && c.parentId == None)
      && (forall i, j :: 0 <= i < j < |nodes| ==>
            var a, b := nodes[i].comment, nodes[j].comment;
            || (sort.Top? && a.score > b.score)
            || ((sort.New? || a.score == b.score) && a.createdAt > b.createdAt)
            || ((sort.New? || a.score == b.score) && a.createdAt == b.createdAt
                && exists n :: 0 <= n < |a.id| && n <= |b.id| && a.id[..n] == b.id[..n]
                     && (n == |b.id| || a.id[n] > b.id[n])))
      && (forall i :: 0 <= i < |nodes| ==>
            var id, replies := nodes[i].comment.id, nodes[i].replies;
            && (forall q :: q in replies ==> q.id in t.comments && t.comments[q.id] == q && q.parentId == Some(id))
            && (forall r :: r in t.comments && t.comments[r].parentId == Some(id) ==> t.comments[r] in replies)
            && (forall j, k :: 0 <= j < k < |replies| ==>
                  replies[j].id != replies[k].id && replies[j].createdAt <= replies[k].createdAt))
  {
    assert forall i :: 0 <= i < |keys| ==> keys[i] in Elements(keys);
    forall i, j | 0 <= i < j < |nodes|
      ensures
        var a, b := nodes[i].comment, nodes[j].comment;
        || (sort.Top? && a.score > b.score)
        || ((sort.New? || a.score == b.score) && a.createdAt > b.createdAt)
        || ((sort.New? || a.score == b.score) && a.createdAt == b.createdAt
            && exists n :: 0 <= n < |a.id| && n <= |b.id| && a.id[..n] == b.id[..n]
                 && (n == |b.id| || a.id[n] > b.id[n]))
    {
      FieldOrder(t, animeId, sort, keys[i], keys[j]);
    }
    forall i | 0 <= i < |nodes|
      ensures
        var id, replies := nodes[i].comment.id, nodes[i].replies;
        && (forall q :: q in replies ==> q.id in t.comments && t.comments[q.id] == q && q.parentId == Some(id))
        && (forall r :: r in t.comments && t.comments[r].parentId == Some(id) ==> t.comments[r] in replies)
        && (forall j, k :: 0 <= j < k < |replies| ==>
              replies[j].id != replies[k].id && replies[j].createdAt <= replies[k].createdAt)
    {
      assert AreReplies(t, keys[i].id, nodes[i].replies);
    }
  }

  lemma PageInFields(
      t: Tables, animeId: string, sort: Sort, limit: int, c: Option<Key>, nodes: seq<Node>, next: string)
    requires Keyed(t.comments)
    requires
      var page := PageBelow(t, animeId, sort, limit, c);
      Shows(t, page.keys, nodes) && next == page.next
    ensures
      var size := if limit <= 0 || limit > 100 then 50 else limit;
      |nodes| <= size && (next != "" ==> |nodes| == size)
    ensures
      && (forall i :: 0 <= i < |nodes| ==>
            var c := nodes[i].comment;
            c.id in t.comments && t.comments[c.id] == c && c.animeId == animeId && c.parentId == None)
      && (forall i, j :: 0 <= i < j < |nodes| ==>
            var a, b := nodes[i].comment, nodes[j].comment;
            || (sort.Top? && a.score > b.score)
            || ((sort.New? || a.score == b.score) && a.createdAt > b.createdAt)
            || ((sort.New? || a.score == b.score) && a.createdAt == b.createdAt
                && exists n :: 0 <= n < |a.id| && n <= |b.id| && a.id[..n] == b.id[..n]
                     && (n == |b.id| || a.id[n] > b.id[n])))
      && (forall i :: 0 <= i < |nodes| ==>
            var id, replies := nodes[i].comment.id, nodes[i].replies;
            && (forall q :: q in replies ==> q.id in t.comments && t.comments[q.id] == q && q.parentId == Some(id))
            && (forall r :: r in t.comments && t.comments[r].parentId == Some(id) ==> t.comments[r] in replies)
            && (forall j, k :: 0 <= j < k < |replies| ==>
                  replies[j].id != replies[k].id && replies[j].createdAt <= replies[k].createdAt))
  {
    BelowIsListing(t, animeId, sort, limit, c);
    NodesInFields(t, animeId, sort, PageBelow(t, animeId, sort, limit, c).keys, nodes);
  }

  lemma RootBelowKeys(t: Tables, animeId: string, sort: Sort, c: Option<Key>)
    ensures Below(RootKeys(t, animeId, sort), c)
         == set id | id in t.comments && RootBelow(animeId, sort, c)(t.comments[id]) :: SortKey(sort)(t.comments[id])
  {
  }

  // ---- runs of writes ----

  lemma KeyedAfter(t: Tables, op: Op, fk: bool)
    requires Keyed(t.comments)
    ensures Keyed(After(t, op, fk).comments)
  {
  }

  /** What the in-memory store holds: the tables after its writes, and rows that carry their own id. */
  ghost predicate IsRunOf(t: Tables, ops: seq<Op>) {
    t == RunFrom(EMPTY, ops, false) && Keyed(t.comments)
  }

  lemma OneMoreWrite(t: Tables, ops: seq<Op>, op: Op)
    requires IsRunOf(t, ops)
    ensures IsRunOf(After(t, op, false), ops + [op])
  {
    assert (ops + [op])[..|ops|] == ops;
    KeyedAfter(t, op, false);
  }

  // ---- Postgres ----

  /** The key that the query compares with: `cast` turns a text into a uuid. */
  function QueryCursor(sort: Sort, cursor: string, cast: string -> Option<string>): Result<Option<Key>, Error> {
    if cursor == "" then Ok(None)
    else
      match DecodeCursor(sort, cursor)
      case None => Err(InvalidCursor)
      case Some(k) => if cast(k.id).None? then Err(Database) else Ok(Some(k.(id := cast(k.id).value)))
  }

  /** A cursor in canonical form asks for the page of the listing. */
  lemma CanonicalCursor(
      t: Tables, animeId: string, sort: Sort, limit: int, cursor: string, cast: string -> Option<string>)
    requires cursor != "" && DecodeCursor(sort, cursor).Some? ==>
      cast(DecodeCursor(sort, cursor).value.id) == Some(DecodeCursor(sort, cursor).value.id)
    ensures
      match QueryCursor(sort, cursor, cast)
      case Err(e) => e == InvalidCursor && PostgresPage(t, animeId, sort, limit, cursor) == Err(())
      case Ok(c) => PostgresPage(t, animeId, sort, limit, cursor) == Ok(PageBelow(t, animeId, sort, limit, c))
  {
  }

  /** One query for the replies to all roots holds those of each. */
  lemma RepliesOfRoots(t: Tables, roots: seq<Comment>, replies: seq<Comment>)
    requires Keyed(t.comments) && Ascending(replies)
    requires Selects(t.comments, ReplyToAny(set c | c in roots :: c.id), replies)
    ensures forall i :: 0 <= i < |roots| ==> AreReplies(t, roots[i].id, RepliesIn(replies, roots[i].id))
  {
    var ids := set c | c in roots :: c.id;
    forall i | 0 <= i < |roots| ensures AreReplies(t, roots[i].id, RepliesIn(replies, roots[i].id)) {
      assert roots[i].id in ids;
      GroupIsReplies(t, ids, replies, roots[i].id);
    }
  }

  lemma OneMoreCall(t: Tables, processed: set<string>, acts: History, op: Op)
    requires Db(t, processed) == AfterHistory(acts) && Keyed(t.comments)
    ensures Db(After(t, op, true), processed) == AfterHistory(acts + [Direct(op)])
    ensures Keyed(After(t, op, true).comments)
  {
    RunAppend(EMPTY, acts, Direct(op), StoreWriter(), WriteEffect());
    KeyedAfter(t, op, true);
  }

  lemma OneMoreBatch(db: Db<Tables>, acts: History, b: Batch<Op>)
    requires db == AfterHistory(acts)
    ensures AfterBatch(db, b, WriteEffect()) == AfterHistory(acts + [Stream(b)])
    ensures Keyed(AfterBatch(db, b, WriteEffect()).tables.comments)
  {
    RunAppend(EMPTY, acts, Stream(b), StoreWriter(), WriteEffect());
    OnceAmongCalls(acts + [Stream(b)]);
  }

  /** The store over the database; `processed` is its processed_events table, which only the consumer uses. */
  class PostgresCommentStore {
    var comments: map<string, Comment>
    var votes: map<(string, string), int>
    var processed: set<string>
    ghost var acts: History

    function Value(): Tables
      reads this
    {
      Tables(comments, votes)
    }

    ghost predicate Valid()
      reads this
    {
      Db(Value(), processed) == AfterHistory(acts) && Keyed(comments)
    }

    constructor ()
      ensures Valid() && acts == []
    {
      comments, votes, processed, acts := map[], map[], {}, [];
    }

    /** Whatever has been called and consumed, every score is the sum of the recorded votes. */
    lemma Conserves()
      requires Valid()
      ensures Conserved(Value())
    {
      OnceAmongCalls(acts);
    }

    /** `id` and `now` are what the column defaults produce. */
    method Create(draft: Draft, id: string, now: int, commit: CommitAnswer) returns (failed: Option<Error>)
      requires Valid()
      modifies this
      ensures Valid() && processed == old(processed)
      ensures acts == old(acts) + if commit.Fails? then [] else [Direct(Op.Create(draft, id, now))]
      ensures Reports(old(Value()), Op.Create(draft, id, now), true, commit, Database, failed, Value())
      ensures
        var fits := id !in old(comments) && (draft.parentId.Some? ==> draft.parentId.value in old(comments));
        && (failed == if commit.Commits? && fits then None else Some(Database))
        && votes == old(votes)
        && comments ==
           if commit.Fails? || !fits then old(comments)
           else
             old(comments)[id := Comment(id, draft.animeId, draft.userId, draft.parentId, draft.body, 0, now,
                                         None, None)]
    {
      if commit.Fails? {
        return Some(Database);
      }
      OneMoreCall(Value(), processed, acts, Op.Create(draft, id, now));
      acts := acts + [Direct(Op.Create(draft, id, now))];
      if id in comments || (draft.parentId.Some? && draft.parentId.value !in comments) {
        return Some(Database);
      }
      var row := Comment(id, draft.animeId, draft.userId, draft.parentId, draft.body, 0, now, None, None);
      comments := comments[id := row];
      failed := if commit.Commits? then None else Some(Database);
    }

    method UpdateBody(commentId: string, userId: string, body: string, now: int, commit: CommitAnswer)
      returns (failed: Option<Error>)
      requires Valid()
      modifies this
      ensures Valid() && processed == old(processed)
      ensures acts == old(acts) + if commit.Fails? then [] else [Direct(Edit(commentId, userId, body, now))]
      ensures Reports(old(Value()), Edit(commentId, userId, body, now), true, commit, Database, failed, Value())
      ensures
        var own := commentId in old(comments) && old(comments)[commentId].userId == userId
          && old(comments)[commentId].deletedAt.None?;
        && failed == (if commit.Fails? then Some(Database)
             else if !own then Some(NotFoundOrForbidden)
             else if commit.Commits? then None else Some(Database))
        && votes == old(votes)
        && comments ==
           if !commit.Fails? && own
           then old(comments)[commentId := old(comments)[commentId].(body := body, updatedAt := Some(now))]
           else old(comments)
    {
      if commit.Fails? {
        return Some(Database);
      }
      OneMoreCall(Value(), processed, acts, Edit(commentId, userId, body, now));
      acts := acts + [Direct(Edit(commentId, userId, body, now))];
      if commentId !in comments || comments[commentId].userId != userId || comments[commentId].deletedAt.Some? {
        return Some(NotFoundOrForbidden);
      }
      comments := comments[commentId := comments[commentId].(body := body, updatedAt := Some(now))];
      failed := if commit.Commits? then None else Some(Database);
    }

    method SoftDelete(commentId: string, userId: string, now: int, commit: CommitAnswer) returns (failed: Option<Error>)
      requires Valid()
      modifies this
      ensures Valid() && processed == old(processed)
      ensures acts == old(acts) + if commit.Fails? then [] else [Direct(Remove(commentId, userId, now))]
      ensures Reports(old(Value()), Remove(commentId, userId, now), true, commit, Database, failed, Value())
      ensures
        var own := commentId in old(comments) && old(comments)[commentId].userId == userId
          && old(comments)[commentId].deletedAt.None?;
        && failed == (if commit.Fails? then Some(Database)
             else if !own then Some(NotFoundOrForbidden)
             else if commit.Commits? then None else Some(Database))
        && votes == old(votes)
        && comments ==
           if !commit.Fails? && own
           then old(comments)[commentId := old(comments)[commentId].(body := "[deleted]", deletedAt := Some(now))]
           else old(comments)
    {
      if commit.Fails? {
        return Some(Database);
      }
      OneMoreCall(Value(), processed, acts, Remove(commentId, userId, now));
      acts := acts + [Direct(Remove(commentId, userId, now))];
      if commentId !in comments || comments[commentId].userId != userId || comments[commentId].deletedAt.Some? {
        return Some(NotFoundOrForbidden);
      }
      comments := comments[commentId := comments[commentId].(body := DELETED, deletedAt := Some(now))];
      failed := if commit.Commits? then None else Some(Database);
    }

    /** One transaction on a working copy of both tables. */
    method Vote(commentId: string, userId: string, vote: int, commit: CommitAnswer) returns (failed: Option<Error>)
      requires Valid()
      modifies this
      ensures Valid() && processed == old(processed)
      ensures acts == old(acts) + if commit.Fails? then [] else [Direct(Op.Vote(commentId, userId, vote))]
      ensures Reports(old(Value()), Op.Vote(commentId, userId, vote), true, commit, Database, failed, Value())
      ensures
        var there, key, before := commentId in old(comments), (commentId, userId), old(Value().votes);
        && failed == (if commit.Fails? then Some(Database)
             else if !there then Some(NotFoundOrForbidden)
             else if vote != 1 && vote != -1 then Some(Database)
             else if commit.Commits? then None else Some(Database))
        && if there && (vote == 1 || vote == -1) && !commit.Fails? then
             && Value().votes == before[key := vote]
             && comments == old(comments)[commentId := old(comments)[commentId].(score :=
                  old(comments)[commentId].score - (if key in before then before[key] else 0) + vote)]
           else Value() == old(Value())
    {
      if commit.Fails? {
        return Some(Database);
      }
      OneMoreCall(Value(), processed, acts, Op.Vote(commentId, userId, vote));
      acts := acts + [Direct(Op.Vote(commentId, userId, vote))];
      if commentId !in comments {
        return Some(NotFoundOrForbidden);
      }
      var delta;
      if (commentId, userId) !in votes {
        delta := vote;
      } else {
        delta := vote - votes[(commentId, userId)];
      }
      if vote != 1 && vote != -1 {  // CHECK (vote IN (-1, 1))
        return Some(Database);
      }
      var txVotes, txComments := votes[(commentId, userId) := vote], comments;
      if delta != 0 {
        txComments := txComments[commentId := txComments[commentId].(score := txComments[commentId].score + delta)];
      }
      assert delta == 0 ==>
          txComments[commentId := txComments[commentId].(score := txComments[commentId].score + delta)] == txComments;
      comments, votes := txComments, txVotes;
      failed := if commit.Commits? then None else Some(Database);
    }

    method QueryBelow(animeId: string, sort: Sort, limit: nat, c: Option<Key>) returns (rows: seq<Comment>)
      requires Valid()
      ensures KeysOf(rows, SortKey(sort)) == Take(Sorted(Below(RootKeys(Value(), animeId, sort), c)), limit)
      ensures AreRows(comments, rows)
    {
      var key, want := SortKey(sort), RootBelow(animeId, sort, c);
      rows := Select(comments, want);
      RootBelowKeys(Value(), animeId, sort, c);
      SelectedKeys(comments, want, rows, key, Below(RootKeys(Value(), animeId, sort), c));
      rows := SortedRows(rows, key);
      assert KeysOf(Take(rows, limit), key) == Take(KeysOf(rows, key), limit);
      rows := Take(rows, limit);
    }

    /** queryRootsNew and queryRootsTop; `fails` is an error of the query or of a scan. */
    method QueryRoots(
        animeId: string, sort: Sort, limit: nat, cursor: string, cast: string -> Option<string>, fails: bool)
      returns (r: Result<seq<Comment>, Error>)
      requires Valid()
      ensures
        match QueryCursor(sort, cursor, cast)
        case Err(e) => r == Err(e)
        case Ok(c) =>
          if fails then r == Err(Database)
          else
            && r.Ok?
            && KeysOf(r.value, SortKey(sort)) == Take(Sorted(Below(RootKeys(Value(), animeId, sort), c)), limit)
            && AreRows(comments, r.value)
    {
      var c := None;
      if cursor != "" {
        var decoded := DecodeCursor(sort, cursor);
        if decoded.None? {
          return Err(InvalidCursor);
        }
        var id := cast(decoded.value.id);
        if id.None? {
          return Err(Database);
        }
        c := Some(decoded.value.(id := id.value));
      }
      if fails {
        return Err(Database);
      }
      var rows := QueryBelow(animeId, sort, limit, c);
      r := Ok(rows);
    }

    method QueryReplies(rootIds: set<string>) returns (replies: seq<Comment>)
      requires Valid()
      ensures Selects(comments, ReplyToAny(rootIds), replies) && Ascending(replies)
    {
      var want := ReplyToAny(rootIds);
      var rows := Select(comments, want);
      replies := ByTime(rows);
      ByTimeAscends(rows);
      PermutedSelects(comments, want, rows, replies);
    }

    /** One query for all replies, grouped by parent. */
    method WithReplies(roots: seq<Comment>) returns (nodes: seq<Node>)
      requires Valid()
      ensures ShowsRoots(Value(), roots, nodes)
    {
      var ids := set c | c in roots :: c.id;
      var replies := QueryReplies(ids);
      var replyMap := GroupReplies(replies);
      nodes := [];
      RepliesOfRoots(Value(), roots, replies);
      for i := 0 to |roots|
        invariant |nodes| == i
        invariant forall j :: 0 <= j < i ==> nodes[j] == Node(roots[j], RepliesIn(replies, roots[j].id))
      {
        var id := roots[i].id;
        nodes := nodes + [Node(roots[i], if id in replyMap then replyMap[id] else [])];
      }
    }

    /** The roots of a page and the cursor behind them. */
    method RootPage(
        animeId: string, sort: Sort, limit: int, cursor: string, cast: string -> Option<string>, fails: bool)
      returns (r: Result<(seq<Comment>, string), Error>)
      requires Valid()
      ensures
        match QueryCursor(sort, cursor, cast)
        case Err(e) => r == Err(e)
        case Ok(c) =>
          if fails then r == Err(Database)
          else
            && r.Ok? && AreRows(comments, r.value.0)
            && PageBelow(Value(), animeId, sort, limit, c) == Page(KeysOf(r.value.0, SortKey(sort)), r.value.1)
    {
      var size := if limit <= 0 || limit > 100 then 50 else limit;
      var queried := QueryRoots(animeId, sort, size + 1, cursor, cast, fails);
      if queried.Err? {
        return Err(queried.error);
      }
      var roots, next := queried.value, "";
      CutPage(CursorText(Postgres, sort), roots, SortKey(sort), size);
      if |roots| > size {
        next := CursorText(Postgres, sort)(KeyOf(sort, roots[size - 1]));
        roots := roots[..size];
      }
      r := Ok((roots, next));
    }

    method GetThread(animeId: string, sort: Sort, limit: int, cursor: string,
                     cast: string -> Option<string>, rootsFail: bool, repliesFail: bool)
      returns (r: Result<(seq<Node>, string), Error>)
      requires Valid()
      ensures
        match QueryCursor(sort, cursor, cast)
        case Err(e) => r == Err(e)
        case Ok(c) =>
          var page := PageBelow(Value(), animeId, sort, limit, c);
          if rootsFail || (repliesFail && page.keys != []) then r == Err(Database)
          else r.Ok? && r.value.1 == page.next && Shows(Value(), page.keys, r.value.0)
      ensures cursor == "" && !rootsFail && !repliesFail ==> r.Ok?
      ensures r.Ok? ==>
        var size := if limit <= 0 || limit > 100 then 50 else limit;
        |r.value.0| <= size && (r.value.1 != "" ==> |r.value.0| == size)
      ensures r.Ok? ==>
        && (forall i :: 0 <= i < |r.value.0| ==>
              var c := r.value.0[i].comment;
              c.id in comments && comments[c.id] == c && c.animeId == animeId && c.parentId == None)
        && (forall i, j :: 0 <= i < j < |r.value.0| ==>
              var a, b := r.value.0[i].comment, r.value.0[j].comment;
              || (sort.Top? && a.score > b.score)
              || ((sort.New? || a.score == b.score) && a.createdAt > b.createdAt)
              || ((sort.New? || a.score == b.score) && a.createdAt == b.createdAt
                  && exists n :: 0 <= n < |a.id| && n <= |b.id| && a.id[..n] == b.id[..n]
                       && (n == |b.id| || a.id[n] > b.id[n])))
        && (forall i :: 0 <= i < |r.value.0| ==>
              var id, replies := r.value.0[i].comment.id, r.value.0[i].replies;
              && (forall q :: q in replies ==> q.id in comments && comments[q.id] == q && q.parentId == Some(id))
              && (forall r :: r in comments && comments[r].parentId == Some(id) ==> comments[r] in replies)
              && (forall j, k :: 0 <= j < k < |replies| ==>
                    replies[j].id != replies[k].id && replies[j].createdAt <= replies[k].createdAt))
    {
      var page := RootPage(animeId, sort, limit, cursor, cast, rootsFail);
      if page.Err? {
        return Err(page.error);
      }
      var (roots, next) := page.value;
      if |roots| > 0 && repliesFail {
        return Err(Database);
      }
      var nodes := WithReplies(roots);
      ShowsPage(Value(), sort, roots, nodes);
      r := Ok((nodes, next));
      PageInFields(Value(), animeId, sort, limit, QueryCursor(sort, cursor, cast).value, r.value.0, r.value.1);
    }
  }

  lemma PermutedSelects(rows: map<string, Comment>, want: Comment -> bool, a: seq<Comment>, b: seq<Comment>)
    requires Selects(rows, want, a) && multiset(a) == multiset(b)
    ensures Selects(rows, want, b)
  {
    SameMembers(a, b);
    assert DistinctKeys(a, IdKey());
    PermutedKeys(a, b, IdKey());
    forall i, j | 0 <= i < j < |b| ensures b[i].id != b[j].id {
      assert IdKey()(b[i]) != IdKey()(b[j]);
    }
    forall i | 0 <= i < |b| ensures b[i] in a {
    }
  }

  /** The replies to one comment, in the order of the whole list. */
  function RepliesIn(replies: seq<Comment>, id: string): seq<Comment> {
    if replies == [] then []
    else
      var last := replies[|replies| - 1];
      RepliesIn(replies[..|replies| - 1], id) + if IsReplyTo(last, id) then [last] else []
  }

  /** Grouping through a map keyed by parent, one pass over the replies. */
  method GroupReplies(replies: seq<Comment>) returns (grouped: map<string, seq<Comment>>)
    ensures forall id :: (if id in grouped then grouped[id] else []) == RepliesIn(replies, id)
  {
    grouped := map[];
    for i := 0 to |replies|
      invariant forall id :: (if id in grouped then grouped[id] else []) == RepliesIn(replies[..i], id)
    {
      var c := replies[i];
      assert replies[..i + 1][..i] == replies[..i] && replies[..i + 1][i] == c;
      if c.parentId.Some? {
        var parent := c.parentId.value;
        grouped := grouped[parent := (if parent in grouped then grouped[parent] else []) + [c]];
      }
    }
    assert replies[..|replies|] == replies;
  }

  lemma {:induction false} RepliesInFacts(replies: seq<Comment>, id: string)
    requires Ascending(replies) && forall i, j :: 0 <= i < j < |replies| ==> replies[i].id != replies[j].id
    ensures
      var own := RepliesIn(replies, id);
      && Ascending(own)
      && (forall c :: c in own <==> c in replies && IsReplyTo(c, id))
      && (forall i, j :: 0 <= i < j < |own| ==> own[i].id != own[j].id)
  {
    if replies != [] {
      var n := |replies| - 1;
      var init := RepliesIn(replies[..n], id);
      RepliesInFacts(replies[..n], id);
      forall i | 0 <= i < |init|
        ensures init[i].createdAt <= replies[n].createdAt && init[i].id != replies[n].id
      {
        assert init[i] in replies[..n];
      }
      assert forall c :: c in replies <==> c in replies[..n] || c == replies[n];
    }
  }

  lemma GroupIsReplies(t: Tables, ids: set<string>, replies: seq<Comment>, id: string)
    requires Keyed(t.comments) && id in ids && Ascending(replies)
    requires Selects(t.comments, ReplyToAny(ids), replies)
    ensures AreReplies(t, id, RepliesIn(replies, id))
  {
    RepliesInFacts(replies, id);
    var own := RepliesIn(replies, id);
    forall i | 0 <= i < |own| ensures own[i].id in t.comments && t.comments[own[i].id] == own[i] {
      assert own[i] in replies;
    }
    forall k | k in t.comments && IsReplyTo(t.comments[k], id) ensures t.comments[k] in own {
      assert ReplyToAny(ids)(t.comments[k]);
    }
  }

  // ---- in memory ----

  /** votes[commentId][userId] as rows of comment_votes. */
  function VoteRows(votes: map<string, map<string, int>>): map<(string, string), int> {
    map k | k in Pairs(votes) :: votes[k.0][k.1]
  }

  function Pairs(votes: map<string, map<string, int>>): set<(string, string)> {
    set c, u | c in votes && u in votes[c] :: (c, u)
  }

  lemma RowsUpdate(votes: map<string, map<string, int>>, commentId: string, userId: string, vote: int)
    ensures
      var own := if commentId in votes then votes[commentId] else map[];
      && VoteRows(votes[commentId := own[userId := vote]]) == VoteRows(votes)[(commentId, userId) := vote]
      && ((commentId, userId) in VoteRows(votes) <==> userId in own)
      && (userId in own ==> VoteRows(votes)[(commentId, userId)] == own[userId])
  {
    var own := if commentId in votes then votes[commentId] else map[];
    var a, b := VoteRows(votes[commentId := own[userId := vote]]), VoteRows(votes)[(commentId, userId) := vote];
    forall k ensures k in a <==> k in b {
      assert k == (k.0, k.1);
    }
  }

  /** The vote of a user on a comment, 0 when there is none. */
  function Recorded(votes: map<(string, string), int>, commentId: string, userId: string): int {
    if (commentId, userId) in votes then votes[(commentId, userId)] else 0
  }

  lemma VoteDone(t: Tables, commentId: string, userId: string, vote: int)
    requires commentId in t.comments && (vote == 1 || vote == -1)
    ensures
      var c := t.comments[commentId];
      Execute(t, Op.Vote(commentId, userId, vote), false) == Done(Tables(
        t.comments[commentId := c.(score := c.score + (vote - Recorded(t.votes, commentId, userId)))],
        t.votes[(commentId, userId) := vote]))
  {
  }

  /** What recording a vote in the nested maps does to the rows, when a missing inner map is added first. */
  lemma RowsRecord(
      votes: map<string, map<string, int>>, padded: map<string, map<string, int>>, commentId: string,
      userId: string, vote: int)
    requires padded == if commentId in votes then votes else votes[commentId := map[]]
    ensures
      var own := padded[commentId];
      && VoteRows(padded[commentId := own[userId := vote]]) == VoteRows(votes)[(commentId, userId) := vote]
      && ((commentId, userId) in VoteRows(votes) <==> userId in own)
      && (userId in own ==> VoteRows(votes)[(commentId, userId)] == own[userId])
  {
    RowsUpdate(votes, commentId, userId, vote);
    var own := padded[commentId];
    assert padded[commentId := own[userId := vote]] == votes[commentId := own[userId := vote]];
  }

  /** The position after the cursor; the start when it is empty or unknown. */
  method StartIndex(roots: seq<Comment>, cursor: string, ghost key: Comment -> Key) returns (start: nat)
    requires forall c :: key(c).id == c.id
    ensures start == Skipped(KeysOf(roots, key), cursor)
  {
    start := 0;
    if cursor != "" {
      var i := 0;
      while i < |roots| && roots[i].id != cursor
        invariant i <= |roots| && forall j :: 0 <= j < i ==> roots[j].id != cursor
      {
        i := i + 1;
      }
      assert forall j :: 0 <= j < |roots| ==> KeysOf(roots, key)[j].id == roots[j].id;
      start := if i < |roots| then i + 1 else 0;
    }
  }

  class InMemoryCommentStore {
    var comments: map<string, Comment>
    var votes: map<string, map<string, int>>
    ghost var ops: seq<Op>

    function Value(): Tables
      reads this
    {
      Tables(comments, VoteRows(votes))
    }

    ghost predicate Valid()
      reads this
    {
      IsRunOf(Value(), ops)
    }

    constructor ()
      ensures Valid() && ops == []
    {
      comments, votes, ops := map[], map[], [];
      new;
      assert VoteRows(votes) == map[];
    }

    /** Whatever has been called, every score is the sum of the recorded votes. */
    lemma Conserves()
      requires Valid()
      ensures Conserved(Value())
    {
      ScoresConserved(ops, false);
    }

    /** `id` is a fresh UUID; the store does not look at the parent. */
    method Create(draft: Draft, id: string, now: int) returns (c: Comment)
      requires Valid() && id !in comments
      modifies this
      ensures Valid() && ops == old(ops) + [Op.Create(draft, id, now)]
      ensures Execute(old(Value()), Op.Create(draft, id, now), false) == Done(Value())
      ensures c == comments[id]
      ensures votes == old(votes)
      ensures comments == old(comments)[id := Comment(id, draft.animeId, draft.userId, draft.parentId, draft.body, 0,
                                                      now, None, None)]
    {
      OneMoreWrite(Value(), ops, Op.Create(draft, id, now));
      ops := ops + [Op.Create(draft, id, now)];
      c := Comment(id, draft.animeId, draft.userId, draft.parentId, draft.body, 0, now, None, None);
      comments := comments[id := c];
    }

    method UpdateBody(commentId: string, userId: string, body: string, now: int) returns (failed: Option<Error>)
      requires Valid()
      modifies this
      ensures Valid() && ops == old(ops) + [Edit(commentId, userId, body, now)]
      ensures Reports(old(Value()), Edit(commentId, userId, body, now), false, Commits, InvalidVote, failed, Value())
      ensures
        var own := commentId in old(comments) && old(comments)[commentId].userId == userId
          && old(comments)[commentId].deletedAt.None?;
        && failed == (if own then None else Some(NotFoundOrForbidden))
        && votes == old(votes)
        && comments ==
           if own
           then old(comments)[commentId := old(comments)[commentId].(body := body, updatedAt := Some(now))]
           else old(comments)
    {
      OneMoreWrite(Value(), ops, Edit(commentId, userId, body, now));
      ops := ops + [Edit(commentId, userId, body, now)];
      if commentId !in comments || comments[commentId].userId != userId || comments[commentId].deletedAt.Some? {
        return Some(NotFoundOrForbidden);
      }
      var c := comments[commentId];
      comments := comments[commentId := c.(body := body, updatedAt := Some(now))];
      failed := None;
    }

    method SoftDelete(commentId: string, userId: string, now: int) returns (failed: Option<Error>)
      requires Valid()
      modifies this
      ensures Valid() && ops == old(ops) + [Remove(commentId, userId, now)]
      ensures Reports(old(Value()), Remove(commentId, userId, now), false, Commits, InvalidVote, failed, Value())
      ensures
        var own := commentId in old(comments) && old(comments)[commentId].userId == userId
          && old(comments)[commentId].deletedAt.None?;
        && failed == (if own then None else Some(NotFoundOrForbidden))
        && votes == old(votes)
        && comments ==
           if own
           then old(comments)[commentId := old(comments)[commentId].(body := "[deleted]", deletedAt := Some(now))]
           else old(comments)
    {
      OneMoreWrite(Value(), ops, Remove(commentId, userId, now));
      ops := ops + [Remove(commentId, userId, now)];
      if commentId !in comments || comments[commentId].userId != userId || comments[commentId].deletedAt.Some? {
        return Some(NotFoundOrForbidden);
      }
      var c := comments[commentId];
      comments := comments[commentId := c.(body := DELETED, deletedAt := Some(now))];
      failed := None;
    }

    method RecordVote(commentId: string, userId: string, vote: int) returns (oldVote: int)
      modifies this`votes
      ensures oldVote == Recorded(old(VoteRows(votes)), commentId, userId)
      ensures VoteRows(votes) == old(VoteRows(votes))[(commentId, userId) := vote]
    {
      if commentId !in votes {
        votes := votes[commentId := map[]];
      }
      RowsRecord(old(votes), votes, commentId, userId, vote);
      oldVote := if userId in votes[commentId] then votes[commentId][userId] else 0;
      votes := votes[commentId := votes[commentId][userId := vote]];
    }

    method Vote(commentId: string, userId: string, vote: int) returns (failed: Option<Error>)
      requires Valid()
      modifies this
      ensures Valid() && ops == old(ops) + [Op.Vote(commentId, userId, vote)]
      ensures Reports(old(Value()), Op.Vote(commentId, userId, vote), false, Commits, InvalidVote, failed, Value())
      ensures
        var there, key, before := commentId in old(comments), (commentId, userId), old(Value().votes);
        && failed == (if !there then Some(NotFoundOrForbidden)
             else if vote != 1 && vote != -1 then Some(InvalidVote) else None)
        && if there && (vote == 1 || vote == -1) then
             && Value().votes == before[key := vote]
             && comments == old(comments)[commentId := old(comments)[commentId].(score :=
                  old(comments)[commentId].score - (if key in before then before[key] else 0) + vote)]
           else Value() == old(Value())
    {
      OneMoreWrite(Value(), ops, Op.Vote(commentId, userId, vote));
      ops := ops + [Op.Vote(commentId, userId, vote)];
      if commentId !in comments {
        return Some(NotFoundOrForbidden);
      }
      var c := comments[commentId];
      if vote != 1 && vote != -1 {
        return Some(InvalidVote);
      }
      VoteDone(Value(), commentId, userId, vote);
      var oldVote := RecordVote(commentId, userId, vote);
      var delta := vote - oldVote;
      comments := comments[commentId := c.(score := c.score + delta)];
      failed := None;
    }

    method SortedRoots(animeId: string, sort: Sort) returns (roots: seq<Comment>)
      requires Valid()
      ensures KeysOf(roots, SortKey(sort)) == Sorted(RootKeys(Value(), animeId, sort)) && AreRows(comments, roots)
    {
      var key, want := SortKey(sort), RootBelow(animeId, sort, None);
      roots := Select(comments, want);
      RootBelowKeys(Value(), animeId, sort, None);
      SelectedKeys(comments, want, roots, key, RootKeys(Value(), animeId, sort));
      roots := SortedRows(roots, key);
    }

    /** One scan over all comments for each root. */
    method WithReplies(roots: seq<Comment>) returns (nodes: seq<Node>)
      requires Valid()
      ensures ShowsRoots(Value(), roots, nodes)
    {
      nodes := [];
      for i := 0 to |roots|
        invariant ShowsRoots(Value(), roots[..i], nodes)
      {
        var replies := Select(comments, ReplyTo(roots[i].id));
        var sorted := ByTime(replies);
        ByTimeAscends(replies);
        PermutedSelects(comments, ReplyTo(roots[i].id), replies, sorted);
        nodes := nodes + [Node(roots[i], sorted)];
      }
      assert roots[..|roots|] == roots;
    }

    /** The roots of one page and the id to continue after. */
    method PageRoots(animeId: string, sort: Sort, size: nat, cursor: string) returns (roots: seq<Comment>, next: string)
      requires Valid() && size > 0
      ensures AreRows(comments, roots)
      ensures
        var list := Sorted(RootKeys(Value(), animeId, sort));
        FirstPage(CursorText(Memory, sort), list[Skipped(list, cursor)..], size)
            == Page(KeysOf(roots, SortKey(sort)), next)
    {
      roots := SortedRoots(animeId, sort);
      ghost var list := KeysOf(roots, SortKey(sort));
      var start := StartIndex(roots, cursor, SortKey(sort));
      roots := roots[start..];
      assert KeysOf(roots, SortKey(sort)) == list[start..];
      CutPage(CursorText(Memory, sort), roots, SortKey(sort), size);
      next := "";
      if |roots| > size {
        next := roots[size - 1].id;
        roots := roots[..size];
      }
    }

    method GetThread(animeId: string, sort: Sort, limit: int, cursor: string) returns (nodes: seq<Node>, next: string)
      requires Valid()
      ensures
        var page := MemoryPage(Value(), animeId, sort, limit, cursor);
        next == page.next && Shows(Value(), page.keys, nodes)
      ensures
        var size := if limit <= 0 || limit > 100 then 50 else limit;
        |nodes| <= size && (next != "" ==> |nodes| == size)
      ensures
        && (forall i :: 0 <= i < |nodes| ==>
              var c := nodes[i].comment;
              c.id in comments && comments[c.id] == c && c.animeId == animeId && c.parentId == None)
        && (forall i, j :: 0 <= i < j < |nodes| ==>
              var a, b := nodes[i].comment, nodes[j].comment;
              || (sort.Top? && a.score > b.score)
              || ((sort.New? || a.score == b.score) && a.createdAt > b.createdAt)
              || ((sort.New? || a.score == b.score) && a.createdAt == b.createdAt
                  && exists n :: 0 <= n < |a.id| && n <= |b.id| && a.id[..n] == b.id[..n]
                       && (n == |b.id| || a.id[n] > b.id[n])))
        && (forall i :: 0 <= i < |nodes| ==>
              var id, replies := nodes[i].comment.id, nodes[i].replies;
              && (forall q :: q in replies ==> q.id in comments && comments[q.id] == q && q.parentId == Some(id))
              && (forall r :: r in comments && comments[r].parentId == Some(id) ==> comments[r] in replies)
              && (forall j, k :: 0 <= j < k < |replies| ==>
                    replies[j].id != replies[k].id && replies[j].createdAt <= replies[k].createdAt))
    {
      var size := if limit <= 0 || limit > 100 then 50 else limit;
      var roots;
      roots, next := PageRoots(animeId, sort, size, cursor);
      nodes := WithReplies(roots);
      ShowsPage(Value(), sort, roots, nodes);
      SkippedIsListing(Value(), animeId, sort, limit, cursor);
      NodesInFields(Value(), animeId, sort, KeysOf(roots, SortKey(sort)), nodes);
    }
  }
}
