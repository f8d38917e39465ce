/** The social.comments.* consumer: services/social/internal/worker/comments_consumer.go. */
module CommentsConsumer {
  import opened Wrappers
  import opened CommentHistory
  import opened CommentStores
  import opened CommentTables
  import opened IdempotentBatches

  /** The consumer works on the database behind the store. */
  class Consumer {
    const store: PostgresCommentStore

    constructor (store: PostgresCommentStore)
      ensures this.store == store
    {
      this.store := store;
    }

    function Value(): Db<Tables>
      reads store
    {
      Db(store.Value(), store.processed)
    }

    /** Begin, the loop over the messages, rollback or commit. */
    method Transact(b: Batch<Op>) returns (committed: bool)
      requires store.Valid()
      modifies store
      ensures store.Valid() && store.acts == old(store.acts) + [Stream(b)]
      ensures Value() == AfterBatch(old(Value()), b, WriteEffect())
      ensures committed <==> Acked(old(Value()), b, WriteEffect())
    {
      OneMoreBatch(Value(), store.acts, b);
      store.acts := store.acts + [Stream(b)];
      if |b.deliveries| == 0 || b.beginFails {
        return false;
      }
      var failed, tx := ApplyMessages(Value(), b.deliveries);
      if failed || b.commit.Fails? {
        return false;
      }
      store.comments, store.votes, store.processed := tx.tables.comments, tx.tables.votes, tx.processed;
      return b.commit.Commits?;
    }

    /** One fetched batch. When nothing fails, with `states` for the tables between the messages, all its events are
        in the tables and in `processed`, and it is acked exactly if the commit also says so; in any other case
        nothing changes and it is not acked. */
    method HandleBatch(b: Batch<Op>) returns (acked: bool)
      requires store.Valid()
      modifies store
      ensures store.Valid() && store.acts == old(store.acts) + [Stream(b)]
      ensures Value() == AfterBatch(old(Value()), b, WriteEffect())
      ensures acked <==> Acked(old(Value()), b, WriteEffect())
      ensures
        var ds := b.deliveries;
        forall states: seq<Tables> ::
          (&& ds != [] && !b.beginFails && !b.commit.Fails?
            && |states| == |ds| + 1 && states[0] == old(store.Value())
            && (forall k :: 0 <= k < |ds| ==> ds[k].message.Event? && !ds[k].fault)
            && (forall k :: 0 <= k < |ds| ==>
                  if ds[k].message.id in old(store.processed)
                    || (exists j :: 0 <= j < k && ds[j].message.id == ds[k].message.id)
                  then states[k + 1] == states[k]
                  else WriteEffect()(states[k], ds[k].message.body) == Some(states[k + 1]))) ==>
            && store.Value() == states[|ds|]
            && store.processed == old(store.processed) + (set k | 0 <= k < |ds| :: ds[k].message.id)
            && (acked <==> b.commit.Commits?)
      ensures acked || Value() != old(Value()) ==>
        && b.deliveries != [] && !b.beginFails && !b.commit.Fails?
        && exists states: seq<Tables> :: IsTrace(old(Value()), b.deliveries, WriteEffect(), states)
    {
      BatchIsTold(Value(), b, WriteEffect());
      acked := Transact(b);
    }
  }

  /** The loop over a batch inside its transaction. */
  method ApplyMessages(db: Db<Tables>, ds: seq<Delivery<Op>>) returns (failed: bool, tx: Db<Tables>)
    ensures ApplyAll(db, ds, WriteEffect()) == if failed then None else Some(tx)
  {
    tx, failed := db, false;
    var i := 0;
    while i < |ds|
      invariant 0 <= i <= |ds|
      invariant ApplyAll(db, ds[..i], WriteEffect()) == if failed then None else Some(tx)
    {
      var d := ds[i];
      ApplyNext(db, ds, i, WriteEffect());
      i := i + 1;
      if d.message.Malformed? || d.fault {
        failed := true;  // leaves the switch only: the loop goes on
        continue;
      }
      if d.message.id in tx.processed {
        continue;
      }
      tx := tx.(processed := tx.processed + {d.message.id});
      var applied;
      applied, tx := ApplyEvent(tx, d.message.body);
      if !applied {
        failed := true;
      }
    }
    assert ds[..i] == ds;
  }

  /** The switch over the four actions, statement by statement on the transaction's tables. */
  method ApplyEvent(tx: Db<Tables>, op: Op) returns (ok: bool, after: Db<Tables>)
    ensures ok <==> WriteEffect()(tx.tables, op).Some?
    ensures ok ==> after == tx.(tables := WriteEffect()(tx.tables, op).value)
    ensures
      var comments, votes := tx.tables.comments, tx.tables.votes;
      ok <==>
        match op
        case Create(d, id, now) => id !in comments && (d.parentId.Some? ==> d.parentId.value in comments)
        case Vote(id, userId, vote) => id in comments ==> vote == 1 || vote == -1
        case _ => true
    ensures ok ==> after.processed == tx.processed
    ensures
      var comments, votes := tx.tables.comments, tx.tables.votes;
      ok ==>
        match op
        case Create(d, id, now) =>
          && after.tables.votes == votes
          && after.tables.comments
            == comments[id := Comment(id, d.animeId, d.userId, d.parentId, d.body, 0, now, None, None)]
        case Edit(id, userId, body, now) =>
          && after.tables.votes == votes
          && after.tables.comments ==
            if id in comments && comments[id].userId == userId && comments[id].deletedAt.None?
            then comments[id := comments[id].(body := body, updatedAt := Some(now))] else comments
        case Remove(id, userId, now) =>
          && after.tables.votes == votes
          && after.tables.comments ==
            if id in comments && comments[id].userId == userId && comments[id].deletedAt.None?
            then comments[id := comments[id].(body := "[deleted]", deletedAt := Some(now))] else comments
        case Vote(id, userId, vote) =>
          if id !in comments then after == tx
          else
            var before := if (id, userId) in votes then votes[(id, userId)] else 0;
            && after.tables.votes == votes[(id, userId) := vote]
            && after.tables.comments
              == comments[id := comments[id].(score := comments[id].score - before + vote)]
  {
    var comments, votes := tx.tables.comments, tx.tables.votes;
    ok, after := true, tx;
    match op {
      case Create(d, id, now) =>
        if id in comments || (d.parentId.Some? && d.parentId.value !in comments) {
          return false, tx;
        }
        comments := comments[id := Comment(id, d.animeId, d.userId, d.parentId, d.body, 0, now, None, None)];
      case Edit(id, userId, body, now) =>
        if id in comments && comments[id].userId == userId && comments[id].deletedAt.None? {
          comments := comments[id := comments[id].(body := body, updatedAt := Some(now))];
        }
      case Remove(id, userId, now) =>
        if id in comments && comments[id].userId == userId && comments[id].deletedAt.None? {
          comments := comments[id := comments[id].(body := DELETED, deletedAt := Some(now))];
        }
      case Vote(id, userId, vote) =>
        if id !in comments {
          return true, tx;
        }
        var delta := if (id, userId) in votes then vote - votes[(id, userId)] else vote;
        if vote != 1 && vote != -1 {  // CHECK (vote IN (-1, 1))
          return false, tx;
        }
        votes := votes[(id, userId) := vote];
        if delta != 0 {
          comments := comments[id := comments[id].(score := comments[id].score + delta)];
        }
        assert comments
            == tx.tables.comments[id := tx.tables.comments[id].(score := tx.tables.comments[id].score + delta)];
    }
    after := tx.(tables := Tables(comments, votes));
  }
}
