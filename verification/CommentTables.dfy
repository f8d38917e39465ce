/** The comments and comment_votes tables, and the four statements every writer runs on them:
    the Postgres store, the in-memory store and the event consumer. */
module CommentTables {
  import opened Wrappers

  /** Times are in nanoseconds. */
  datatype Comment = Comment(
    id: string, animeId: string, userId: string, parentId: Option<string>, body: string,
    score: int, createdAt: int, updatedAt: Option<int>, deletedAt: Option<int>)

  /** What a caller supplies for a new comment. */
  datatype Draft = Draft(animeId: string, userId: string, parentId: Option<string>, body: string)

  /** comment_votes has the primary key (comment_id, user_id). */
  datatype Tables = Tables(comments: map<string, Comment>, votes: map<(string, string), int>)

  const DELETED := "[deleted]"

  /** A write together with the clock reading and the fresh id it meets. */
  datatype Op =
    | Create(draft: Draft, id: string, now: int)
    | Edit(commentId: string, userId: string, body: string, now: int)
    | Remove(commentId: string, userId: string, now: int)
    | Vote(commentId: string, userId: string, vote: int)

  /** NotFound also stands for a comment that is deleted or that someone else wrote;
      Rejected is a violated constraint. */
  datatype Outcome = Done(tables: Tables) | NotFound | Rejected

  predicate Editable(t: Tables, commentId: string, userId: string) {
    commentId in t.comments
    && t.comments[commentId].userId == userId
    && t.comments[commentId].deletedAt.None?
  }

  /** The effect of one write. `fk`: parent_id must reference an existing comment. */
  function Execute(t: Tables, op: Op, fk: bool): Outcome {
    match op
    case Create(d, id, now) =>
      if id in t.comments || (fk && d.parentId.Some? && d.parentId.value !in t.comments) then Rejected
      else
        var c := Comment(id, d.animeId, d.userId, d.parentId, d.body, 0, now, None, None);
        Done(t.(comments := t.comments[id := c]))
    case Edit(id, userId, body, now) =>
      if !Editable(t, id, userId) then NotFound
      else
        var c := t.comments[id].(body := body, updatedAt := Some(now));
        Done(t.(comments := t.comments[id := c]))
    case Remove(id, userId, now) =>
      if !Editable(t, id, userId) then NotFound
      else
        var c := t.comments[id].(body := DELETED, deletedAt := Some(now));
        Done(t.(comments := t.comments[id := c]))
    case Vote(id, userId, vote) =>
      if id !in t.comments then NotFound
      else if vote != 1 && vote != -1 then Rejected
      else
        var before := if (id, userId) in t.votes then t.votes[(id, userId)] else 0;
        var c := t.comments[id].(score := t.comments[id].score + (vote - before));
        Done(Tables(t.comments[id := c], t.votes[(id, userId) := vote]))
  }

  /** A write that is refused leaves the tables alone. */
  function After(t: Tables, op: Op, fk: bool): Tables {
    match Execute(t, op, fk)
    case Done(u) => u
    case _ => t
  }

  const EMPTY := Tables(map[], map[])

  function RunFrom(t: Tables, ops: seq<Op>, fk: bool): Tables {
    if ops == [] then t else After(RunFrom(t, ops[..|ops| - 1], fk), ops[|ops| - 1], fk)
  }

  // ---- the score of a comment is the sum of its votes ----

  function Share(votes: map<(string, string), int>, k: (string, string), id: string): int
    requires k in votes
  {
    if k.0 == id then votes[k] else 0
  }

  /** The sum of the votes recorded on a comment. */
  ghost function SumFor(votes: map<(string, string), int>, id: string): int
    decreases |votes|
  {
    if votes == map[] then 0
    else
      var k :| k in votes;
      Share(votes, k, id) + SumFor(votes - {k}, id)
  }

  ghost function VotersOf(votes: map<(string, string), int>, id: string): set<(string, string)> {
    set k | k in votes && k.0 == id
  }

  lemma {:induction false} SumWithout(votes: map<(string, string), int>, k: (string, string), id: string)
    requires k in votes
    ensures SumFor(votes, id) == Share(votes, k, id) + SumFor(votes - {k}, id)
    decreases |votes|
  {
    var j :| j in votes && SumFor(votes, id) == Share(votes, j, id) + SumFor(votes - {j}, id);
    if j != k {
      SumWithout(votes - {j}, k, id);
      SumWithout(votes - {k}, j, id);
      assert votes - {j} - {k} == votes - {k} - {j};
      assert Share(votes - {j}, k, id) == Share(votes, k, id);
      assert Share(votes - {k}, j, id) == Share(votes, j, id);
    }
  }

  /** Recording a vote moves the sum by the difference to the vote it replaces. */
  lemma SumAfterVote(votes: map<(string, string), int>, k: (string, string), vote: int, id: string)
    ensures SumFor(votes[k := vote], id)
         == SumFor(votes, id) + if k.0 == id then vote - (if k in votes then votes[k] else 0) else 0
  {
    SumWithout(votes[k := vote], k, id);
    if k in votes {
      SumWithout(votes, k, id);
      assert votes[k := vote] - {k} == votes - {k};
    } else {
      assert votes[k := vote] - {k} == votes;
    }
  }

  lemma {:induction false} SumBounded(votes: map<(string, string), int>, id: string)
    requires forall k :: k in votes ==> votes[k] == 1 || votes[k] == -1
    ensures -|VotersOf(votes, id)| <= SumFor(votes, id) <= |VotersOf(votes, id)|
    decreases |votes|
  {
    if votes != map[] {
      var k :| k in votes && SumFor(votes, id) == Share(votes, k, id) + SumFor(votes - {k}, id);
      SumBounded(votes - {k}, id);
      if k.0 == id {
        assert Share(votes, k, id) == votes[k];
        assert VotersOf(votes, id) == VotersOf(votes - {k}, id) + {k};
      } else {
        assert Share(votes, k, id) == 0;
        assert VotersOf(votes - {k}, id) == VotersOf(votes, id);
      }
    }
  }

  /** Every recorded vote is +1 or -1 on an existing comment, and every score is its sum. */
  ghost predicate Conserved(t: Tables) {
    && (forall k :: k in t.votes ==> k.0 in t.comments && (t.votes[k] == 1 || t.votes[k] == -1))
    && (forall id :: id in t.comments ==>
          t.comments[id].id == id && t.comments[id].score == SumFor(t.votes, id))
  }

  lemma {:induction false} NoVotesNoSum(votes: map<(string, string), int>, id: string)
    requires forall k :: k in votes ==> k.0 != id
    ensures SumFor(votes, id) == 0
    decreases |votes|
  {
    if votes != map[] {
      var k :| k in votes && SumFor(votes, id) == Share(votes, k, id) + SumFor(votes - {k}, id);
      NoVotesNoSum(votes - {k}, id);
      assert Share(votes, k, id) == 0;
    }
  }

  lemma AfterConserves(t: Tables, op: Op, fk: bool)
    requires Conserved(t)
    ensures Conserved(After(t, op, fk))
  {
    var u := After(t, op, fk);
    forall id | id in u.comments ensures u.comments[id].score == SumFor(u.votes, id) {
      if op.Create? && id == op.id && id !in t.comments {
        NoVotesNoSum(t.votes, id);
      }
      if op.Vote? && u != t {
        SumAfterVote(t.votes, (op.commentId, op.userId), op.vote, id);
      }
    }
  }

  /** In every reachable state each score is the sum of the +1/-1 votes recorded on the comment,
      so it is at most the number of voters in size. */
  lemma {:induction false} ScoresConserved(ops: seq<Op>, fk: bool)
    ensures Conserved(RunFrom(EMPTY, ops, fk))
    ensures
      var t := RunFrom(EMPTY, ops, fk);
      forall id :: id in t.comments ==>
        -|VotersOf(t.votes, id)| <= t.comments[id].score <= |VotersOf(t.votes, id)|
  {
    if ops != [] {
      ScoresConserved(ops[..|ops| - 1], fk);
      AfterConserves(RunFrom(EMPTY, ops[..|ops| - 1], fk), ops[|ops| - 1], fk);
    }
    var t := RunFrom(EMPTY, ops, fk);
    forall id | id in t.comments
      ensures -|VotersOf(t.votes, id)| <= t.comments[id].score <= |VotersOf(t.votes, id)|
    {
      SumBounded(t.votes, id);
    }
  }

  /** Repeating a vote at once changes nothing; an opposite vote moves the score by two. */
  lemma VoteTwice(t: Tables, id: string, userId: string, first: int, second: int, fk: bool)
    requires id in t.comments && first in {1, -1} && second in {1, -1}
    ensures
      var once := After(t, Vote(id, userId, first), fk);
      var twice := After(once, Vote(id, userId, second), fk);
      && (first == second ==> twice == once)
      && twice.comments[id].score == once.comments[id].score + (second - first)
      && twice == After(t, Vote(id, userId, second), fk)
  {
    var once := After(t, Vote(id, userId, first), fk);
    var twice := After(once, Vote(id, userId, second), fk);
    assert once.comments[id].score + (second - first) == twice.comments[id].score;
    assert once.votes[(id, userId) := second] == t.votes[(id, userId) := second];
  }

  // ---- what no write changes ----

  /** Comments are never removed, and their thread position never moves. */
  ghost predicate Extends(t: Tables, u: Tables) {
    forall id :: id in t.comments ==>
      && id in u.comments
      && u.comments[id].id == t.comments[id].id
      && u.comments[id].animeId == t.comments[id].animeId
      && u.comments[id].userId == t.comments[id].userId
      && u.comments[id].parentId == t.comments[id].parentId
      && u.comments[id].createdAt == t.comments[id].createdAt
      && (t.comments[id].deletedAt.Some? ==>
            u.comments[id].deletedAt == t.comments[id].deletedAt && u.comments[id].body == t.comments[id].body)
  }

  ghost predicate Tombstoned(t: Tables) {
    forall id :: id in t.comments && t.comments[id].deletedAt.Some? ==> t.comments[id].body == DELETED
  }

  lemma AfterExtends(t: Tables, op: Op, fk: bool)
    ensures Extends(t, After(t, op, fk))
    ensures Tombstoned(t) ==> Tombstoned(After(t, op, fk))
  {
  }

  lemma ExtendsTransitive(t: Tables, u: Tables, v: Tables)
    requires Extends(t, u) && Extends(u, v)
    ensures Extends(t, v)
  {
  }

  /** Any run of writes keeps what was there; a deleted comment keeps its time of deletion and its
      body for ever. */
  lemma {:induction false} RunExtends(t: Tables, ops: seq<Op>, fk: bool)
    ensures Extends(t, RunFrom(t, ops, fk))
    ensures Tombstoned(t) ==> Tombstoned(RunFrom(t, ops, fk))
  {
    if ops != [] {
      var u := RunFrom(t, ops[..|ops| - 1], fk);
      RunExtends(t, ops[..|ops| - 1], fk);
      AfterExtends(u, ops[|ops| - 1], fk);
      ExtendsTransitive(t, u, RunFrom(t, ops, fk));
    }
  }

  /** A deleted comment reads "[deleted]" in every later state; its score may still move. */
  lemma DeletedForever(before: seq<Op>, after: seq<Op>, id: string, fk: bool)
    ensures
      var t := RunFrom(EMPTY, before, fk);
      var u := RunFrom(t, after, fk);
      id in t.comments && t.comments[id].deletedAt.Some? ==>
        id in u.comments && u.comments[id].body == DELETED && u.comments[id].deletedAt == t.comments[id].deletedAt
  {
    RunExtends(EMPTY, before, fk);
    RunExtends(RunFrom(EMPTY, before, fk), after, fk);
  }

  // ---- who may change a comment ----

  lemma OneWriteByAuthor(t: Tables, op: Op, fk: bool, id: string)
    requires id in t.comments
    ensures id in After(t, op, fk).comments
    ensures
      var c, d := t.comments[id], After(t, op, fk).comments[id];
      c.body != d.body || c.updatedAt != d.updatedAt || c.deletedAt != d.deletedAt ==>
        (op.Edit? || op.Remove?) && op.commentId == id && op.userId == c.userId && c.deletedAt == None
  {
  }

  /** Only its author edits or deletes a comment: whenever a run of writes leaves one with another text, edit time or
      deletion time, it was undeleted before and its author asked for an edit or a deletion of it. */
  lemma {:induction false} OnlyAuthorChanges(t: Tables, ops: seq<Op>, fk: bool, id: string)
    requires id in t.comments
    ensures id in RunFrom(t, ops, fk).comments
    ensures
      var c, d := t.comments[id], RunFrom(t, ops, fk).comments[id];
      c.body != d.body || c.updatedAt != d.updatedAt || c.deletedAt != d.deletedAt ==>
        && c.deletedAt == None
        && exists k :: 0 <= k < |ops| && (ops[k].Edit? || ops[k].Remove?)
             && ops[k].commentId == id && ops[k].userId == c.userId
  {
    if ops != [] {
      var before, last := ops[..|ops| - 1], ops[|ops| - 1];
      OnlyAuthorChanges(t, before, fk, id);
      RunExtends(t, before, fk);
      OneWriteByAuthor(RunFrom(t, before, fk), last, fk, id);
      var c, m := t.comments[id], RunFrom(t, before, fk).comments[id];
      if c.body != m.body || c.updatedAt != m.updatedAt || c.deletedAt != m.deletedAt {
        var k :| 0 <= k < |before| && (before[k].Edit? || before[k].Remove?)
          && before[k].commentId == id && before[k].userId == c.userId;
        assert ops[k] == before[k];
      }
    }
  }
}
