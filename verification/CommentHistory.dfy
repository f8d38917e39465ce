/** The two writers of the comment tables of one database: calls of the store and batches of the consumer. */
module CommentHistory {
  import opened Wrappers
  import opened CommentTables
  import opened IdempotentBatches

  /** An event carries the write it asks for, with the id and the clock reading that this delivery
      gets from the column defaults. An update, a delete or a vote on a comment that is not there
      does nothing; a violated constraint is an error. */
  function WriteEffect(): Effect<Tables, Op> {
    (t: Tables, op: Op) =>
      match Execute(t, op, true)
      case Done(u) => Some(u)
      case NotFound => Some(t)
      case Rejected => None
  }

  function StoreWriter(): Writer<Tables, Op> {
    (t: Tables, op: Op) => After(t, op, true)
  }

  type History = seq<Act<Op, Op>>

  /** Calls of the store and batches of the consumer, in any interleaving. */
  function AfterHistory(acts: History): Db<Tables> {
    Run(EMPTY, acts, StoreWriter(), WriteEffect())
  }

  /** What a history changes, in order. */
  ghost function ChangesIn(acts: History): seq<Change<Op, Op>> {
    Applied(EMPTY, acts, StoreWriter(), WriteEffect())
  }

  function OpOf(c: Change<Op, Op>): Op {
    match c
    case Own(op) => op
    case Once(e) => e.1
  }

  function OpsOf(changes: seq<Change<Op, Op>>): seq<Op> {
    if changes == [] then [] else OpsOf(changes[..|changes| - 1]) + [OpOf(changes[|changes| - 1])]
  }

  lemma ChangeIsWrite(t: Tables, c: Change<Op, Op>)
    ensures AfterChange(t, c, StoreWriter(), WriteEffect()) == After(t, OpOf(c), true)
  {
  }

  lemma {:induction false} ReplayIsRun(changes: seq<Change<Op, Op>>)
    ensures Replay(EMPTY, changes, StoreWriter(), WriteEffect()) == RunFrom(EMPTY, OpsOf(changes), true)
  {
    if changes != [] {
      var ops := OpsOf(changes);
      ReplayIsRun(changes[..|changes| - 1]);
      ChangeIsWrite(RunFrom(EMPTY, OpsOf(changes[..|changes| - 1]), true), changes[|changes| - 1]);
      assert ops[..|ops| - 1] == OpsOf(changes[..|changes| - 1]);
    }
  }

  /** In every history of calls and batches the comment tables are those of the calls in their order and of
      each committed event once, at its first commit among them, and every score is the sum of its votes. */
  lemma OnceAmongCalls(acts: History)
    ensures
      var changes, events := ChangesIn(acts), Committed(EMPTY, acts, StoreWriter(), WriteEffect());
      && AfterHistory(acts).tables == RunFrom(EMPTY, OpsOf(changes), true)
      && OwnPart(changes) == Directs(acts) && OncePart(changes) == FirstOccurrences(events)
      && AfterHistory(acts).processed == Ids(events)
    ensures Conserved(AfterHistory(acts).tables)
  {
    ExactlyOnce(EMPTY, acts, StoreWriter(), WriteEffect());
    ReplayIsRun(ChangesIn(acts));
    ScoresConserved(OpsOf(ChangesIn(acts)), true);
  }

  /** Comments survive whatever either writer does later; a deleted one stays deleted. */
  lemma {:induction false} HistoryExtends(acts: History, n: nat)
    requires n <= |acts|
    ensures Extends(AfterHistory(acts[..n]).tables, AfterHistory(acts).tables)
    ensures Tombstoned(AfterHistory(acts).tables)
  {
    OnceAmongCalls(acts);
    RunExtends(EMPTY, OpsOf(ChangesIn(acts)), true);
    if n == |acts| {
      assert acts[..n] == acts;
    } else {
      var before, act := acts[..|acts| - 1], acts[|acts| - 1];
      HistoryExtends(before, n);
      assert before[..n] == acts[..n];
      var db := AfterHistory(before);
      var changes := AppliedBy(db, act, WriteEffect());
      ActIsReplay(db, act, StoreWriter(), WriteEffect());
      ReplayExtends(db.tables, changes);
      ExtendsTransitive(AfterHistory(acts[..n]).tables, db.tables, AfterHistory(acts).tables);
    }
  }

  lemma {:induction false} ReplayExtends(t: Tables, changes: seq<Change<Op, Op>>)
    ensures Extends(t, Replay(t, changes, StoreWriter(), WriteEffect()))
  {
    if changes != [] {
      var before, last := changes[..|changes| - 1], changes[|changes| - 1];
      var u := Replay(t, before, StoreWriter(), WriteEffect());
      ReplayExtends(t, before);
      ChangeIsWrite(u, last);
      AfterExtends(u, OpOf(last), true);
      ExtendsTransitive(t, u, Replay(t, changes, StoreWriter(), WriteEffect()));
    }
  }
}
