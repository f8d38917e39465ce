/** The batch protocol shared by the comment and progress consumers: one transaction a batch,
    guarded by the processed_events table, messages delivered at least once. */
module IdempotentBatches {
  import opened Wrappers

  /** A payload that cannot be decoded, or whose action is unknown, is Malformed. */
  datatype Message<E> = Malformed | Event(id: string, body: E)

  /** A message together with what this delivery meets: `fault` is an error of some statement. */
  datatype Delivery<E> = Delivery(message: Message<E>, fault: bool)

  datatype Batch<E> = Batch(beginFails: bool, deliveries: seq<Delivery<E>>, commit: CommitAnswer)

  /** The business tables and the ids in processed_events. */
  datatype Db<S> = Db(tables: S, processed: set<string>)

  /** The effect of an event; None when it violates a constraint. */
  type Effect<!S, !E> = (S, E) -> Option<S>

  /** One message inside the transaction. */
  function ApplyOne<S, E>(db: Db<S>, d: Delivery<E>, effect: Effect<S, E>): Option<Db<S>> {
    if d.message.Malformed? || d.fault then None
    else if d.message.id in db.processed then Some(db)
    else
      match effect(db.tables, d.message.body)
      case None => None
      case Some(t) => Some(Db(t, db.processed + {d.message.id}))
  }

  /** The transaction after all messages; None when it has to be rolled back. */
  function ApplyAll<S, E>(db: Db<S>, ds: seq<Delivery<E>>, effect: Effect<S, E>): Option<Db<S>> {
    if ds == [] then Some(db)
    else
      match ApplyAll(db, ds[..|ds| - 1], effect)
      case None => None
      case Some(tx) => ApplyOne(tx, ds[|ds| - 1], effect)
  }

  lemma ApplyNext<S, E>(db: Db<S>, ds: seq<Delivery<E>>, i: nat, effect: Effect<S, E>)
    requires i < |ds|
    ensures ApplyAll(db, ds[..i + 1], effect)
      == match ApplyAll(db, ds[..i], effect) case None => None case Some(tx) => ApplyOne(tx, ds[i], effect)
  {
    var part := ds[..i + 1];
    assert part != [] && |part| - 1 == i && part[..i] == ds[..i] && part[i] == ds[i];
  }

  predicate TakesEffect<S, E>(db: Db<S>, b: Batch<E>, effect: Effect<S, E>) {
    b.deliveries != [] && !b.beginFails && !b.commit.Fails? && ApplyAll(db, b.deliveries, effect).Some?
  }

  function AfterBatch<S, E>(db: Db<S>, b: Batch<E>, effect: Effect<S, E>): Db<S> {
    if TakesEffect(db, b, effect) then ApplyAll(db, b.deliveries, effect).value else db
  }

  /** The batch is acked only after a commit that reported success; otherwise it is nak'd. */
  predicate Acked<S, E>(db: Db<S>, b: Batch<E>, effect: Effect<S, E>) {
    TakesEffect(db, b, effect) && b.commit.Commits?
  }

  /** A write of someone else to the same tables, or a batch. */
  datatype Act<D, E> = Direct(write: D) | Stream(batch: Batch<E>)

  /** What a direct write makes of the tables. */
  type Writer<!S, !D> = (S, D) -> S

  function AfterAct<S, D, E>(db: Db<S>, act: Act<D, E>, direct: Writer<S, D>, effect: Effect<S, E>): Db<S> {
    match act
    case Direct(w) => Db(direct(db.tables, w), db.processed)
    case Stream(b) => AfterBatch(db, b, effect)
  }

  /** Any interleaving of batches with other writes: redelivery, reordering, lost acks and crashes are all of
      this form. */
  function Run<S, D, E>(tables: S, acts: seq<Act<D, E>>, direct: Writer<S, D>, effect: Effect<S, E>): Db<S> {
    if acts == [] then Db(tables, {})
    else AfterAct(Run(tables, acts[..|acts| - 1], direct, effect), acts[|acts| - 1], direct, effect)
  }

  lemma RunAppend<S, D, E>(
      tables: S, acts: seq<Act<D, E>>, act: Act<D, E>, direct: Writer<S, D>, effect: Effect<S, E>)
    ensures Run(tables, acts + [act], direct, effect)
      == AfterAct(Run(tables, acts, direct, effect), act, direct, effect)
  {
    assert (acts + [act])[..|acts|] == acts;
  }

  // ---- the reference: every event once, in the order of first commit, among the direct changes ----

  /** The events of a batch, duplicates included. */
  function EventsOf<E>(ds: seq<Delivery<E>>): seq<(string, E)> {
    if ds == [] then []
    else
      var m := ds[|ds| - 1].message;
      EventsOf(ds[..|ds| - 1]) + if m.Event? then [(m.id, m.body)] else []
  }

  /** The events of an act that takes effect on this database. */
  function CommittedBy<S, D, E>(db: Db<S>, act: Act<D, E>, effect: Effect<S, E>): seq<(string, E)> {
    if act.Stream? && TakesEffect(db, act.batch, effect) then EventsOf(act.batch.deliveries) else []
  }

  /** All events of the batches that took effect, duplicates included. */
  function Committed<S, D, E>(
      tables: S, acts: seq<Act<D, E>>, direct: Writer<S, D>, effect: Effect<S, E>): seq<(string, E)>
  {
    if acts == [] then []
    else
      var before, act := acts[..|acts| - 1], acts[|acts| - 1];
      Committed(tables, before, direct, effect) + CommittedBy(Run(tables, before, direct, effect), act, effect)
  }

  /** The direct writes, in order. */
  function Directs<D, E>(acts: seq<Act<D, E>>): seq<D> {
    if acts == [] then []
    else
      var before, act := Directs(acts[..|acts| - 1]), acts[|acts| - 1];
      if act.Direct? then before + [act.write] else before
  }

  ghost function Ids<E>(events: seq<(string, E)>): set<string> {
    set e | e in events :: e.0
  }

  /** The list without every event whose id is in the set or occurs earlier. */
  ghost function Fresh<E>(processed: set<string>, events: seq<(string, E)>): seq<(string, E)> {
    if events == [] then []
    else
      var init, last := events[..|events| - 1], events[|events| - 1];
      if last.0 in processed || last.0 in Ids(init) then Fresh(processed, init) else Fresh(processed, init) + [last]
  }

  /** The list without every event whose id occurs earlier. */
  ghost function FirstOccurrences<E>(events: seq<(string, E)>): seq<(string, E)> {
    Fresh({}, events)
  }

  lemma IdsConcat<E>(a: seq<(string, E)>, b: seq<(string, E)>)
    ensures Ids(a + b) == Ids(a) + Ids(b)
  {
    assert forall e :: e in a + b <==> e in a || e in b;
  }

  lemma IdsAppend<E>(events: seq<(string, E)>, e: (string, E))
    ensures Ids(events + [e]) == Ids(events) + {e.0}
  {
    assert forall f :: f in events + [e] <==> f in events || f == e;
  }

  lemma {:induction false} FreshConcat<E>(processed: set<string>, a: seq<(string, E)>, b: seq<(string, E)>)
    ensures Fresh(processed, a + b) == Fresh(processed, a) + Fresh(processed + Ids(a), b)
  {
    if b == [] {
      assert a + b == a;
    } else {
      var init, last := b[..|b| - 1], b[|b| - 1];
      FreshConcat(processed, a, init);
      IdsConcat(a, init);
      assert a + b == a + init + [last] && (a + init + [last])[..|a + init|] == a + init;
    }
  }

  lemma {:induction false} FirstOccurrencesFacts<E>(events: seq<(string, E)>)
    ensures Ids(FirstOccurrences(events)) == Ids(events)
    ensures
      var once := FirstOccurrences(events);
      && (forall i, j :: 0 <= i < j < |once| ==> once[i].0 != once[j].0)
      && (forall e :: e in once ==> e in events)
  {
    if events != [] {
      var init, last := events[..|events| - 1], events[|events| - 1];
      FirstOccurrencesFacts(init);
      assert events == init + [last];
      IdsAppend(init, last);
      var once := FirstOccurrences(init);
      assert forall i :: 0 <= i < |once| ==> once[i].0 in Ids(once);
      IdsAppend(once, last);
    }
  }

  /** A change as the tables see it: a direct write, or the first commit of an event. */
  datatype Change<D, E> = Own(write: D) | Once(event: (string, E))

  function Onces<D, E>(events: seq<(string, E)>): (changes: seq<Change<D, E>>)
    ensures |changes| == |events| && forall k :: 0 <= k < |events| ==> changes[k] == Once(events[k])
  {
    seq(|events|, k requires 0 <= k < |events| => Once(events[k]))
  }

  /** The changes that an act applies to this database. */
  ghost function AppliedBy<S, D, E>(db: Db<S>, act: Act<D, E>, effect: Effect<S, E>): seq<Change<D, E>> {
    match act
    case Direct(w) => [Own(w)]
    case Stream(b) => Onces(Fresh(db.processed, CommittedBy(db, act, effect)))
  }

  /** The changes that a history applies, in order. */
  ghost function Applied<S, D, E>(
      tables: S, acts: seq<Act<D, E>>, direct: Writer<S, D>, effect: Effect<S, E>): seq<Change<D, E>>
  {
    if acts == [] then []
    else
      var before, act := acts[..|acts| - 1], acts[|acts| - 1];
      Applied(tables, before, direct, effect) + AppliedBy(Run(tables, before, direct, effect), act, effect)
  }

  function OwnPart<D, E>(changes: seq<Change<D, E>>): seq<D> {
    if changes == [] then []
    else
      var before, last := OwnPart(changes[..|changes| - 1]), changes[|changes| - 1];
      if last.Own? then before + [last.write] else before
  }

  function OncePart<D, E>(changes: seq<Change<D, E>>): seq<(string, E)> {
    if changes == [] then []
    else
      var before, last := OncePart(changes[..|changes| - 1]), changes[|changes| - 1];
      if last.Once? then before + [last.event] else before
  }

  function AfterChange<S, D, E>(tables: S, c: Change<D, E>, direct: Writer<S, D>, effect: Effect<S, E>): S {
    match c
    case Own(d) => direct(tables, d)
    case Once(e) => match effect(tables, e.1) case None => tables case Some(t) => t
  }

  function Replay<S, D, E>(tables: S, changes: seq<Change<D, E>>, direct: Writer<S, D>, effect: Effect<S, E>): S {
    if changes == [] then tables
    else
      AfterChange(Replay(tables, changes[..|changes| - 1], direct, effect), changes[|changes| - 1], direct, effect)
  }

  lemma {:induction false} ReplayConcat<S, D, E>(
      tables: S, a: seq<Change<D, E>>, b: seq<Change<D, E>>, direct: Writer<S, D>, effect: Effect<S, E>)
    ensures Replay(tables, a + b, direct, effect) == Replay(Replay(tables, a, direct, effect), b, direct, effect)
  {
    if b == [] {
      assert a + b == a;
    } else {
      ReplayConcat(tables, a, b[..|b| - 1], direct, effect);
      assert (a + b)[..|a + b| - 1] == a + b[..|b| - 1];
    }
  }

  lemma {:induction false} PartsConcat<D, E>(a: seq<Change<D, E>>, b: seq<Change<D, E>>)
    ensures OwnPart(a + b) == OwnPart(a) + OwnPart(b) && OncePart(a + b) == OncePart(a) + OncePart(b)
  {
    if b == [] {
      assert a + b == a;
    } else {
      PartsConcat(a, b[..|b| - 1]);
      assert (a + b)[..|a + b| - 1] == a + b[..|b| - 1];
    }
  }

  lemma {:induction false} OncesParts<D, E>(events: seq<(string, E)>)
    ensures OwnPart<D, E>(Onces(events)) == [] && OncePart<D, E>(Onces(events)) == events
  {
    if events != [] {
      var init := events[..|events| - 1];
      OncesParts<D, E>(init);
      assert Onces<D, E>(events)[..|events| - 1] == Onces<D, E>(init);
    }
  }

  lemma OneMoreEvent<S, D, E>(
      db: Db<S>, tx: Db<S>, init: seq<(string, E)>, d: Delivery<E>, direct: Writer<S, D>, effect: Effect<S, E>)
    requires tx.tables == Replay(db.tables, Onces<D, E>(Fresh(db.processed, init)), direct, effect)
    requires tx.processed == db.processed + Ids(init) && ApplyOne(tx, d, effect).Some?
    ensures
      var events := init + [(d.message.id, d.message.body)];
      && ApplyOne(tx, d, effect).value.tables
        == Replay(db.tables, Onces<D, E>(Fresh(db.processed, events)), direct, effect)
      && ApplyOne(tx, d, effect).value.processed == db.processed + Ids(events)
  {
    var last := (d.message.id, d.message.body);
    var unseen := Fresh(db.processed, init);
    FreshAppend(db.processed, init, last);
    IdsAppend(init, last);
    if last.0 !in tx.processed {
      ReplayOnce<S, D, E>(db.tables, unseen, last, direct, effect);
    }
  }

  lemma FreshAppend<E>(processed: set<string>, init: seq<(string, E)>, last: (string, E))
    ensures Fresh(processed, init + [last]) ==
      Fresh(processed, init) + if last.0 in processed + Ids(init) then [] else [last]
  {
    assert (init + [last])[..|init|] == init;
  }

  lemma ReplayOnce<S, D, E>(
      tables: S, events: seq<(string, E)>, last: (string, E), direct: Writer<S, D>, effect: Effect<S, E>)
    ensures Replay(tables, Onces<D, E>(events + [last]), direct, effect)
      == AfterChange(Replay(tables, Onces<D, E>(events), direct, effect), Once(last), direct, effect)
  {
    var more := Onces<D, E>(events + [last]);
    assert more[..|more| - 1] == Onces<D, E>(events) && more[|more| - 1] == Once(last);
  }

  /** A batch that takes effect applies its fresh events, each once. */
  lemma {:induction false} BatchIsReplay<S, D, E>(
      db: Db<S>, ds: seq<Delivery<E>>, direct: Writer<S, D>, effect: Effect<S, E>)
    requires ApplyAll(db, ds, effect).Some?
    ensures ApplyAll(db, ds, effect).value.tables
      == Replay(db.tables, Onces<D, E>(Fresh(db.processed, EventsOf(ds))), direct, effect)
    ensures ApplyAll(db, ds, effect).value.processed == db.processed + Ids(EventsOf(ds))
  {
    if ds != [] {
      var init, d := ds[..|ds| - 1], ds[|ds| - 1];
      BatchIsReplay(db, init, direct, effect);
      OneMoreEvent(db, ApplyAll(db, init, effect).value, EventsOf(init), d, direct, effect);
    }
  }

  lemma ActIsReplay<S, D, E>(db: Db<S>, act: Act<D, E>, direct: Writer<S, D>, effect: Effect<S, E>)
    ensures AfterAct(db, act, direct, effect).tables
      == Replay(db.tables, AppliedBy(db, act, effect), direct, effect)
    ensures AfterAct(db, act, direct, effect).processed == db.processed + Ids(CommittedBy(db, act, effect))
  {
    match act {
      case Direct(w) =>
        assert [Change<D, E>.Own(w)][..0] == [];
      case Stream(b) =>
        if TakesEffect(db, b, effect) {
          BatchIsReplay(db, b.deliveries, direct, effect);
        }
    }
  }

  lemma ActParts<S, D, E>(db: Db<S>, act: Act<D, E>, effect: Effect<S, E>)
    ensures OwnPart(AppliedBy(db, act, effect)) == if act.Direct? then [act.write] else []
    ensures OncePart(AppliedBy(db, act, effect)) == Fresh(db.processed, CommittedBy(db, act, effect))
  {
    match act {
      case Direct(w) =>
        assert [Change<D, E>.Own(w)][..0] == [];
      case Stream(b) =>
        OncesParts<D, E>(Fresh(db.processed, CommittedBy(db, act, effect)));
    }
  }

  lemma {:induction false} RunIsReplay<S, D, E>(
      tables: S, acts: seq<Act<D, E>>, direct: Writer<S, D>, effect: Effect<S, E>)
    ensures
      var events, changes := Committed(tables, acts, direct, effect), Applied(tables, acts, direct, effect);
      && Run(tables, acts, direct, effect).tables == Replay(tables, changes, direct, effect)
      && OwnPart(changes) == Directs(acts) && OncePart(changes) == FirstOccurrences(events)
      && Run(tables, acts, direct, effect).processed == Ids(events)
  {
    if acts != [] {
      var before, act := acts[..|acts| - 1], acts[|acts| - 1];
      assert acts == before + [act];
      RunIsReplay(tables, before, direct, effect);
      OneMoreAct(tables, before, act, direct, effect);
      LastAct(tables, before, act, direct, effect);
    }
  }

  lemma LastAct<S, D, E>(
      tables: S, before: seq<Act<D, E>>, act: Act<D, E>, direct: Writer<S, D>, effect: Effect<S, E>)
    ensures
      var acts, db := before + [act], Run(tables, before, direct, effect);
      && Run(tables, acts, direct, effect) == AfterAct(db, act, direct, effect)
      && Committed(tables, acts, direct, effect)
        == Committed(tables, before, direct, effect) + CommittedBy(db, act, effect)
      && Applied(tables, acts, direct, effect)
        == Applied(tables, before, direct, effect) + AppliedBy(db, act, effect)
      && Directs(acts) == Directs(before) + if act.Direct? then [act.write] else []
  {
    assert (before + [act])[..|before|] == before;
  }

  /** Exactly once: whatever is redelivered, rolled back, committed unseen or never acked, and whoever else
      changes in between, the tables are those of the direct writes in their order and of each committed event
      id once, in the order of first commit, and processed_events holds exactly those ids. */
  lemma ExactlyOnce<S, D, E>(tables: S, acts: seq<Act<D, E>>, direct: Writer<S, D>, effect: Effect<S, E>)
    ensures
      var events, changes := Committed(tables, acts, direct, effect), Applied(tables, acts, direct, effect);
      var once := OncePart(changes);
      && Run(tables, acts, direct, effect).tables == Replay(tables, changes, direct, effect)
      && OwnPart(changes) == Directs(acts) && once == FirstOccurrences(events)
      && Run(tables, acts, direct, effect).processed == Ids(once) == Ids(events)
      && forall i, j :: 0 <= i < j < |once| ==> once[i].0 != once[j].0
  {
    RunIsReplay(tables, acts, direct, effect);
    FirstOccurrencesFacts(Committed(tables, acts, direct, effect));
  }

  lemma OneMoreAct<S, D, E>(
      tables: S, before: seq<Act<D, E>>, act: Act<D, E>, direct: Writer<S, D>, effect: Effect<S, E>)
    requires Run(tables, before, direct, effect).tables
      == Replay(tables, Applied(tables, before, direct, effect), direct, effect)
    requires Run(tables, before, direct, effect).processed == Ids(Committed(tables, before, direct, effect))
    ensures
      var db, changes := Run(tables, before, direct, effect), Applied(tables, before, direct, effect);
      var events, more := Committed(tables, before, direct, effect), AppliedBy(db, act, effect);
      && AfterAct(db, act, direct, effect).tables == Replay(tables, changes + more, direct, effect)
      && OwnPart(changes + more) == OwnPart(changes) + (if act.Direct? then [act.write] else [])
      && OncePart(changes + more) == OncePart(changes) + Fresh(Ids(events), CommittedBy(db, act, effect))
      && FirstOccurrences(events + CommittedBy(db, act, effect))
        == FirstOccurrences(events) + Fresh(Ids(events), CommittedBy(db, act, effect))
      && AfterAct(db, act, direct, effect).processed == Ids(events + CommittedBy(db, act, effect))
  {
    var db, changes := Run(tables, before, direct, effect), Applied(tables, before, direct, effect);
    var events, added := Committed(tables, before, direct, effect), CommittedBy(db, act, effect);
    ActIsReplay(db, act, direct, effect);
    ActParts(db, act, effect);
    ReplayConcat(tables, changes, AppliedBy(db, act, effect), direct, effect);
    PartsConcat(changes, AppliedBy(db, act, effect));
    FreshConcat({}, events, added);
    assert {} + Ids(events) == Ids(events);
    IdsConcat(events, added);
  }

  /** Message i fails: it cannot be decoded, a statement meets an error, or its write breaks a constraint of
      the tables as the messages before it leave them. */
  predicate FailsAt<S, E>(db: Db<S>, ds: seq<Delivery<E>>, i: nat, effect: Effect<S, E>)
    requires i < |ds|
  {
    ds[i].message.Malformed? || ds[i].fault
    || match ApplyAll(db, ds[..i], effect) case None => false case Some(tx) => ApplyOne(tx, ds[i], effect).None?
  }

  lemma {:induction false} OneFailureFailsAll<S, E>(db: Db<S>, ds: seq<Delivery<E>>, i: nat, effect: Effect<S, E>)
    requires i < |ds| && FailsAt(db, ds, i, effect)
    ensures ApplyAll(db, ds, effect).None?
  {
    if i < |ds| - 1 {
      assert ds[..|ds| - 1][..i] == ds[..i];
      OneFailureFailsAll(db, ds[..|ds| - 1], i, effect);
    }
  }

  /** One failed message and the whole batch has no effect and is not acked, wherever the message is. */
  lemma FailedBatchHasNoEffect<S, E>(db: Db<S>, b: Batch<E>, i: nat, effect: Effect<S, E>)
    requires i < |b.deliveries| && FailsAt(db, b.deliveries, i, effect)
    ensures AfterBatch(db, b, effect) == db && !Acked(db, b, effect)
  {
    OneFailureFailsAll(db, b.deliveries, i, effect);
  }

  // ---- what becomes of a batch, told by the tables between its messages ----

  lemma KnownId<E>(ds: seq<Delivery<E>>, n: nat)
    requires n < |ds| && forall k :: 0 <= k < |ds| ==> ds[k].message.Event?
    ensures ds[n].message.id in Ids(EventsOf(ds[..n])) <==>
      exists j :: 0 <= j < n && ds[j].message.id == ds[n].message.id
  {
    IdsOfEvents(ds[..n]);
  }

  lemma {:induction false} IdsOfEvents<E>(ds: seq<Delivery<E>>)
    requires forall k :: 0 <= k < |ds| ==> ds[k].message.Event?
    ensures Ids(EventsOf(ds)) == set k | 0 <= k < |ds| :: ds[k].message.id
  {
    if ds != [] {
      var init, last := ds[..|ds| - 1], ds[|ds| - 1];
      IdsOfEvents(init);
      IdsAppend(EventsOf(init), (last.message.id, last.message.body));
      assert EventsOf(ds) == EventsOf(init) + [(last.message.id, last.message.body)];
      assert forall k :: 0 <= k < |init| ==> init[k] == ds[k];
    }
  }

  lemma OneStep<S, E>(db: Db<S>, tx: Db<S>, ds: seq<Delivery<E>>, n: nat, effect: Effect<S, E>)
    requires n < |ds| && forall k :: 0 <= k < |ds| ==> ds[k].message.Event? && !ds[k].fault
    requires ApplyAll(db, ds[..n], effect) == Some(tx) && tx.processed == db.processed + Ids(EventsOf(ds[..n]))
    ensures
      var again := ds[n].message.id in db.processed || exists j :: 0 <= j < n && ds[j].message.id == ds[n].message.id;
      ApplyAll(db, ds[..n + 1], effect) ==
        if again then Some(tx)
        else
          match effect(tx.tables, ds[n].message.body)
          case None => None
          case Some(t) => Some(Db(t, tx.processed + {ds[n].message.id}))
    ensures Ids(EventsOf(ds[..n + 1])) == Ids(EventsOf(ds[..n])) + {ds[n].message.id}
  {
    ApplyNext(db, ds, n, effect);
    KnownId(ds, n);
    assert ds[..n + 1][..n] == ds[..n];
    IdsAppend(EventsOf(ds[..n]), (ds[n].message.id, ds[n].message.body));
  }

  lemma {:induction false} TraceApplied<S, E>(
      db: Db<S>, ds: seq<Delivery<E>>, effect: Effect<S, E>, states: seq<S>, n: nat)
    requires n <= |ds|
    requires |states| == |ds| + 1 && states[0] == db.tables
      && (forall k :: 0 <= k < |ds| ==> ds[k].message.Event? && !ds[k].fault)
      && forall k :: 0 <= k < |ds| ==>
        if ds[k].message.id in db.processed || (exists j :: 0 <= j < k && ds[j].message.id == ds[k].message.id)
        then states[k + 1] == states[k]
        else effect(states[k], ds[k].message.body) == Some(states[k + 1])
    ensures ApplyAll(db, ds[..n], effect) == Some(Db(states[n], db.processed + Ids(EventsOf(ds[..n]))))
  {
    if n == 0 {
      assert db.processed + Ids<E>([]) == db.processed;
    } else {
      var m := n - 1;
      TraceApplied(db, ds, effect, states, m);
      OneStep(db, ApplyAll(db, ds[..m], effect).value, ds, m, effect);
      KnownId(ds, m);
      var before := db.processed + Ids(EventsOf(ds[..m]));
      assert db.processed + Ids(EventsOf(ds[..n])) == before + {ds[m].message.id};
      assert ds[m].message.id in before ==> before + {ds[m].message.id} == before;
    }
  }

  /** `states` are the tables between the messages of a batch in which nothing fails. */
  ghost predicate IsTrace<S, E>(db: Db<S>, ds: seq<Delivery<E>>, effect: Effect<S, E>, states: seq<S>) {
    && |states| == |ds| + 1 && states[0] == db.tables
    && (forall k :: 0 <= k < |ds| ==> ds[k].message.Event? && !ds[k].fault)
    && (forall k :: 0 <= k < |ds| ==>
          if ds[k].message.id in db.processed || (exists j :: 0 <= j < k && ds[j].message.id == ds[k].message.id)
          then states[k + 1] == states[k]
          else effect(states[k], ds[k].message.body) == Some(states[k + 1]))
  }

  lemma TraceIsApplied<S, E>(db: Db<S>, ds: seq<Delivery<E>>, effect: Effect<S, E>, states: seq<S>)
    requires IsTrace(db, ds, effect, states)
    ensures ApplyAll(db, ds, effect) == Some(Db(states[|ds|], db.processed + set k | 0 <= k < |ds| :: ds[k].message.id))
  {
    TraceApplied(db, ds, effect, states, |ds|);
    IdsOfEvents(ds);
    assert ds[..|ds|] == ds;
  }

  /** A batch in which nothing fails is written with all its events and acked if the commit says so: `states` are the
      tables between its messages, each fresh event taking its effect and each known one none. */
  lemma GoodBatch<S, E>(db: Db<S>, b: Batch<E>, ds: seq<Delivery<E>>, effect: Effect<S, E>, states: seq<S>)
    requires ds == b.deliveries && ds != [] && !b.beginFails && !b.commit.Fails?
    requires
      && |states| == |ds| + 1 && states[0] == db.tables
      && (forall k :: 0 <= k < |ds| ==> ds[k].message.Event? && !ds[k].fault)
      && (forall k :: 0 <= k < |ds| ==>
            if ds[k].message.id in db.processed || (exists j :: 0 <= j < k && ds[j].message.id == ds[k].message.id)
            then states[k + 1] == states[k]
            else effect(states[k], ds[k].message.body) == Some(states[k + 1]))
    ensures AfterBatch(db, b, effect) == Db(states[|ds|], db.processed + set k | 0 <= k < |ds| :: ds[k].message.id)
    ensures Acked(db, b, effect) <==> b.commit.Commits?
  {
    TraceIsApplied(db, ds, effect, states);
  }

  /** And only such a batch changes anything or is acked. */
  lemma OnlyGoodBatches<S, E>(db: Db<S>, b: Batch<E>, effect: Effect<S, E>)
    requires AfterBatch(db, b, effect) != db || Acked(db, b, effect)
    ensures b.deliveries != [] && !b.beginFails && !b.commit.Fails?
    ensures exists states: seq<S> :: IsTrace(db, b.deliveries, effect, states)
  {
    var states := TraceOf(db, b.deliveries, effect);
  }

  /** Which batches take effect, and what they leave. */
  lemma BatchIsTold<S(!new), E>(db: Db<S>, b: Batch<E>, effect: Effect<S, E>)
    ensures
      var ds := b.deliveries;
      forall states: seq<S> ::
        ds != [] && !b.beginFails && !b.commit.Fails? && IsTrace(db, ds, effect, states) ==>
          && AfterBatch(db, b, effect).tables == states[|ds|]
          && AfterBatch(db, b, effect).processed
            == db.processed + (set k | 0 <= k < |ds| :: ds[k].message.id)
          && (Acked(db, b, effect) <==> b.commit.Commits?)
    ensures AfterBatch(db, b, effect) != db || Acked(db, b, effect) ==>
      && b.deliveries != [] && !b.beginFails && !b.commit.Fails?
      && exists states: seq<S> :: IsTrace(db, b.deliveries, effect, states)
  {
    var ds := b.deliveries;
    forall states: seq<S> |
      ds != [] && !b.beginFails && !b.commit.Fails? && IsTrace(db, ds, effect, states)
      ensures AfterBatch(db, b, effect)
        == Db(states[|ds|], db.processed + set k | 0 <= k < |ds| :: ds[k].message.id)
      ensures Acked(db, b, effect) <==> b.commit.Commits?
    {
      GoodBatch(db, b, ds, effect, states);
    }
    if AfterBatch(db, b, effect) != db || Acked(db, b, effect) {
      OnlyGoodBatches(db, b, effect);
    }
  }

  lemma {:induction false} TraceOf<S, E>(db: Db<S>, ds: seq<Delivery<E>>, effect: Effect<S, E>)
    returns (states: seq<S>)
    requires ApplyAll(db, ds, effect).Some?
    ensures IsTrace(db, ds, effect, states)
  {
    if ds == [] {
      states := [db.tables];
    } else {
      var n, init := |ds| - 1, ds[..|ds| - 1];
      states := TraceOf(db, init, effect);
      TraceIsApplied(db, init, effect, states);
      AllGood(db, ds, effect);
      IdsOfEvents(init);
      OneStep(db, ApplyAll(db, init, effect).value, ds, n, effect);
      assert ds[..n + 1] == ds && init + [ds[n]] == ds;
      var t := ApplyAll(db, ds, effect).value.tables;
      TraceGrows(db, init, ds[n], effect, states, t);
      states := states + [t];
    }
  }

  lemma TraceGrows<S, E>(db: Db<S>, init: seq<Delivery<E>>, d: Delivery<E>, effect: Effect<S, E>, states: seq<S>, t: S)
    requires IsTrace(db, init, effect, states) && d.message.Event? && !d.fault
    requires
      if d.message.id in db.processed || exists j :: 0 <= j < |init| && init[j].message.id == d.message.id
      then t == states[|init|] else effect(states[|init|], d.message.body) == Some(t)
    ensures IsTrace(db, init + [d], effect, states + [t])
  {
    var n, ds, more := |init|, init + [d], states + [t];
    forall k | 0 <= k < |ds|
      ensures
        if ds[k].message.id in db.processed || (exists j :: 0 <= j < k && ds[j].message.id == ds[k].message.id)
        then more[k + 1] == more[k] else effect(more[k], ds[k].message.body) == Some(more[k + 1])
    {
      if k < n {
        assert more[k] == states[k] && more[k + 1] == states[k + 1] && ds[k] == init[k];
        assert forall j :: 0 <= j < k ==> ds[j] == init[j];
      } else {
        assert more[k] == states[k] && more[k + 1] == t && ds[k] == d;
        assert forall j :: 0 <= j < k ==> ds[j] == init[j];
      }
    }
  }

  lemma {:induction false} AllGood<S, E>(db: Db<S>, ds: seq<Delivery<E>>, effect: Effect<S, E>)
    requires ApplyAll(db, ds, effect).Some?
    ensures forall k :: 0 <= k < |ds| ==> ds[k].message.Event? && !ds[k].fault
  {
    if ds != [] {
      AllGood(db, ds[..|ds| - 1], effect);
    }
  }

  lemma {:induction false} AppliedAreProcessed<S, E>(db: Db<S>, ds: seq<Delivery<E>>, effect: Effect<S, E>)
    requires ApplyAll(db, ds, effect).Some?
    ensures db.processed <= ApplyAll(db, ds, effect).value.processed
    ensures forall d :: d in ds ==> d.message.Event? && d.message.id in ApplyAll(db, ds, effect).value.processed
  {
    if ds != [] {
      AppliedAreProcessed(db, ds[..|ds| - 1], effect);
      assert ds == ds[..|ds| - 1] + [ds[|ds| - 1]];
    }
  }

  lemma {:induction false} ProcessedGrows<S, D, E>(
      tables: S, acts: seq<Act<D, E>>, n: nat, direct: Writer<S, D>, effect: Effect<S, E>)
    requires n <= |acts|
    ensures Run(tables, acts[..n], direct, effect).processed <= Run(tables, acts, direct, effect).processed
  {
    if n == |acts| {
      assert acts[..n] == acts;
    } else {
      var before, act := acts[..|acts| - 1], acts[|acts| - 1];
      ProcessedGrows(tables, before, n, direct, effect);
      assert before[..n] == acts[..n];
      ActIsReplay(Run(tables, before, direct, effect), act, direct, effect);
    }
  }

  /** Every message that was ever acked has its event id in processed_events, for good. */
  lemma AckedIsProcessed<S, D, E>(
      tables: S, acts: seq<Act<D, E>>, n: nat, direct: Writer<S, D>, effect: Effect<S, E>)
    requires n < |acts| && acts[n].Stream?
    requires Acked(Run(tables, acts[..n], direct, effect), acts[n].batch, effect)
    ensures forall d :: d in acts[n].batch.deliveries ==>
      d.message.Event? && d.message.id in Run(tables, acts, direct, effect).processed
  {
    AppliedAreProcessed(Run(tables, acts[..n], direct, effect), acts[n].batch.deliveries, effect);
    assert acts[..n + 1] == acts[..n] + [acts[n]];
    RunAppend(tables, acts[..n], acts[n], direct, effect);
    ProcessedGrows(tables, acts, n + 1, direct, effect);
  }

  /** Redelivering processed events changes nothing, and they can be acked at last. */
  lemma {:induction false} RedeliveryIsHarmless<S, E>(db: Db<S>, ds: seq<Delivery<E>>, effect: Effect<S, E>)
    requires forall d :: d in ds ==> d.message.Event? && !d.fault && d.message.id in db.processed
    ensures ApplyAll(db, ds, effect) == Some(db)
  {
    if ds != [] {
      RedeliveryIsHarmless(db, ds[..|ds| - 1], effect);
      assert ds[|ds| - 1] in ds;
    }
  }
}
