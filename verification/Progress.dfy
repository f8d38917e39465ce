/** Watch progress as a last-writer-wins register: the repository, the gRPC service in front of it,
    and the activity.progress consumer. */
module Progress {
  import opened Wrappers
  import opened IdempotentBatches
  import opened Text

  datatype Write = Write(position: int, duration: int, completed: bool, clientTs: int)

  datatype Row = Row(write: Write, updatedAt: int)

  /** user_episode_progress has the primary key (user_id, episode_id). */
  type Slot = (string, string)
  type Table = map<Slot, Row>

  /** A write to one row at a clock reading. */
  datatype Put = Put(slot: Slot, write: Write, now: int)

  /** INSERT ... ON CONFLICT DO UPDATE ... WHERE stored client_ts_ms <= the new one. */
  function Upserted(rows: Table, p: Put): Table {
    if p.slot in rows && p.write.clientTs < rows[p.slot].write.clientTs then rows
    else rows[p.slot := Row(p.write, p.now)]
  }

  function Puts(rows: Table, puts: seq<Put>): Table {
    if puts == [] then rows else Upserted(Puts(rows, puts[..|puts| - 1]), puts[|puts| - 1])
  }

  /** The writes to one row, in order. */
  function WritesTo(puts: seq<Put>, slot: Slot): seq<Write> {
    if puts == [] then []
    else
      var p := puts[|puts| - 1];
      if p.slot == slot then WritesTo(puts[..|puts| - 1], slot) + [p.write] else WritesTo(puts[..|puts| - 1], slot)
  }

  /** w is the last among the writes with the greatest timestamp. */
  ghost predicate IsLatest(writes: seq<Write>, w: Write) {
    exists i: nat :: i < |writes| && LatestAt(writes, i) && writes[i] == w
  }

  ghost predicate LatestAt(writes: seq<Write>, i: nat)
    requires i < |writes|
  {
    && (forall j :: 0 <= j < i ==> writes[j].clientTs <= writes[i].clientTs)
    && (forall j :: i < j < |writes| ==> writes[j].clientTs < writes[i].clientTs)
  }

  lemma AppendLatest(writes: seq<Write>, w: Write, more: Write)
    requires IsLatest(writes, w)
    ensures IsLatest(writes + [more], if more.clientTs < w.clientTs then w else more)
  {
    var i: nat :| i < |writes| && LatestAt(writes, i) && writes[i] == w;
    var all := writes + [more];
    assert all[|writes|] == more && forall j :: 0 <= j < |writes| ==> all[j] == writes[j];
    if more.clientTs < w.clientTs {
      assert LatestAt(all, i);
    } else {
      assert LatestAt(all, |writes|);
    }
  }

  /** After any run of writes from an empty table a row holds the latest write to it, and exists
      exactly if there was one. Ties go to the write applied last. */
  lemma {:induction false} RowHoldsLatest(puts: seq<Put>, slot: Slot)
    ensures
      var rows, writes := Puts(map[], puts), WritesTo(puts, slot);
      && (slot in rows <==> writes != [])
      && (slot in rows ==> IsLatest(writes, rows[slot].write))
  {
    if puts != [] {
      var init, p := puts[..|puts| - 1], puts[|puts| - 1];
      RowHoldsLatest(init, slot);
      if p.slot == slot {
        if slot in Puts(map[], init) {
          AppendLatest(WritesTo(init, slot), Puts(map[], init)[slot].write, p.write);
        } else {
          assert WritesTo(puts, slot) == [p.write];
          assert LatestAt(WritesTo(puts, slot), 0);
        }
      }
    }
  }

  /** A stored timestamp never decreases and a row never disappears. */
  lemma {:induction false} TimestampsGrow(rows: Table, puts: seq<Put>, slot: Slot)
    requires slot in rows
    ensures slot in Puts(rows, puts) && rows[slot].write.clientTs <= Puts(rows, puts)[slot].write.clientTs
  {
    if puts != [] {
      TimestampsGrow(rows, puts[..|puts| - 1], slot);
    }
  }

  ghost predicate Newest(ws: set<Write>, w: Write) {
    w in ws && forall v :: v in ws ==> v.clientTs <= w.clientTs
  }

  /** The greatest timestamp is carried by one write only. */
  ghost predicate NewestIsUnique(ws: set<Write>) {
    forall v, w :: Newest(ws, v) && Newest(ws, w) ==> v == w
  }

  lemma LatestIsNewest(writes: seq<Write>, w: Write)
    requires IsLatest(writes, w)
    ensures Newest(Elements(writes), w)
  {
    var i: nat :| i < |writes| && LatestAt(writes, i) && writes[i] == w;
    assert forall j :: 0 <= j < |writes| ==> writes[j].clientTs <= writes[i].clientTs;
  }

  /** Convergence: two runs that apply the same writes to a row, each at least once, in any order and
      any number of times, end with the same write in it. */
  lemma Converges(a: seq<Put>, b: seq<Put>, slot: Slot)
    requires Elements(WritesTo(a, slot)) == Elements(WritesTo(b, slot))
    requires NewestIsUnique(Elements(WritesTo(a, slot)))
    ensures slot in Puts(map[], a) <==> slot in Puts(map[], b)
    ensures slot in Puts(map[], a) ==> Puts(map[], a)[slot].write == Puts(map[], b)[slot].write
  {
    RowHoldsLatest(a, slot);
    RowHoldsLatest(b, slot);
    var x, y := WritesTo(a, slot), WritesTo(b, slot);
    if x != [] {
      assert x[0] in Elements(x);
    }
    if y != [] {
      assert y[0] in Elements(y);
    }
    if x != [] && y != [] {
      LatestIsNewest(x, Puts(map[], a)[slot].write);
      LatestIsNewest(y, Puts(map[], b)[slot].write);
    }
  }

  /** Distinct events with distinct timestamps are enough. */
  lemma DistinctTimestampsSuffice(ws: set<Write>)
    requires forall v, w :: v in ws && w in ws && v.clientTs == w.clientTs ==> v == w
    ensures NewestIsUnique(ws)
  {
  }

  function AsPuts(slot: Slot, writes: seq<Write>, now: int): seq<Put> {
    if writes == [] then [] else AsPuts(slot, writes[..|writes| - 1], now) + [Put(slot, writes[|writes| - 1], now)]
  }

  lemma {:induction false} WritesToAsPuts(slot: Slot, writes: seq<Write>, now: int)
    ensures WritesTo(AsPuts(slot, writes, now), slot) == writes
  {
    if writes != [] {
      WritesToAsPuts(slot, writes[..|writes| - 1], now);
      var puts := AsPuts(slot, writes, now);
      assert puts[..|puts| - 1] == AsPuts(slot, writes[..|writes| - 1], now);
    }
  }

  lemma {:induction false} ListOf(ws: set<Write>) returns (s: seq<Write>)
    ensures Elements(s) == ws
  {
    if ws == {} {
      s := [];
    } else {
      var w :| w in ws;
      s := ListOf(ws - {w});
      assert Elements(s + [w]) == Elements(s) + {w};
      s := s + [w];
    }
  }

  /** The end result of a set of writes does not depend on their order. */
  ghost predicate OrderFree(ws: set<Write>, slot: Slot) {
    forall a: seq<Put>, b: seq<Put> ::
      && Elements(WritesTo(a, slot)) == ws && Elements(WritesTo(b, slot)) == ws
      && slot in Puts(map[], a) && slot in Puts(map[], b)
      ==> Puts(map[], a)[slot].write == Puts(map[], b)[slot].write
  }

  lemma LastNewestWins(ws: set<Write>, slot: Slot, w: Write) returns (puts: seq<Put>)
    requires Newest(ws, w)
    ensures Elements(WritesTo(puts, slot)) == ws && slot in Puts(map[], puts) && Puts(map[], puts)[slot].write == w
  {
    var list := ListOf(ws);
    puts := AsPuts(slot, list + [w], 0);
    WritesToAsPuts(slot, list + [w], 0);
    assert Elements(list + [w]) == ws;
    RowHoldsLatest(puts, slot);
    var all := list + [w];
    var i: nat :| i < |all| && LatestAt(all, i) && all[i] == Puts(map[], puts)[slot].write;
    assert all[i] in Elements(all) && all[|all| - 1] == w;
    assert i == |all| - 1;
  }

  /** Exactly when the order does not matter: if no two different writes share the greatest
      timestamp. With equal timestamps the write that happens to come last stays. */
  lemma OrderFreeIffNewestUnique(ws: set<Write>, slot: Slot)
    ensures OrderFree(ws, slot) <==> NewestIsUnique(ws)
  {
    if NewestIsUnique(ws) {
      forall a: seq<Put>, b: seq<Put> |
        && Elements(WritesTo(a, slot)) == ws && Elements(WritesTo(b, slot)) == ws
        && slot in Puts(map[], a) && slot in Puts(map[], b)
        ensures Puts(map[], a)[slot].write == Puts(map[], b)[slot].write
      {
        Converges(a, b, slot);
      }
    }
    if OrderFree(ws, slot) {
      forall v, w | Newest(ws, v) && Newest(ws, w) ensures v == w {
        var a := LastNewestWins(ws, slot, v);
        var b := LastNewestWins(ws, slot, w);
      }
    }
  }

  /** Two writes with one timestamp: whichever is applied last stays. */
  lemma EqualTimestampsCollide(slot: Slot, now: int)
    ensures
      var v, w := Put(slot, Write(10, 100, false, 5), now), Put(slot, Write(20, 100, false, 5), now);
      Puts(map[], [v, w])[slot].write.position == 20 && Puts(map[], [w, v])[slot].write.position == 10
  {
    var v, w := Put(slot, Write(10, 100, false, 5), now), Put(slot, Write(20, 100, false, 5), now);
    forall a: Put, b: Put | a.slot == slot && b.slot == slot && a.write.clientTs == b.write.clientTs
      ensures slot in Puts(map[], [a, b]) && Puts(map[], [a, b])[slot].write == b.write
    {
      assert [a, b][..1] == [a] && [a][..0] == [];
      assert Puts(map[], [a]) == Upserted(map[], a);
    }
  }

  // ---- everyone who writes ----

  /** A progress event as one delivery applies it: the payload and a clock reading. */
  datatype ProgressEvent = ProgressEvent(slot: Slot, position: int, clientTs: int, now: int)

  /** What applyProgressUpsert writes: it knows no duration, so 0 and not completed, and it does not clamp. */
  function PutOf(e: ProgressEvent): Put {
    Put(e.slot, Write(e.position, 0, false, e.clientTs), e.now)
  }

  /** The upsert never violates a constraint; unparsable ids are faults of the delivery. */
  function UpsertEffect(): Effect<Table, ProgressEvent> {
    (rows: Table, e: ProgressEvent) => Some(Upserted(rows, PutOf(e)))
  }

  function ServiceWriter(): Writer<Table, Put> {
    (rows: Table, p: Put) => Upserted(rows, p)
  }

  type History = seq<Act<Put, ProgressEvent>>

  /** Writes of the service and batches of the consumer, on one table. */
  function AfterHistory(acts: History): Db<Table> {
    Run(map[], acts, ServiceWriter(), UpsertEffect())
  }

  /** The events of the batches that took effect, duplicates included. */
  function CommittedIn(acts: History): seq<(string, ProgressEvent)> {
    Committed(map[], acts, ServiceWriter(), UpsertEffect())
  }

  /** The writes that a history applies, in order. */
  ghost function AppliedIn(acts: History): seq<Put> {
    PutsOf(Applied(map[], acts, ServiceWriter(), UpsertEffect()))
  }

  function PutsOf(changes: seq<Change<Put, ProgressEvent>>): seq<Put> {
    if changes == [] then []
    else
      PutsOf(changes[..|changes| - 1])
      + match changes[|changes| - 1]
        case Own(p) => [p]
        case Once(e) => [PutOf(e.1)]
  }

  lemma {:induction false} ReplayIsPuts(changes: seq<Change<Put, ProgressEvent>>)
    ensures Replay(map[], changes, ServiceWriter(), UpsertEffect()) == Puts(map[], PutsOf(changes))
  {
    if changes != [] {
      var puts := PutsOf(changes);
      ReplayIsPuts(changes[..|changes| - 1]);
      assert puts[..|puts| - 1] == PutsOf(changes[..|changes| - 1]);
    }
  }

  /** Whoever writes in whatever order, the table holds the service writes and the first commit of each event,
      in order, and processed_events the committed event ids. */
  lemma RunIsPuts(acts: History)
    ensures AfterHistory(acts).tables == Puts(map[], AppliedIn(acts))
    ensures AfterHistory(acts).processed == Ids(CommittedIn(acts))
  {
    ExactlyOnce(map[], acts, ServiceWriter(), UpsertEffect());
    ReplayIsPuts(Applied(map[], acts, ServiceWriter(), UpsertEffect()));
  }

  /** An event id always stands for the same write, whatever delivery brings it. */
  ghost predicate SameWriteForId(events: seq<(string, ProgressEvent)>) {
    forall e, f :: e in events && f in events && e.0 == f.0 ==>
        e.1.slot == f.1.slot && PutOf(e.1).write == PutOf(f.1).write
  }

  /** The writes that a list of events asks for on one row. */
  ghost function WritesFor(events: seq<(string, ProgressEvent)>, slot: Slot): set<Write> {
    set e | e in events && e.1.slot == slot :: PutOf(e.1).write
  }

  /** The writes of the service on one row. */
  ghost function ServiceWrites(puts: seq<Put>, slot: Slot): set<Write> {
    set p | p in puts && p.slot == slot :: p.write
  }

  /** All writes that a history asks for on one row, through the service or the stream. */
  ghost function AskedFor(acts: History, slot: Slot): set<Write> {
    ServiceWrites(Directs(acts), slot) + WritesFor(CommittedIn(acts), slot)
  }

  lemma ServiceAppend(puts: seq<Put>, p: Put, slot: Slot)
    ensures ServiceWrites(puts + [p], slot) == ServiceWrites(puts, slot) + if p.slot == slot then {p.write} else {}
  {
    var all := puts + [p];
    assert forall q :: q in all <==> q in puts || q == p;
    if p.slot == slot {
      assert p in all;
    }
  }

  lemma WritesAppend(events: seq<(string, ProgressEvent)>, e: (string, ProgressEvent), slot: Slot)
    ensures WritesFor(events + [e], slot) ==
      WritesFor(events, slot) + if e.1.slot == slot then {PutOf(e.1).write} else {}
  {
    var all := events + [e];
    assert forall f :: f in all <==> f in events || f == e;
    if e.1.slot == slot {
      assert e in all;
    }
  }

  lemma ElementsAppend<T>(s: seq<T>, x: T)
    ensures Elements(s + [x]) == Elements(s) + {x}
  {
    assert forall y :: y in s + [x] <==> y in s || y == x;
  }

  /** The writes to a row come from one part or the other. */
  lemma {:induction false} WritesOfParts(changes: seq<Change<Put, ProgressEvent>>, slot: Slot)
    ensures Elements(WritesTo(PutsOf(changes), slot))
      == ServiceWrites(OwnPart(changes), slot) + WritesFor(OncePart(changes), slot)
  {
    if changes != [] {
      var before, last := changes[..|changes| - 1], changes[|changes| - 1];
      var put := if last.Own? then last.write else PutOf(last.event.1);
      var puts := PutsOf(changes);
      WritesOfParts(before, slot);
      assert puts[..|puts| - 1] == PutsOf(before) && puts[|puts| - 1] == put;
      ElementsAppend(WritesTo(PutsOf(before), slot), put.write);
      match last {
        case Own(p) => ServiceAppend(OwnPart(before), p, slot);
        case Once(e) => WritesAppend(OncePart(before), e, slot);
      }
    }
  }

  /** Leaving out repeated events loses no write. */
  lemma FirstOccurrencesWrite(events: seq<(string, ProgressEvent)>, slot: Slot)
    requires SameWriteForId(events)
    ensures WritesFor(FirstOccurrences(events), slot) == WritesFor(events, slot)
  {
    var once := FirstOccurrences(events);
    FirstOccurrencesFacts(events);
    forall e | e in events && e.1.slot == slot ensures PutOf(e.1).write in WritesFor(once, slot) {
      assert e.0 in Ids(once);
      var f :| f in once && f.0 == e.0;
    }
  }

  /** The applied writes of a row are exactly those asked for, each at least once. */
  lemma AppliedIsAskedFor(acts: History, slot: Slot)
    requires SameWriteForId(CommittedIn(acts))
    ensures Elements(WritesTo(AppliedIn(acts), slot)) == AskedFor(acts, slot)
  {
    ExactlyOnce(map[], acts, ServiceWriter(), UpsertEffect());
    WritesOfParts(Applied(map[], acts, ServiceWriter(), UpsertEffect()), slot);
    FirstOccurrencesWrite(CommittedIn(acts), slot);
  }

  /** Two histories of service writes and batches that ask for the same writes on a row, through whichever
      of the two, in whatever order and number, agree on it when its newest write is unique. */
  lemma WritersConverge(a: History, b: History, slot: Slot)
    requires SameWriteForId(CommittedIn(a)) && SameWriteForId(CommittedIn(b))
    requires AskedFor(a, slot) == AskedFor(b, slot) && NewestIsUnique(AskedFor(a, slot))
    ensures
      var r, s := AfterHistory(a).tables, AfterHistory(b).tables;
      (slot in r <==> slot in s) && (slot in r ==> r[slot].write == s[slot].write)
  {
    RunIsPuts(a);
    RunIsPuts(b);
    AppliedIsAskedFor(a, slot);
    AppliedIsAskedFor(b, slot);
    Converges(AppliedIn(a), AppliedIn(b), slot);
  }

  /** In every history a row holds a write asked for on it that no other one is newer than. */
  lemma HistoryHoldsNewest(acts: History, slot: Slot)
    requires SameWriteForId(CommittedIn(acts))
    ensures slot in AfterHistory(acts).tables <==> AskedFor(acts, slot) != {}
    ensures slot in AfterHistory(acts).tables ==> Newest(AskedFor(acts, slot), AfterHistory(acts).tables[slot].write)
  {
    RunIsPuts(acts);
    AppliedIsAskedFor(acts, slot);
    RowHoldsLatest(AppliedIn(acts), slot);
    var writes := WritesTo(AppliedIn(acts), slot);
    if writes != [] {
      assert writes[0] in Elements(writes);
      LatestIsNewest(writes, AfterHistory(acts).tables[slot].write);
    }
  }

  // ---- the table with its two writers ----

  datatype ServiceError = InvalidUser | InvalidEpisode | Internal

  /** The rows of user_episode_progress and the ids of processed_events: the repository of the service and
      the consumer's batches work on them. */
  class ProgressTables {
    var rows: Table
    var processed: set<string>
    ghost var acts: History

    function Value(): Db<Table>
      reads this
    {
      Db(rows, processed)
    }

    ghost predicate Valid()
      reads this
    {
      Value() == AfterHistory(acts)
    }

    constructor ()
      ensures Valid() && acts == []
    {
      rows, processed, acts := map[], {}, [];
    }

    /** The repository's Upsert. Returns the row as it is afterwards, also when the write was stale. */
    method Upsert(p: Put, db: CommitAnswer, fetchFails: bool) returns (out: Option<Row>)
      requires Valid()
      modifies this
      ensures Valid() && processed == old(processed) && acts == old(acts) + if db.Fails? then [] else [Direct(p)]
      ensures
        var stale := p.slot in old(rows) && p.write.clientTs < old(rows)[p.slot].write.clientTs;
        rows == if db.Fails? || stale then old(rows) else old(rows)[p.slot := Row(p.write, p.now)]
      ensures
        var stale := p.slot in old(rows) && p.write.clientTs < old(rows)[p.slot].write.clientTs;
        if db.Commits? && !(stale && fetchFails) then p.slot in rows && out == Some(rows[p.slot]) else out == None
    {
      if db.Fails? {
        return None;
      }
      RunAppend(map[], acts, Direct(p), ServiceWriter(), UpsertEffect());
      acts := acts + [Direct(p)];
      if p.slot !in rows || rows[p.slot].write.clientTs <= p.write.clientTs {
        rows := rows[p.slot := Row(p.write, p.now)];
        return if db.Commits? then Some(rows[p.slot]) else None;  // RETURNING
      }
      if db.CommitsUnseen? {
        return None;
      }
      out := FetchOne(p.slot, fetchFails);
    }

    method FetchOne(slot: Slot, fails: bool) returns (out: Option<Row>)
      ensures out == if fails || slot !in rows then None else Some(rows[slot])
    {
      return if fails || slot !in rows then None else Some(rows[slot]);
    }

    /** Begin, the loop over the messages, rollback or commit. */
    method Transact(b: Batch<ProgressEvent>) returns (committed: bool)
      requires Valid()
      modifies this
      ensures Valid() && acts == old(acts) + [Stream(b)]
      ensures Value() == AfterBatch(old(Value()), b, UpsertEffect())
      ensures committed <==> Acked(old(Value()), b, UpsertEffect())
    {
      RunAppend(map[], acts, Stream(b), ServiceWriter(), UpsertEffect());
      acts := acts + [Stream(b)];
      if |b.deliveries| == 0 || b.beginFails {
        return false;
      }
      var tx := ApplyMessages(Value(), b.deliveries);
      if tx.None? || b.commit.Fails? {
        return false;
      }
      rows, processed := tx.value.tables, tx.value.processed;
      return b.commit.Commits?;
    }

    /** One fetched batch. When nothing fails, with `states` for the tables between the messages, all its events are
        in the tables and in `processed`, and it is acked exactly if the commit also says so; in any other case
        nothing changes and it is not acked. */
    method HandleBatch(b: Batch<ProgressEvent>) returns (acked: bool)
      requires Valid()
      modifies this
      ensures Valid() && acts == old(acts) + [Stream(b)]
      ensures Value() == AfterBatch(old(Value()), b, UpsertEffect())
      ensures acked <==> Acked(old(Value()), b, UpsertEffect())
      ensures
        var ds := b.deliveries;
        forall states: seq<Table> ::
          (&& ds != [] && !b.beginFails && !b.commit.Fails?
            && |states| == |ds| + 1 && states[0] == old(rows)
            && (forall k :: 0 <= k < |ds| ==> ds[k].message.Event? && !ds[k].fault)
            && (forall k :: 0 <= k < |ds| ==>
                  if ds[k].message.id in old(processed)
                    || (exists j :: 0 <= j < k && ds[j].message.id == ds[k].message.id)
                  then states[k + 1] == states[k]
                  else UpsertEffect()(states[k], ds[k].message.body) == Some(states[k + 1]))) ==>
            && rows == states[|ds|]
            && processed == old(processed) + (set k | 0 <= k < |ds| :: ds[k].message.id)
            && (acked <==> b.commit.Commits?)
      ensures acked || Value() != old(Value()) ==>
        && b.deliveries != [] && !b.beginFails && !b.commit.Fails?
        && exists states: seq<Table> :: IsTrace(old(Value()), b.deliveries, UpsertEffect(), states)
    {
      BatchIsTold(Value(), b, UpsertEffect());
      acked := Transact(b);
    }
  }

  /** applyProgressUpsert on the transaction's rows: a row that is newer stays, any other becomes the event's, with
      its position as it is, no duration and not completed. */
  method ApplyProgressUpsert(rows: Table, e: ProgressEvent) returns (after: Table)
    ensures UpsertEffect()(rows, e) == Some(after)
    ensures after ==
      if e.slot in rows && rows[e.slot].write.clientTs > e.clientTs then rows
      else rows[e.slot := Row(Write(e.position, 0, false, e.clientTs), e.now)]
  {
    var pos, dur, completed := e.position, 0, false;
    if e.slot !in rows || rows[e.slot].write.clientTs <= e.clientTs {
      return rows[e.slot := Row(Write(pos, dur, completed, e.clientTs), e.now)];
    }
    return rows;
  }

  /** The loop over a batch inside its transaction; None when it leaves the loop with a failure. */
  method ApplyMessages(db: Db<Table>, ds: seq<Delivery<ProgressEvent>>) returns (r: Option<Db<Table>>)
    ensures r == ApplyAll(db, ds, UpsertEffect())
  {
    var tx := db;
    var i := 0;
    while i < |ds|
      invariant 0 <= i <= |ds|
      invariant ApplyAll(db, ds[..i], UpsertEffect()) == Some(tx)
    {
      var d := ds[i];
      ApplyNext(db, ds, i, UpsertEffect());
      if d.message.Malformed? || d.fault {
        OneFailureFailsAll(db, ds, i, UpsertEffect());
        return None;  // leaves the loop
      }
      i := i + 1;
      if d.message.id in tx.processed {
        continue;
      }
      var rows := ApplyProgressUpsert(tx.tables, d.message.body);
      tx := Db(rows, tx.processed + {d.message.id});
    }
    assert ds[..i] == ds;
    return Some(tx);
  }

  // ---- the service ----

  function ClampMin(v: int, minVal: int): int {
    if v < minVal then minVal else v
  }

  predicate InInt32(n: int) {
    -0x8000_0000 <= n < 0x8000_0000
  }

  const EPSILON := 1.0 / 9007199254740992.0

  const TWO_31 := 2147483648.0

  /** Rounding to 64-bit floating point: monotone, and exact up to the last of 53 bits on the quotients of
      32-bit numbers. */
  ghost predicate IsRounding(fl: real -> real) {
    && (forall x, y :: x <= y ==> fl(x) <= fl(y))
    && (forall x :: x == 0.0 || 1.0 / TWO_31 <= x <= TWO_31 ==> x * (1.0 - EPSILON) <= fl(x) <= x * (1.0 + EPSILON))
  }

  lemma Ratio(x: real, y: real, c: real)
    requires y > 0.0
    ensures x / y >= c <==> x >= c * y
  {
    var q := x / y;
    assert q * y == x;
    if q >= c {
      assert (q - c) * y >= 0.0;
    } else {
      assert (c - q) * y > 0.0;
    }
  }

  lemma Scaled(x: real, y: real, c: real, d: real)
    requires x <= c && 0.0 < y <= d && c >= 0.0
    ensures x * y <= c * d
  {
    assert (c - x) * y >= 0.0 && c * (d - y) >= 0.0;
  }

  /** A quotient below nine tenths is below it by far more than rounding can make up for. */
  lemma ClearlyBelow(q: real, pos: nat, dur: nat)
    requires 0 < dur < 0x8000_0000 && q * dur as real == pos as real && 10 * pos < 9 * dur && q >= 0.0
    ensures q * (1.0 + EPSILON) < 0.9 * (1.0 - EPSILON)
  {
    var gap := 0.9 - q;
    assert 10.0 * pos as real <= 9.0 * dur as real - 1.0 by {
      assert (10 * pos) as real == 10.0 * pos as real && (9 * dur) as real == 9.0 * dur as real;
    }
    assert gap * dur as real >= 0.1;
    if gap <= 1.8 * EPSILON {
      Scaled(gap, dur as real, 1.8 * EPSILON, TWO_31);
    }
    assert q < 0.9;
  }

  /** The floating-point test of the service is the exact comparison of tenths, for all 32-bit numbers. */
  lemma NineTenths(fl: real -> real, pos: nat, dur: nat)
    requires IsRounding(fl) && pos < 0x8000_0000 && 0 < dur < 0x8000_0000
    ensures fl(pos as real / dur as real) >= fl(0.9) <==> 10 * pos >= 9 * dur
  {
    var q := pos as real / dur as real;
    Ratio(pos as real, dur as real, 0.9);
    assert 10.0 * pos as real == (10 * pos) as real && 9.0 * dur as real == (9 * dur) as real;
    assert q * dur as real == pos as real;
    if 10 * pos >= 9 * dur {
      assert q >= 0.9;
    } else {
      Ratio(pos as real, dur as real, 0.0);
      if pos > 0 {
        Ratio(pos as real, dur as real, 1.0 / TWO_31);
      } else {
        Ratio(0.0, dur as real, 0.0);
      }
      ClearlyBelow(q, pos, dur);
      assert q < 0.9;
      assert fl(q) <= q * (1.0 + EPSILON);
      assert 0.9 * (1.0 - EPSILON) <= fl(0.9);
    }
  }

  /** What the service writes: negative numbers become 0, and the episode counts as completed from
      nine tenths of a known duration on. */
  ghost predicate IsServiceWrite(position: int, duration: int, clientTs: int, w: Write) {
    && w.position == (if position < 0 then 0 else position)
    && w.duration == (if duration < 0 then 0 else duration)
    && (w.completed <==> w.duration > 0 && 10 * w.position >= 9 * w.duration)
    && w.clientTs == clientTs
  }

  ghost predicate ServiceWrote(
      before: Table, after: Table, slot: Slot, position: int, duration: int, clientTs: int, now: int, db: CommitAnswer)
  {
    if db.Fails? then after == before
    else exists w :: IsServiceWrite(position, duration, clientTs, w) && after == Upserted(before, Put(slot, w, now))
  }

  /** `parse` is uuid.Parse, `fl` the rounding of a division and of the constant. */
  method UpsertEpisodeProgress(
      tables: ProgressTables, userId: string, episodeId: string, position: int, duration: int, clientTs: int, now: int,
      parse: string -> Option<string>, fl: real -> real, db: CommitAnswer, fetchFails: bool)
    returns (r: Result<Row, ServiceError>)
    requires tables.Valid() && InInt32(position) && InInt32(duration) && IsRounding(fl)
    modifies tables
    ensures tables.Valid() && tables.processed == old(tables.processed)
    ensures
      var user, episode := parse(TrimSpace(userId)), parse(TrimSpace(episodeId));
      if user.None? then r == Err(InvalidUser) && tables.rows == old(tables.rows)
      else if episode.None? then r == Err(InvalidEpisode) && tables.rows == old(tables.rows)
      else
        var slot := (user.value, episode.value);
        && ServiceWrote(old(tables.rows), tables.rows, slot, position, duration, clientTs, now, db)
        && (if db.Fails? || (slot in old(tables.rows) && clientTs < old(tables.rows)[slot].write.clientTs)
            then tables.rows == old(tables.rows)
            else
              && tables.rows.Keys == old(tables.rows).Keys + {slot}
              && (forall s :: s in old(tables.rows) && s != slot ==> tables.rows[s] == old(tables.rows)[s])
              && var row := tables.rows[slot];
              && row.write.position == (if position < 0 then 0 else position)
              && row.write.duration == (if duration < 0 then 0 else duration)
              && (row.write.completed <==> row.write.duration > 0 && 10 * row.write.position >= 9 * row.write.duration)
              && row.write.clientTs == clientTs && row.updatedAt == now)
        && (r.Ok? ==> slot in tables.rows && r.value == tables.rows[slot])
        && (r.Err? ==> r.error == Internal)
        && (db.Commits? && !fetchFails ==> r.Ok?)
  {
    var user := parse(TrimSpace(userId));
    if user.None? {
      return Err(InvalidUser);
    }
    var episode := parse(TrimSpace(episodeId));
    if episode.None? {
      return Err(InvalidEpisode);
    }
    var pos, dur := ClampMin(position, 0), ClampMin(duration, 0);
    var completed := dur > 0 && fl(pos as real / dur as real) >= fl(0.9);
    if dur > 0 {
      NineTenths(fl, pos, dur);
    }
    var w := Write(pos, dur, completed, clientTs);
    assert IsServiceWrite(position, duration, clientTs, w);
    var out := tables.Upsert(Put((user.value, episode.value), w, now), db, fetchFails);
    r := if out.Some? then Ok(out.value) else Err(Internal);
  }
}
