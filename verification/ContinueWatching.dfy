/** The continue-watching list: activity_service.go and the repository's List. */
module ContinueWatching {
  import opened Keyset
  import opened Pieces
  import Progress
  import opened Text
  import opened Wrappers

  /** A row's place in the list: updated_at in microseconds, then the episode id. */
  function RowKey(slot: Progress.Slot, row: Progress.Row): Key {
    Key(0, row.updatedAt, slot.1)
  }

  function RowKeys(table: Progress.Table, user: string): set<Key> {
    set slot | slot in table && slot.0 == user :: RowKey(slot, table[slot])
  }

  /** time.UnixMilli: rounds down. */
  function UnixMilli(micros: int): int {
    micros / 1000
  }

  /** The key that a cursor made from k stands for: only whole milliseconds survive. */
  function Truncated(k: Key): Key {
    Key(0, UnixMilli(k.time) * 1000, k.id)
  }

  function ClampLimit(v: int): nat {
    if v <= 0 then 25 else if v > 100 then 100 else v
  }

  // ---- cursors ----

  function EncodeCursor(tsMs: int, episodeId: string): string {
    Encode64(FormatInt(tsMs) + [':'] + episodeId, false)
  }

  /** None is "no cursor": a text that cannot be decoded starts again at the first page.
      `parseId` stands for uuid.Parse. */
  function DecodeCursor(raw: string, parseId: string -> Option<string>): Option<Key> {
    var text := TrimSpace(raw);
    if text == "" then None
    else
      match Decode64(text, false)
      case None => None
      case Some(b) =>
        match Cut(b, ':')
        case None => None
        case Some((ms, id)) =>
          match (ParseInt(ms), parseId(id))
          case (Some(n), Some(episode)) => Some(Key(0, n * 1000, episode))
          case _ => None
  }

  /** decodeCursor inverts encodeCursor on every 64-bit time and every id in canonical form. */
  lemma CursorRoundTrip(tsMs: int, episodeId: string, parseId: string -> Option<string>)
    requires InInt64(tsMs) && IsBytes(episodeId) && parseId(episodeId) == Some(episodeId)
    ensures DecodeCursor(EncodeCursor(tsMs, episodeId), parseId) == Some(Key(0, tsMs * 1000, episodeId))
    ensures EncodeCursor(tsMs, episodeId) != ""
  {
    FormatIntIsDecimal(tsMs);
    DecimalRoundTrip(tsMs);
    CutJoined(FormatInt(tsMs), ':', episodeId);
    var raw := FormatInt(tsMs) + [':'] + episodeId;
    assert IsBytes(raw);
    Base64RoundTrip(raw, false);
    EncodedIsTrimmed(raw);
  }

  lemma EncodedIsTrimmed(raw: string)
    ensures TrimSpace(Encode64(raw, false)) == Encode64(raw, false)
    ensures raw != "" ==> Encode64(raw, false) != ""
  {
    EncodedAlphabet(raw, false);
    TrimSpaceFacts(Encode64(raw, false));
  }

  // ---- one page ----

  function CursorText(k: Key): string {
    EncodeCursor(UnixMilli(k.time), k.id)
  }

  /** A full page carries a cursor, also when nothing follows it. */
  function PageFrom(text: Key -> string, list: seq<Key>, limit: nat): Page
    requires limit > 0
  {
    if |list| < limit then Page(list, "") else Page(list[..limit], text(list[limit - 1]))
  }

  ghost function AnswerOf(rows: set<Key>, limit: nat, parseId: string -> Option<string>): Answer
    requires limit > 0
  {
    cursor => Ok(PageFrom(CursorText, Sorted(Below(rows, DecodeCursor(cursor, parseId))), limit))
  }

  // ---- walks over a fixed table ----

  lemma TruncatedIsBelow(k: Key)
    requires k.rank == 0
    ensures Truncated(k) == k || Less(Truncated(k), k)
    ensures Truncated(k) == k <==> k.time % 1000 == 0
  {
  }

  /** The walk from the key c on: every page continues below the truncated key of its last row. */
  ghost function Walk(text: Key -> string, rows: set<Key>, limit: nat, c: Option<Key>): (pages: seq<Page>)
    requires limit > 0 && forall k :: k in rows ==> k.rank == 0
    decreases |Below(rows, c)|
  {
    var list := Sorted(Below(rows, c));
    if |list| < limit then [PageFrom(text, list, limit)]
    else
      var last := list[limit - 1];
      assert last in Elements(list);
      FewerBelow(rows, c, last);
      [PageFrom(text, list, limit)] + Walk(text, rows, limit, Some(Truncated(last)))
  }

  lemma BelowTruncated(rows: set<Key>, c: Option<Key>, last: Key)
    requires last in Below(rows, c) && last.rank == 0
    ensures Below(rows, Some(Truncated(last))) <= Below(Below(rows, c), Some(last))
  {
    TruncatedIsBelow(last);
    forall k | k in rows && Less(k, Truncated(last)) ensures Less(k, last) && (c.Some? ==> Less(k, c.value)) {
      if Truncated(last) != last {
        LessTransitive(k, Truncated(last), last);
      }
      if c.Some? {
        LessTransitive(k, last, c.value);
      }
    }
  }

  lemma FewerBelow(rows: set<Key>, c: Option<Key>, last: Key)
    requires last in Below(rows, c) && last.rank == 0
    ensures |Below(rows, Some(Truncated(last)))| < |Below(rows, c)|
  {
    BelowTruncated(rows, c, last);
    LessIsTotal(last, last);
    Smaller(Below(rows, Some(Truncated(last))), Below(rows, c), last);
  }

  lemma Smaller<T>(a: set<T>, b: set<T>, x: T)
    requires a <= b && x in b && x !in a
    ensures |a| < |b|
  {
    assert b == a + {x} + (b - a - {x});
  }

  /** The last rows of the full pages. */
  function Boundaries(pages: seq<Page>): set<Key> {
    set i | 0 <= i < |pages| && pages[i].next != "" && pages[i].keys != [] :: pages[i].keys[|pages[i].keys| - 1]
  }

  /** k lies below the boundary b but not below what b's cursor stands for. */
  predicate Skips(b: Key, k: Key) {
    Less(k, b) && !Less(k, Truncated(b))
  }

  lemma ConsBoundaries(page: Page, rest: seq<Page>)
    requires page.next != "" && page.keys != []
    ensures Boundaries([page] + rest) == {page.keys[|page.keys| - 1]} + Boundaries(rest)
  {
    var all := [page] + rest;
    forall b | b in Boundaries(rest) ensures b in Boundaries(all) {
      var i :| 0 <= i < |rest| && rest[i].next != "" && rest[i].keys != [] && b == rest[i].keys[|rest[i].keys| - 1];
      assert all[i + 1] == rest[i];
    }
    assert all[0] == page;
  }

  lemma ListedCons(page: Page, rest: seq<Page>)
    ensures Concat(Listed([page] + rest)) == page.keys + Concat(Listed(rest))
  {
    assert ([page] + rest)[1..] == rest;
  }

  ghost predicate SkippedBy(bounds: set<Key>, k: Key) {
    exists b :: b in bounds && Skips(b, k)
  }

  /** `all` is strictly descending and holds exactly the rows below c that no boundary skips. */
  ghost predicate Returns(rows: set<Key>, c: Option<Key>, all: seq<Key>, bounds: set<Key>) {
    && Descending(all)
    && Elements(all) <= Below(rows, c)
    && bounds <= Below(rows, c)
    && (forall k :: k in Below(rows, c) ==> (k !in all <==> SkippedBy(bounds, k)))
  }

  lemma LastPage(rows: set<Key>, c: Option<Key>)
    ensures Returns(rows, c, Sorted(Below(rows, c)), {})
  {
    var list := Sorted(Below(rows, c));
    assert forall k :: k in list <==> k in Elements(list);
  }

  /** A walk is its first page and, when that is full, the walk below its truncated boundary. */
  lemma PageThenRest(text: Key -> string, list: seq<Key>, limit: nat, rest: seq<Page>)
    requires 0 < limit <= |list| && text(list[limit - 1]) != ""
    ensures
      var pages := [PageFrom(text, list, limit)] + rest;
      && Concat(Listed(pages)) == list[..limit] + Concat(Listed(rest))
      && Boundaries(pages) == {list[limit - 1]} + Boundaries(rest)
  {
    var page := PageFrom(text, list, limit);
    assert page.keys == list[..limit] && page.keys[|page.keys| - 1] == list[limit - 1];
    ConsBoundaries(page, rest);
    ListedCons(page, rest);
  }

  lemma WalkStep(text: Key -> string, rows: set<Key>, limit: nat, c: Option<Key>)
    requires limit > 0 && forall k :: k in rows ==> k.rank == 0 && text(k) != ""
    ensures
      var pages, list := Walk(text, rows, limit, c), Sorted(Below(rows, c));
      if |list| < limit then Concat(Listed(pages)) == list && Boundaries(pages) == {}
      else
        var rest := Walk(text, rows, limit, Some(Truncated(list[limit - 1])));
        && |Below(rows, Some(Truncated(list[limit - 1])))| < |Below(rows, c)|
        && Concat(Listed(pages)) == list[..limit] + Concat(Listed(rest))
        && Boundaries(pages) == {list[limit - 1]} + Boundaries(rest)
  {
    var list := Sorted(Below(rows, c));
    if |list| < limit {
      ListedCons(PageFrom(text, list, limit), []);
      assert list + Concat<Key>([]) == list;
    } else {
      var last := list[limit - 1];
      assert last in Elements(list);
      FewerBelow(rows, c, last);
      PageThenRest(text, list, limit, Walk(text, rows, limit, Some(Truncated(last))));
    }
  }

  /** What a walk returns: all rows but those skipped at one of its page boundaries. */
  lemma {:induction false} WalkReturns(text: Key -> string, rows: set<Key>, limit: nat, c: Option<Key>)
    requires limit > 0 && forall k :: k in rows ==> k.rank == 0 && text(k) != ""
    ensures
      var pages := Walk(text, rows, limit, c);
      Returns(rows, c, Concat(Listed(pages)), Boundaries(pages))
    decreases |Below(rows, c)|
  {
    var list := Sorted(Below(rows, c));
    WalkStep(text, rows, limit, c);
    if |list| < limit {
      LastPage(rows, c);
    } else {
      var next := Some(Truncated(list[limit - 1]));
      WalkReturns(text, rows, limit, next);
      var rest := Walk(text, rows, limit, next);
      FirstPageThenRest(rows, c, list, limit, Concat(Listed(rest)), Boundaries(rest));
    }
  }

  /** A full page followed by a walk below its truncated boundary. */
  lemma FirstPageThenRest(rows: set<Key>, c: Option<Key>, list: seq<Key>, limit: nat, more: seq<Key>, bounds: set<Key>)
    requires 0 < limit <= |list| && list == Sorted(Below(rows, c)) && (forall k :: k in rows ==> k.rank == 0)
    requires Returns(rows, Some(Truncated(list[limit - 1])), more, bounds)
    ensures Returns(rows, c, list[..limit] + more, {list[limit - 1]} + bounds)
  {
    var last := list[limit - 1];
    assert last in Elements(list);
    BelowTruncated(rows, c, last);
    GluedDescends(list, limit, more);
    assert forall k :: k in list[..limit] + more ==> k in list || k in Elements(more);
    assert forall k :: k in list ==> k in Elements(list);
    forall k | k in Below(rows, c) ensures k !in list[..limit] + more <==> SkippedBy({last} + bounds, k) {
      assert k in Elements(list);
      var j :| 0 <= j < |list| && list[j] == k;
      AtPlace(rows, list, limit, more, bounds, j);
    }
  }

  lemma GluedDescends(list: seq<Key>, limit: nat, more: seq<Key>)
    requires 0 < limit <= |list| && Descending(list) && Descending(more)
    requires forall k :: k in Elements(more) ==> Less(k, list[limit - 1])
    ensures Descending(list[..limit] + more)
  {
    forall i, j | 0 <= i < limit && 0 <= j < |more| ensures Less(more[j], list[i]) {
      assert more[j] in Elements(more);
      if i < limit - 1 {
        LessTransitive(more[j], list[limit - 1], list[i]);
      }
    }
  }

  /** Whether the j-th row of the listing is returned. */
  lemma AtPlace(rows: set<Key>, list: seq<Key>, limit: nat, more: seq<Key>, bounds: set<Key>, j: nat)
    requires 0 < limit <= |list| && j < |list| && Descending(list) && list[j] in rows && list[limit - 1].rank == 0
    requires Returns(rows, Some(Truncated(list[limit - 1])), more, bounds)
    ensures list[j] !in list[..limit] + more <==> SkippedBy({list[limit - 1]} + bounds, list[j])
  {
    var k, last := list[j], list[limit - 1];
    if j < limit {
      assert (list[..limit] + more)[j] == k;
      NotSkipped(rows, last, bounds, k, j == limit - 1);
    } else {
      if k in list[..limit] + more {
        InSecondPart(list, limit, more, j);
      }
      assert k in list[..limit] + more <==> k in more;
      BelowBoundary(rows, last, more, bounds, k);
    }
  }

  lemma BelowBoundary(rows: set<Key>, last: Key, more: seq<Key>, bounds: set<Key>, k: Key)
    requires Less(k, last) && k in rows && Returns(rows, Some(Truncated(last)), more, bounds)
    ensures k !in more <==> SkippedBy({last} + bounds, k)
  {
    assert k in more ==> k in Elements(more);
    if Less(k, Truncated(last)) {
      assert k in Below(rows, Some(Truncated(last)));
      assert SkippedBy({last} + bounds, k) <==> SkippedBy(bounds, k);
    } else {
      assert Skips(last, k);
    }
  }

  lemma InSecondPart(list: seq<Key>, limit: nat, more: seq<Key>, j: nat)
    requires Descending(list) && limit <= j < |list| && list[j] in list[..limit] + more
    ensures list[j] in more
  {
    if list[j] in list[..limit] {
      var i :| 0 <= i < limit && list[i] == list[j];
      LessIsTotal(list[i], list[i]);
    }
  }

  /** A row of the page is not skipped by its own or a later boundary. */
  lemma NotSkipped(rows: set<Key>, last: Key, bounds: set<Key>, k: Key, isLast: bool)
    requires last.rank == 0 && bounds <= Below(rows, Some(Truncated(last)))
    requires (if isLast then k == last else Less(last, k))
    ensures forall b :: b in bounds + {last} ==> !Skips(b, k)
  {
    TruncatedIsBelow(last);
    LessIsTotal(last, k);
    forall b | b in bounds ensures !Less(k, b) {
      if Less(k, b) {
        LessTransitive(k, b, Truncated(last));
        if Truncated(last) != last {
          LessTransitive(k, Truncated(last), last);
        }
        LessIsTotal(k, k);
      }
    }
  }

  // ---- the source's cursors ----

  /** Times fit 64 bits, ids are in canonical form. */
  ghost predicate WellTyped(rows: set<Key>, parseId: string -> Option<string>) {
    forall k :: k in rows ==> k.rank == 0 && InInt64(UnixMilli(k.time)) && IsBytes(k.id) && parseId(k.id) == Some(k.id)
  }

  lemma {:induction false} WalkByCursor(
      rows: set<Key>, limit: nat, parseId: string -> Option<string>, answers: seq<Answer>, cursor: string,
      pages: seq<Page>, c: Option<Key>)
    requires limit > 0 && WellTyped(rows, parseId)
    requires DecodeCursor(cursor, parseId) == c
    requires |answers| == |pages| && forall i :: 0 <= i < |answers| ==> answers[i] == AnswerOf(rows, limit, parseId)
    ensures IsWalk(answers, cursor, pages) <==> pages == Walk(CursorText, rows, limit, c)
    decreases |pages|
  {
    var list := Sorted(Below(rows, c));
    if pages != [] && pages[0] == PageFrom(CursorText, list, limit) {
      assert pages == [pages[0]] + pages[1..];
      if |list| >= limit {
        var last := list[limit - 1];
        assert last in Elements(list);
        FewerBelow(rows, c, last);
        CursorRoundTrip(UnixMilli(last.time), last.id, parseId);
        WalkByCursor(rows, limit, parseId, answers[1..], pages[0].next, pages[1..], Some(Truncated(last)));
        JoinedEqual(pages[0], pages[1..], Walk(CursorText, rows, limit, Some(Truncated(last))));
      }
    }
  }

  /** Over a fixed table the requests that follow next_cursor are one finite walk; it is strictly
      descending, never repeats a row, and returns exactly the rows that no page boundary skips. */
  lemma FixedTableWalk(rows: set<Key>, limit: int, parseId: string -> Option<string>, pages: seq<Page>)
    requires WellTyped(rows, parseId)
    ensures IsWalk(seq(|pages|, _ => AnswerOf(rows, ClampLimit(limit), parseId)), "", pages)
       <==> pages == Walk(CursorText, rows, ClampLimit(limit), None)
    ensures pages == Walk(CursorText, rows, ClampLimit(limit), None) ==>
      Returns(rows, None, Concat(Listed(pages)), Boundaries(pages))
  {
    var n := ClampLimit(limit);
    WalkByCursor(rows, n, parseId, seq(|pages|, _ => AnswerOf(rows, n, parseId)), "", pages, None);
    TextsNotEmpty(rows);
    WalkReturns(CursorText, rows, n, None);
  }

  lemma TextsNotEmpty(rows: set<Key>)
    ensures forall k :: k in rows ==> CursorText(k) != ""
  {
    forall k | k in rows ensures CursorText(k) != "" {
      FormatIntIsDecimal(UnixMilli(k.time));
      EncodedIsTrimmed(FormatInt(UnixMilli(k.time)) + [':'] + k.id);
    }
  }

  /** No row lies below another one in the order but inside the same millisecond with a smaller or
      equal place after truncation. */
  ghost predicate NoSkips(rows: set<Key>) {
    forall b, k :: b in rows && k in rows ==> !Skips(b, k)
  }

  ghost predicate Complete(rows: set<Key>, limit: nat)
    requires limit > 0 && forall k :: k in rows ==> k.rank == 0
  {
    Elements(Concat(Listed(Walk(CursorText, rows, limit, None)))) == rows
  }

  ghost predicate AlwaysComplete(rows: set<Key>)
    requires forall k :: k in rows ==> k.rank == 0
  {
    forall limit: nat :: limit > 0 ==> Complete(rows, limit)
  }

  /** Exactly when every walk is complete: no row can be skipped by another one. */
  lemma CompleteIffNoSkips(rows: set<Key>)
    requires forall k :: k in rows ==> k.rank == 0
    ensures AlwaysComplete(rows) <==> NoSkips(rows)
  {
    TextsNotEmpty(rows);
    if NoSkips(rows) {
      forall limit: nat | limit > 0 ensures Complete(rows, limit) {
        WalkReturns(CursorText, rows, limit, None);
        var all := Concat(Listed(Walk(CursorText, rows, limit, None)));
        assert forall k :: k in rows ==> k in all;
      }
    }
    if AlwaysComplete(rows) {
      forall b, k | b in rows && k in rows ensures !Skips(b, k) {
        assert Complete(rows, 1);
        var pages := Walk(CursorText, rows, 1, None);
        WalkReturns(CursorText, rows, 1, None);
        SinglesAreBoundaries(rows, None);
        assert k in Elements(Concat(Listed(pages))) && b in Elements(Concat(Listed(pages)));
      }
    }
  }

  /** With one row a page, every returned row is a boundary. */
  lemma {:induction false} SinglesAreBoundaries(rows: set<Key>, c: Option<Key>)
    requires forall k :: k in rows ==> k.rank == 0 && CursorText(k) != ""
    ensures Elements(Concat(Listed(Walk(CursorText, rows, 1, c)))) <= Boundaries(Walk(CursorText, rows, 1, c))
    decreases |Below(rows, c)|
  {
    var pages, list := Walk(CursorText, rows, 1, c), Sorted(Below(rows, c));
    if |list| < 1 {
      assert Concat(Listed(pages)) == [];
    } else {
      var last := list[0];
      assert last in Elements(list);
      FewerBelow(rows, c, last);
      var rest := Walk(CursorText, rows, 1, Some(Truncated(last)));
      SinglesAreBoundaries(rows, Some(Truncated(last)));
      ConsBoundaries(PageFrom(CursorText, list, 1), rest);
      ListedCons(PageFrom(CursorText, list, 1), rest);
      assert list[..1] == [last];
    }
  }

  /** Whole milliseconds are enough: with them no walk misses a row. */
  lemma WholeMillisecondsSuffice(rows: set<Key>)
    requires forall k :: k in rows ==> k.rank == 0 && k.time % 1000 == 0
    ensures AlwaysComplete(rows)
  {
    forall b, k | b in rows && k in rows ensures !Skips(b, k) {
      TruncatedIsBelow(b);
    }
    CompleteIffNoSkips(rows);
  }

  /** A row that is above another inside the same millisecond, and not below its truncated place, hides it
      from a walk with one row a page. */
  lemma HiddenFromSingles(b: Key, k: Key)
    requires b.rank == 0 && k.rank == 0 && Skips(b, k)
    ensures Elements(Concat(Listed(Walk(CursorText, {b, k}, 1, None)))) == {b}
  {
    var rows := {b, k};
    TextsNotEmpty(rows);
    var pages := Walk(CursorText, rows, 1, None);
    var all, bounds := Concat(Listed(pages)), Boundaries(pages);
    WalkReturns(CursorText, rows, 1, None);
    SinglesAreBoundaries(rows, None);
    OnlyUpperReturned(b, k, all, bounds);
  }

  /** Where every returned row is a boundary, the upper of two such rows is all that is returned. */
  lemma OnlyUpperReturned(b: Key, k: Key, all: seq<Key>, bounds: set<Key>)
    requires Skips(b, k) && Returns({b, k}, None, all, bounds) && Elements(all) <= bounds
    ensures Elements(all) == {b}
  {
    LessIsTotal(b, k);
    LessIsTotal(b, b);
    assert Below({b, k}, None) == {b, k};
    assert !Skips(b, b) && !Skips(k, b);
    assert b in all && b in Elements(all);
    assert SkippedBy(bounds, k);
    assert k !in all;
  }

  /** Two episodes updated inside one millisecond: a page that ends with the newer row hides the older one
      for good. */
  lemma RowsCanBeSkipped(newer: string, older: string)
    ensures
      var b, k := Key(0, 1500, newer), Key(0, 1200, older);
      && Less(k, b) && Skips(b, k)
      && Elements(Concat(Listed(Walk(CursorText, {b, k}, 1, None)))) == {b}
      && !Complete({b, k}, 1)
  {
    var b, k := Key(0, 1500, newer), Key(0, 1200, older);
    assert Truncated(b) == Key(0, 1000, newer);
    HiddenFromSingles(b, k);
    assert k in {b, k} && k !in {b};
  }

  // ---- the methods ----

  datatype Record = Record(slot: Progress.Slot, row: Progress.Row)

  function RecordKey(): Record -> Key {
    (r: Record) => RowKey(r.slot, r.row)
  }

  ghost predicate OwnRecords(table: Progress.Table, user: string, records: seq<Record>) {
    forall i :: 0 <= i < |records| ==>
      records[i].slot.0 == user && records[i].slot in table && table[records[i].slot] == records[i].row
  }

  /** `found` are the user's rows below the cursor, each once. */
  ghost predicate Selects(
      table: Progress.Table, user: string, cursor: Option<Key>, found: seq<Record>, rest: set<Progress.Slot>)
  {
    && OwnRecords(table, user, found)
    && (forall i :: 0 <= i < |found| ==> found[i].slot !in rest && IsBelow(RecordKey()(found[i]), cursor))
    && (forall i, j :: 0 <= i < j < |found| ==> found[i].slot != found[j].slot)
    && (forall slot ::
          slot in table && slot !in rest && slot.0 == user && IsBelow(RowKey(slot, table[slot]), cursor) ==>
          Record(slot, table[slot]) in found)
  }

  predicate IsBelow(k: Key, cursor: Option<Key>) {
    cursor.None? || Less(k, cursor.value)
  }

  method Select(table: Progress.Table, user: string, cursor: Option<Key>) returns (found: seq<Record>)
    ensures Selects(table, user, cursor, found, {})
  {
    found := [];
    var rest := table.Keys;
    while rest != {}
      invariant rest <= table.Keys && Selects(table, user, cursor, found, rest)
      decreases |rest|
    {
      var slot :| slot in rest;
      rest := rest - {slot};
      if slot.0 == user && IsBelow(RowKey(slot, table[slot]), cursor) {
        found := found + [Record(slot, table[slot])];
      }
    }
  }

  lemma SelectedKeys(table: Progress.Table, user: string, cursor: Option<Key>, found: seq<Record>)
    requires Selects(table, user, cursor, found, {})
    ensures DistinctKeys(found, RecordKey())
    ensures Elements(KeysOf(found, RecordKey())) == Below(RowKeys(table, user), cursor)
  {
    var keys := KeysOf(found, RecordKey());
    forall i, j | 0 <= i < j < |found| ensures RecordKey()(found[i]) != RecordKey()(found[j]) {
      assert found[i].slot == (user, found[i].slot.1) && found[j].slot == (user, found[j].slot.1);
    }
    forall k | k in keys ensures k in Below(RowKeys(table, user), cursor) {
      var i :| 0 <= i < |found| && keys[i] == k;
      assert found[i].slot in table;
    }
    forall k | k in Below(RowKeys(table, user), cursor) ensures k in keys {
      var slot :| slot in table && slot.0 == user && k == RowKey(slot, table[slot]);
      var i :| 0 <= i < |found| && found[i] == Record(slot, table[slot]);
      assert keys[i] == k;
    }
  }

  /** How the rows of a query arrive: the code answers an error of the query or of a scan, and takes what it has
      when the connection breaks while it reads on. */
  datatype Reading = Complete | BreaksOff(after: nat) | Failing

  function Arrived<T>(rows: seq<T>, reading: Reading): seq<T> {
    if reading.BreaksOff? then Take(rows, reading.after) else rows
  }

  lemma ArrivedKeys(rows: seq<Record>, reading: Reading)
    ensures KeysOf(Arrived(rows, reading), RecordKey()) == Arrived(KeysOf(rows, RecordKey()), reading)
    ensures Arrived(rows, reading) <= rows
  {
  }

  /** WHERE, ORDER BY updated_at DESC, episode_id DESC, LIMIT. */
  method Query(table: Progress.Table, user: string, limit: nat, cursor: Option<Key>) returns (records: seq<Record>)
    ensures KeysOf(records, RecordKey()) == Take(Sorted(Below(RowKeys(table, user), cursor)), limit)
    ensures OwnRecords(table, user, records)
  {
    var found := Select(table, user, cursor);
    SelectedKeys(table, user, cursor, found);
    SortedRowsDescend(found, RecordKey());
    var sorted := SortedRows(found, RecordKey());
    SameMembers(found, sorted);
    records := Take(sorted, limit);
    assert KeysOf(records, RecordKey()) == Take(KeysOf(sorted, RecordKey()), limit);
    forall i | 0 <= i < |records| ensures records[i] in found {
      assert records[i] == sorted[i];
    }
  }

  lemma RowsInOrder(a: Record, b: Record)
    requires Less(RecordKey()(b), RecordKey()(a))
    ensures
      || a.row.updatedAt > b.row.updatedAt
      || (a.row.updatedAt == b.row.updatedAt
          && exists n :: 0 <= n < |a.slot.1| && n <= |b.slot.1| && a.slot.1[..n] == b.slot.1[..n]
               && (n == |b.slot.1| || a.slot.1[n] > b.slot.1[n]))
  {
    if a.row.updatedAt == b.row.updatedAt {
      TextDiffers(a.slot.1, b.slot.1);
    }
  }

  /** A listing in the fields of its rows: the user's, newest first, below the cursor, and as many as the limit
      allows; what it leaves out is not newer than anything in it. */
  lemma ListedInFields(
      table: Progress.Table, user: string, limit: nat, cursor: Option<Key>, keys: seq<Key>, records: seq<Record>)
    requires OwnRecords(table, user, records) && KeysOf(records, RecordKey()) == keys
    requires Descending(keys) && Elements(keys) <= Below(RowKeys(table, user), cursor)
    ensures forall i, j :: 0 <= i < j < |records| ==>
      var a, b := records[i], records[j];
      || a.row.updatedAt > b.row.updatedAt
      || (a.row.updatedAt == b.row.updatedAt
          && exists n :: 0 <= n < |a.slot.1| && n <= |b.slot.1| && a.slot.1[..n] == b.slot.1[..n]
               && (n == |b.slot.1| || a.slot.1[n] > b.slot.1[n]))
    ensures forall i :: 0 <= i < |records| && cursor.Some? && cursor.value.rank == 0 ==>
      || records[i].row.updatedAt < cursor.value.time
      || (records[i].row.updatedAt == cursor.value.time && TextLess(records[i].slot.1, cursor.value.id))
  {
    forall i, j | 0 <= i < j < |records|
      ensures
        var a, b := records[i], records[j];
        || a.row.updatedAt > b.row.updatedAt
        || (a.row.updatedAt == b.row.updatedAt
            && exists n :: 0 <= n < |a.slot.1| && n <= |b.slot.1| && a.slot.1[..n] == b.slot.1[..n]
                 && (n == |b.slot.1| || a.slot.1[n] > b.slot.1[n]))
    {
      assert Less(keys[j], keys[i]) && keys[i] == RecordKey()(records[i]) && keys[j] == RecordKey()(records[j]);
      RowsInOrder(records[i], records[j]);
    }
    forall i | 0 <= i < |records| ensures keys[i] in Below(RowKeys(table, user), cursor) {
      assert keys[i] in Elements(keys);
    }
  }

  lemma RecordOfKey(table: Progress.Table, user: string, records: seq<Record>, k: nat, slot: Progress.Slot)
    requires OwnRecords(table, user, records) && slot in table && slot.0 == user && k < |records|
    requires KeysOf(records, RecordKey())[k] == RowKey(slot, table[slot])
    ensures Record(slot, table[slot]) in records
  {
    assert RecordKey()(records[k]) == RowKey(slot, table[slot]);
    assert records[k] == Record(slot, table[slot]);
  }

  /** A row of the user below the cursor that a complete answer leaves out. */
  lemma LeftOutInFields(
      table: Progress.Table, user: string, limit: nat, cursor: Option<Key>, records: seq<Record>, slot: Progress.Slot)
    requires OwnRecords(table, user, records) && slot in table && slot.0 == user
    requires KeysOf(records, RecordKey()) == Take(Sorted(Below(RowKeys(table, user), cursor)), limit)
    requires cursor.None? || Less(RowKey(slot, table[slot]), cursor.value)
    requires Record(slot, table[slot]) !in records
    ensures |records| == limit && forall i :: 0 <= i < limit ==> records[i].row.updatedAt >= table[slot].updatedAt
  {
    var key, list := RowKey(slot, table[slot]), Sorted(Below(RowKeys(table, user), cursor));
    assert key in RowKeys(table, user) && key in Elements(list);
    var k :| 0 <= k < |list| && list[k] == key;
    if k < |records| {
      RecordOfKey(table, user, records, k, slot);
    }
    forall i | 0 <= i < |records| ensures records[i].row.updatedAt >= table[slot].updatedAt {
      assert RecordKey()(records[i]) == KeysOf(records, RecordKey())[i] == list[i] && Less(list[k], list[i]);
    }
  }

  lemma TakenDescends(list: seq<Key>, n: nat, reading: Reading)
    requires Descending(list)
    ensures Descending(Arrived(Take(list, n), reading)) && |Arrived(Take(list, n), reading)| <= n
    ensures Elements(Arrived(Take(list, n), reading)) <= Elements(list)
  {
  }

  /** The repository's List. */
  method List(table: Progress.Table, user: string, limit: nat, cursor: Option<Key>, reading: Reading)
    returns (r: Option<seq<Record>>)
    ensures r.None? <==> reading.Failing?
    ensures r.Some? ==>
      && KeysOf(r.value, RecordKey()) == Arrived(Take(Sorted(Below(RowKeys(table, user), cursor)), limit), reading)
      && OwnRecords(table, user, r.value)
    ensures r.Some? ==>
      && |r.value| <= limit
      && forall i, j :: 0 <= i < j < |r.value| ==>
        var a, b := r.value[i], r.value[j];
        || a.row.updatedAt > b.row.updatedAt
        || (a.row.updatedAt == b.row.updatedAt
            && exists n :: 0 <= n < |a.slot.1| && n <= |b.slot.1| && a.slot.1[..n] == b.slot.1[..n]
                 && (n == |b.slot.1| || a.slot.1[n] > b.slot.1[n]))
    ensures r.Some? && cursor.Some? && cursor.value.rank == 0 ==>
      forall i :: 0 <= i < |r.value| ==>
        || r.value[i].row.updatedAt < cursor.value.time
        || (r.value[i].row.updatedAt == cursor.value.time && TextLess(r.value[i].slot.1, cursor.value.id))
    ensures reading.Complete? ==>
      forall slot ::
        && slot in table && slot.0 == user && (cursor.None? || Less(RowKey(slot, table[slot]), cursor.value))
        && Record(slot, table[slot]) !in r.value ==>
          |r.value| == limit && forall i :: 0 <= i < limit ==> r.value[i].row.updatedAt >= table[slot].updatedAt
  {
    if reading.Failing? {
      return None;
    }
    var rows := Query(table, user, limit, cursor);
    ArrivedKeys(rows, reading);
    ghost var list := Sorted(Below(RowKeys(table, user), cursor));
    TakenDescends(list, limit, reading);
    var arrived := Arrived(rows, reading);
    ListedInFields(table, user, limit, cursor, Arrived(Take(list, limit), reading), arrived);
    if reading.Complete? {
      forall slot |
        slot in table && slot.0 == user && (cursor.None? || Less(RowKey(slot, table[slot]), cursor.value))
        && Record(slot, table[slot]) !in arrived
        ensures |arrived| == limit && forall i :: 0 <= i < limit ==> arrived[i].row.updatedAt >= table[slot].updatedAt
      {
        LeftOutInFields(table, user, limit, cursor, arrived, slot);
      }
    }
    return Some(arrived);
  }

  /** The page that the walks are made of. */
  ghost function PageFor(
      table: Progress.Table, user: string, limit: int, cursor: string, parseId: string -> Option<string>): Page
  {
    AnswerOf(RowKeys(table, user), ClampLimit(limit), parseId)(cursor).value
  }

  /** Only a full page carries a cursor. */
  function NextText(items: seq<Record>, limit: nat): string
    requires limit > 0
  {
    if |items| != limit then ""
    else EncodeCursor(UnixMilli(items[limit - 1].row.updatedAt), items[limit - 1].slot.1)
  }

  /** The answer is this page; one that breaks off is shorter and ends the walk. */
  ghost predicate Shows(items: seq<Record>, next: string, page: Page, reading: Reading) {
    && KeysOf(items, RecordKey()) == Arrived(page.keys, reading)
    && next == if |items| < |page.keys| then "" else page.next
  }

  lemma ArrivedShows(list: seq<Key>, limit: nat, items: seq<Record>, reading: Reading)
    requires limit > 0 && KeysOf(items, RecordKey()) == Arrived(Take(list, limit), reading)
    ensures Shows(items, NextText(items, limit), PageFrom(CursorText, list, limit), reading)
  {
    if |items| == limit {
      assert KeysOf(items, RecordKey())[limit - 1] == RowKey(items[limit - 1].slot, items[limit - 1].row);
    }
  }

  lemma PageShown(
      table: Progress.Table, user: string, limit: int, cursor: string, parseId: string -> Option<string>,
      items: seq<Record>, reading: Reading)
    requires KeysOf(items, RecordKey())
      == Arrived(Take(Sorted(Below(RowKeys(table, user), DecodeCursor(cursor, parseId))), ClampLimit(limit)), reading)
    ensures Shows(items, NextText(items, ClampLimit(limit)), PageFor(table, user, limit, cursor, parseId), reading)
  {
    ArrivedShows(Sorted(Below(RowKeys(table, user), DecodeCursor(cursor, parseId))), ClampLimit(limit), items, reading);
  }

  method NextCursor(items: seq<Record>, limit: nat) returns (next: string)
    requires 0 < limit && |items| <= limit
    ensures next == NextText(items, limit)
    ensures next ==
      if |items| < limit then ""
      else Encode64(FormatInt(items[limit - 1].row.updatedAt / 1000) + [':'] + items[limit - 1].slot.1, false)
  {
    next := "";
    if |items| == limit {
      var last := items[|items| - 1];
      next := EncodeCursor(UnixMilli(last.row.updatedAt), last.slot.1);
    }
  }

  method GetContinueWatching(
      table: Progress.Table, userId: string, limit: int, cursor: string, parseId: string -> Option<string>,
      reading: Reading)
    returns (r: Result<(seq<Record>, string), Progress.ServiceError>)
    ensures
      var user := parseId(TrimSpace(userId));
      if user.None? then r == Err(Progress.InvalidUser)
      else if reading.Failing? then r == Err(Progress.Internal)
      else
        && r.Ok? && OwnRecords(table, user.value, r.value.0)
        && Shows(r.value.0, r.value.1, PageFor(table, user.value, limit, cursor, parseId), reading)
    ensures r.Ok? ==>
      var n := if limit <= 0 then 25 else if limit > 100 then 100 else limit;
      var (items, next) := r.value;
      && |items| <= n
      && (forall i :: 0 <= i < |items| ==>
            items[i].slot.0 == parseId(TrimSpace(userId)).value
            && items[i].slot in table && table[items[i].slot] == items[i].row)
      && (next ==
          if |items| < n then ""
          else Encode64(FormatInt(items[n - 1].row.updatedAt / 1000) + [':'] + items[n - 1].slot.1, false))
      && forall i, j :: 0 <= i < j < |items| ==>
        var a, b := items[i], items[j];
        || a.row.updatedAt > b.row.updatedAt
        || (a.row.updatedAt == b.row.updatedAt
            && exists n :: 0 <= n < |a.slot.1| && n <= |b.slot.1| && a.slot.1[..n] == b.slot.1[..n]
                 && (n == |b.slot.1| || a.slot.1[n] > b.slot.1[n]))
    ensures r.Ok? && reading.Complete? && TrimSpace(cursor) == "" ==>
      var n := if limit <= 0 then 25 else if limit > 100 then 100 else limit;
      forall slot ::
        && slot in table && slot.0 == parseId(TrimSpace(userId)).value
        && Record(slot, table[slot]) !in r.value.0 ==>
          |r.value.0| == n && forall i :: 0 <= i < n ==> r.value.0[i].row.updatedAt >= table[slot].updatedAt
  {
    var user := parseId(TrimSpace(userId));
    if user.None? {
      return Err(Progress.InvalidUser);
    }
    var n := ClampLimit(limit);
    var listed := List(table, user.value, n, DecodeCursor(cursor, parseId), reading);
    if listed.None? {
      return Err(Progress.Internal);
    }
    PageShown(table, user.value, limit, cursor, parseId, listed.value, reading);
    var next := NextCursor(listed.value, n);
    return Ok((listed.value, next));
  }
}
