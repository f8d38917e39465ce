/** Keyset pagination: strictly ordered keys, the descending list of a set of keys, and its pages. */
module Keyset {
  import opened Pieces
  import opened Wrappers

  /** A row's place in an ordered listing; a listing without a leading column uses rank 0. */
  datatype Key = Key(rank: int, time: int, id: string)

  predicate TextLess(a: string, b: string) {
    b != [] && (a == [] || a[0] < b[0] || (a[0] == b[0] && TextLess(a[1..], b[1..])))
  }

  /** Row comparison (rank, time, id) < (rank, time, id). */
  predicate Less(a: Key, b: Key) {
    a.rank < b.rank
    || (a.rank == b.rank && (a.time < b.time || (a.time == b.time && TextLess(a.id, b.id))))
  }

  lemma {:induction false} TextLessIsTotal(a: string, b: string)
    ensures TextLess(a, b) || a == b || TextLess(b, a)
    ensures !(TextLess(a, b) && TextLess(b, a)) && !TextLess(a, a)
  {
    if a != [] && b != [] {
      TextLessIsTotal(a[1..], b[1..]);
      assert a == [a[0]] + a[1..] && b == [b[0]] + b[1..];
    }
    if a != [] {
      TextLessIsTotal(a[1..], a[1..]);
    }
  }

  lemma {:induction false} TextLessTransitive(a: string, b: string, c: string)
    requires TextLess(a, b) && TextLess(b, c)
    ensures TextLess(a, c)
  {
    if a != [] && a[0] == b[0] == c[0] {
      TextLessTransitive(a[1..], b[1..], c[1..]);
    }
  }

  lemma {:induction false} TextDiffers(a: string, b: string)
    requires TextLess(b, a)
    ensures exists n :: 0 <= n < |a| && n <= |b| && a[..n] == b[..n] && (n == |b| || a[n] > b[n])
  {
    if b == [] {
      assert a[..0] == b[..0];
    } else if b[0] < a[0] {
      assert a[..0] == b[..0];
    } else {
      TextDiffers(a[1..], b[1..]);
      var n :| 0 <= n < |a[1..]| && n <= |b[1..]| && a[1..][..n] == b[1..][..n]
        && (n == |b[1..]| || a[1..][n] > b[1..][n]);
      assert a[..n + 1] == [a[0]] + a[1..][..n] && b[..n + 1] == [b[0]] + b[1..][..n];
    }
  }

  lemma LessIsTotal(a: Key, b: Key)
    ensures Less(a, b) || a == b || Less(b, a)
    ensures !(Less(a, b) && Less(b, a)) && !Less(a, a)
  {
    TextLessIsTotal(a.id, b.id);
  }

  lemma LessTransitive(a: Key, b: Key, c: Key)
    requires Less(a, b) && Less(b, c)
    ensures Less(a, c)
  {
    if a.time == b.time == c.time && a.rank == b.rank == c.rank {
      TextLessTransitive(a.id, b.id, c.id);
    }
  }

  predicate Descending(s: seq<Key>) {
    forall i, j :: 0 <= i < j < |s| ==> Less(s[j], s[i])
  }

  /** Keys strictly below the cursor; all of them when there is none. */
  function Below(keys: set<Key>, cursor: Option<Key>): set<Key> {
    match cursor
    case None => keys
    case Some(c) => set k | k in keys && Less(k, c)
  }

  lemma {:induction false} GreatestExists(keys: set<Key>) returns (g: Key)
    requires keys != {}
    ensures g in keys && forall k :: k in keys && k != g ==> Less(k, g)
  {
    var x :| x in keys;
    var rest := keys - {x};
    if rest == {} {
      assert keys == {x};
      g := x;
    } else {
      g := GreatestExists(rest);
      LessIsTotal(x, g);
      if Less(g, x) {
        forall k | k in keys && k != x ensures Less(k, x) {
          if k != g {
            LessTransitive(k, g, x);
          }
        }
        g := x;
      }
    }
  }

  function Cons(g: Key, rest: seq<Key>): (s: seq<Key>)
    requires Descending(rest) && forall k :: k in Elements(rest) ==> Less(k, g)
    ensures Descending(s) && Elements(s) == {g} + Elements(rest) && |s| == |rest| + 1
  {
    var s := [g] + rest;
    assert forall i :: 0 <= i < |rest| ==> rest[i] in Elements(rest);
    assert forall i :: 0 < i < |s| ==> s[i] == rest[i - 1];
    s
  }

  lemma {:induction false} DescendingListExists(keys: set<Key>) returns (s: seq<Key>)
    ensures Descending(s) && Elements(s) == keys && |s| == |keys|
  {
    if keys == {} {
      s := [];
    } else {
      var g := GreatestExists(keys);
      s := DescendingListExists(keys - {g});
      s := Cons(g, s);
    }
  }

  /** The keys in descending order, as ORDER BY ... DESC lists them. */
  ghost function Sorted(keys: set<Key>): (s: seq<Key>)
    ensures Descending(s) && Elements(s) == keys && |s| == |keys|
  {
    assert exists s :: Descending(s) && Elements(s) == keys && |s| == |keys| by {
      var s := DescendingListExists(keys);
    }
    var s :| Descending(s) && Elements(s) == keys && |s| == |keys|;
    s
  }

  /** There is only one descending list of a set of keys. */
  lemma {:induction false} DescendingIsUnique(s: seq<Key>, t: seq<Key>)
    requires Descending(s) && Descending(t) && Elements(s) == Elements(t)
    ensures s == t
  {
    assert forall k :: k in s <==> k in Elements(s);
    assert forall k :: k in t <==> k in Elements(t);
    assert t != [] ==> t[0] in Elements(t);
    if s == [] {
    } else {
      assert s[0] in t && t != [] && t[0] in s;
      LessIsTotal(s[0], t[0]);
      assert s[0] == t[0];
      forall k ensures k in s[1..] <==> k in t[1..] {
        LessIsTotal(s[0], s[0]);
        assert k in s <==> k == s[0] || k in s[1..];
        assert k in t <==> k == t[0] || k in t[1..];
      }
      DescendingIsUnique(s[1..], t[1..]);
    }
  }

  lemma SortedIs(s: seq<Key>)
    requires Descending(s)
    ensures Sorted(Elements(s)) == s && |Elements(s)| == |s|
  {
    DescendingIsUnique(Sorted(Elements(s)), s);
  }

  lemma RestIsBelow(s: seq<Key>, i: nat, k: Key)
    requires Descending(s) && i < |s|
    ensures k in s[i + 1..] <==> k in s && Less(k, s[i])
  {
    if k in s {
      var j :| 0 <= j < |s| && s[j] == k;
      LessIsTotal(s[i], s[j]);
      if j > i {
        assert s[i + 1..][j - i - 1] == k;
      }
    }
    if k in s[i + 1..] {
      var j :| 0 <= j < |s| - i - 1 && s[i + 1..][j] == k;
      assert s[i + 1 + j] == k;
    }
  }

  lemma BelowElement(s: seq<Key>, i: nat)
    requires Descending(s) && i < |s|
    ensures Below(Elements(s), Some(s[i])) == Elements(s[i + 1..])
  {
    forall k ensures k in Elements(s[i + 1..]) <==> k in Below(Elements(s), Some(s[i])) {
      RestIsBelow(s, i, k);
    }
  }

  /** Restarting below element i of a listing gives exactly its rest. */
  lemma SortedBelowElement(keys: set<Key>, i: nat)
    requires i < |keys|
    ensures Sorted(Below(keys, Some(Sorted(keys)[i]))) == Sorted(keys)[i + 1..]
  {
    BelowElement(Sorted(keys), i);
    SortedIs(Sorted(keys)[i + 1..]);
  }

  /** A walk over listings that may change between pages: page i lists the keys of sets[i] below the
      last key of page i - 1, and the walk ends at the first page that is not cut. */
  ghost predicate IsKeysetWalk(sets: seq<set<Key>>, size: nat, pages: seq<seq<Key>>, c: Option<Key>)
    requires size > 0
    decreases |pages|
  {
    |sets| == |pages| > 0
    && var list := Sorted(Below(sets[0], c));
    if |list| <= size then pages == [list]
    else
      && |pages| > 1
      && pages[0] == list[..size]
      && IsKeysetWalk(sets[1..], size, pages[1..], Some(list[size - 1]))
  }

  ghost predicate Nested(sets: seq<set<Key>>) {
    forall i, j :: 0 <= i <= j < |sets| ==> sets[i] <= sets[j]
  }

  /** A page followed by a listing that starts below its last key. */
  lemma PageJoinsRest(list: seq<Key>, n: nat, more: seq<Key>, c: Option<Key>)
    requires Descending(list) && Descending(more) && 0 < n <= |list|
    requires Elements(list) == Below(Elements(list), c)
    requires Elements(more) == Below(Elements(more), Some(list[n - 1]))
    requires Below(Elements(list), Some(list[n - 1])) <= Elements(more)
    ensures
      var rest := list[..n] + more;
      && Descending(rest)
      && Elements(rest) == Below(Elements(rest), c)
      && Elements(list) <= Elements(rest) <= Elements(list) + Elements(more)
  {
    var rest := list[..n] + more;
    forall i, j | 0 <= i < n && 0 <= j < |more| ensures Less(more[j], list[i]) {
      assert more[j] in Elements(more);
      if i < n - 1 {
        LessTransitive(more[j], list[n - 1], list[i]);
      }
    }
    forall k | k in rest ensures k in Elements(list) + Elements(more) && k in Below(Elements(rest), c) {
      if k in more {
        assert k in Elements(more);
        if c.Some? {
          assert list[n - 1] in Elements(list);
          LessTransitive(k, list[n - 1], c.value);
        }
      } else {
        assert k in Elements(list);
      }
    }
    forall k | k in list ensures k in rest {
      var j :| 0 <= j < |list| && list[j] == k;
      if j < n {
        assert rest[j] == k;
      } else {
        assert k in Below(Elements(list), Some(list[n - 1]));
        assert k in Elements(more);
      }
    }
  }

  /** Along sets that only grow, a walk is strictly descending, stays inside the last set and holds
      every key of the first set. */
  lemma {:induction false} KeysetWalkIsExact(sets: seq<set<Key>>, size: nat, pages: seq<seq<Key>>, c: Option<Key>)
    requires size > 0 && IsKeysetWalk(sets, size, pages, c) && Nested(sets)
    ensures
      var all := Concat(pages);
      && Descending(all)
      && Elements(all) == Below(Elements(all), c)
      && Below(sets[0], c) <= Elements(all) <= sets[|sets| - 1]
    decreases |pages|
  {
    var list := Sorted(Below(sets[0], c));
    assert sets[0] <= sets[|sets| - 1];
    if |list| <= size {
      assert pages[1..] == [] && Concat(pages) == list;
    } else {
      KeysetWalkIsExact(sets[1..], size, pages[1..], Some(list[size - 1]));
      assert sets[0] <= sets[1];
      PageJoinsRest(list, size, Concat(pages[1..]), c);
    }
  }

  // ---- walks through opaque cursors ----

  datatype Page = Page(keys: seq<Key>, next: string)

  /** The first page of a listing; `text` writes the key of its last row as the next cursor. */
  function FirstPage(text: Key -> string, list: seq<Key>, size: nat): Page
    requires size > 0
  {
    if |list| <= size then Page(list, "") else Page(list[..size], text(list[size - 1]))
  }

  /** Reading one row more than the page is enough to see whether there is a next page. */
  lemma TakeOneMore(text: Key -> string, list: seq<Key>, size: nat)
    requires size > 0
    ensures FirstPage(text, Take(list, size + 1), size) == FirstPage(text, list, size)
  {
    if |list| > size {
      assert list[..size + 1][..size] == list[..size];
    }
  }

  type Answer = string -> Result<Page, ()>

  /** Request i is answered by answers[i]; the walk ends at the first page without a cursor. */
  ghost predicate IsWalk(answers: seq<Answer>, cursor: string, pages: seq<Page>)
    decreases |pages|
  {
    && |answers| == |pages| > 0
    && answers[0](cursor) == Ok(pages[0])
    && if pages[0].next == "" then |pages| == 1 else IsWalk(answers[1..], pages[0].next, pages[1..])
  }

  function CursorOf(text: Key -> string, c: Option<Key>): string {
    if c.None? then "" else text(c.value)
  }

  /** The empty cursor asks for the first page of `keys`, the cursor of one of them for the first
      page of what lies below it. */
  ghost predicate Lists(answer: Answer, text: Key -> string, keys: set<Key>, size: nat)
    requires size > 0
  {
    && answer("") == Ok(FirstPage(text, Sorted(keys), size))
    && forall k :: k in keys ==>
         text(k) != "" && answer(text(k)) == Ok(FirstPage(text, Sorted(Below(keys, Some(k))), size))
  }

  function Listed(pages: seq<Page>): seq<seq<Key>> {
    if pages == [] then [] else [pages[0].keys] + Listed(pages[1..])
  }

  /** What the first answer of a walk is, and the cursor it leaves. */
  lemma FirstAnswer(answer: Answer, text: Key -> string, keys: set<Key>, size: nat, c: Option<Key>)
    requires size > 0 && Lists(answer, text, keys, size) && (c.Some? ==> c.value in keys)
    ensures
      var list := Sorted(Below(keys, c));
      && answer(CursorOf(text, c)) == Ok(FirstPage(text, list, size))
      && (|list| > size ==> list[size - 1] in keys && text(list[size - 1]) != "")
  {
    var list := Sorted(Below(keys, c));
    if c.None? {
      assert Below(keys, c) == keys;
    }
    if |list| > size {
      assert list[size - 1] in Elements(list);
    }
  }

  lemma NestedTail(sets: seq<set<Key>>)
    requires Nested(sets) && |sets| > 1
    ensures Nested(sets[1..]) && sets[0] <= sets[1]
  {
  }

  /** Cursors lead where they should: a walk by cursor texts is a walk by keys. */
  lemma {:induction false} WalkOfKeys(answers: seq<Answer>, text: Key -> string, sets: seq<set<Key>>, size: nat,
                                      pages: seq<Page>, c: Option<Key>)
    requires size > 0 && |sets| == |answers| && Nested(sets)
    requires forall i :: 0 <= i < |sets| ==> Lists(answers[i], text, sets[i], size)
    requires IsWalk(answers, CursorOf(text, c), pages) && (c.Some? ==> c.value in sets[0])
    ensures IsKeysetWalk(sets, size, Listed(pages), c)
    decreases |pages|
  {
    var list := Sorted(Below(sets[0], c));
    FirstAnswer(answers[0], text, sets[0], size, c);
    if |list| > size {
      NestedTail(sets);
      WalkOfKeys(answers[1..], text, sets[1..], size, pages[1..], Some(list[size - 1]));
    }
    assert Listed(pages)[1..] == Listed(pages[1..]);
  }

  /** The pages of a listing. */
  function Expected(text: Key -> string, list: seq<Key>, size: nat): (pages: seq<Page>)
    requires size > 0
    ensures |pages| > 0
    decreases |list|
  {
    if |list| <= size then [FirstPage(text, list, size)]
    else [FirstPage(text, list, size)] + Expected(text, list[size..], size)
  }

  lemma {:induction false} ExpectedIsChunks(text: Key -> string, list: seq<Key>, size: nat)
    requires size > 0
    ensures Listed(Expected(text, list, size)) == Chunks(list, size)
    decreases |list|
  {
    if |list| > size {
      ExpectedIsChunks(text, list[size..], size);
      assert Expected(text, list, size)[1..] == Expected(text, list[size..], size);
    } else {
      assert Listed([FirstPage(text, list, size)]) == [list] + Listed([]);
    }
  }

  lemma BelowCut(keys: set<Key>, c: Option<Key>, size: nat)
    requires 0 < size <= |Below(keys, c)|
    ensures
      var list := Sorted(Below(keys, c));
      Sorted(Below(keys, Some(list[size - 1]))) == list[size..] && list[size - 1] in keys
  {
    var list := Sorted(Below(keys, c));
    var last := list[size - 1];
    assert last in Elements(list);
    forall k | k in Below(keys, Some(last)) ensures k in Below(keys, c) {
      if c.Some? {
        LessTransitive(k, last, c.value);
      }
    }
    assert Below(keys, Some(last)) == Below(Below(keys, c), Some(last));
    SortedBelowElement(Below(keys, c), size - 1);
  }

  lemma JoinedEqual<T>(head: T, a: seq<T>, b: seq<T>)
    ensures [head] + a == [head] + b <==> a == b
  {
    assert ([head] + a)[1..] == a && ([head] + b)[1..] == b;
  }

  /** Over a fixed set of keys there is exactly one walk: the sorted keys cut into pages. */
  lemma {:induction false} FixedWalk(
      answers: seq<Answer>, answer: Answer, text: Key -> string, keys: set<Key>, size: nat, pages: seq<Page>,
      c: Option<Key>)
    requires size > 0 && Lists(answer, text, keys, size) && (c.Some? ==> c.value in keys)
    requires |answers| == |pages| && forall i :: 0 <= i < |answers| ==> answers[i] == answer
    ensures IsWalk(answers, CursorOf(text, c), pages) <==> pages == Expected(text, Sorted(Below(keys, c)), size)
    decreases |pages|
  {
    var list := Sorted(Below(keys, c));
    if pages != [] && pages[0] == FirstPage(text, list, size) {
      assert pages == [pages[0]] + pages[1..];
      if |list| > size {
        BelowCut(keys, c, size);
        assert text(list[size - 1]) != "";
        FixedWalk(answers[1..], answer, text, keys, size, pages[1..], Some(list[size - 1]));
        JoinedEqual(pages[0], pages[1..], Expected(text, list[size..], size));
      }
    }
  }

  /** Sorting a slice with a `less` that reads only the key, as Go's sort.Slice does. */
  function SortedRows<R>(rows: seq<R>, key: R -> Key): (s: seq<R>)
    ensures multiset(s) == multiset(rows)
  {
    if rows == [] then []
    else
      assert rows == rows[..|rows| - 1] + [rows[|rows| - 1]];
      Inserted(SortedRows(rows[..|rows| - 1], key), rows[|rows| - 1], key)
  }

  function Inserted<R>(rows: seq<R>, row: R, key: R -> Key): (s: seq<R>)
    ensures multiset(s) == multiset(rows) + multiset{row}
  {
    if rows == [] then [row]
    else if Less(key(rows[|rows| - 1]), key(row)) then
      assert rows == rows[..|rows| - 1] + [rows[|rows| - 1]];
      Inserted(rows[..|rows| - 1], row, key) + [rows[|rows| - 1]]
    else rows + [row]
  }

  function KeysOf<R>(rows: seq<R>, key: R -> Key): (s: seq<Key>)
    ensures |s| == |rows| && forall i :: 0 <= i < |s| ==> s[i] == key(rows[i])
  {
    seq(|rows|, i requires 0 <= i < |rows| => key(rows[i]))
  }

  predicate DistinctKeys<R>(rows: seq<R>, key: R -> Key) {
    forall i, j :: 0 <= i < j < |rows| ==> key(rows[i]) != key(rows[j])
  }

  /** No row comes before one with a greater key. */
  predicate Ordered<R>(rows: seq<R>, key: R -> Key) {
    forall i, j :: 0 <= i < j < |rows| ==> !Less(key(rows[i]), key(rows[j]))
  }

  lemma AppendOrdered<R>(rows: seq<R>, row: R, key: R -> Key)
    requires Ordered(rows, key) && (rows != [] ==> !Less(key(rows[|rows| - 1]), key(row)))
    ensures Ordered(rows + [row], key)
  {
    forall i | 0 <= i < |rows| ensures !Less(key(rows[i]), key(row)) {
      var last := rows[|rows| - 1];
      LessIsTotal(key(last), key(row));
      if i < |rows| - 1 && Less(key(rows[i]), key(row)) {
        if Less(key(row), key(last)) {
          LessTransitive(key(rows[i]), key(row), key(last));
        }
      }
    }
  }

  lemma {:induction false} InsertedOrdered<R>(rows: seq<R>, row: R, key: R -> Key)
    requires Ordered(rows, key)
    ensures Ordered(Inserted(rows, row, key), key)
  {
    if rows != [] {
      var n := |rows| - 1;
      LessIsTotal(key(rows[n]), key(row));
      if Less(key(rows[n]), key(row)) {
        var init := Inserted(rows[..n], row, key);
        InsertedOrdered(rows[..n], row, key);
        var x := init[|init| - 1];
        assert x in multiset(init);
        if x != row {
          assert x in multiset(rows[..n]);
        }
        AppendOrdered(init, rows[n], key);
      } else {
        AppendOrdered(rows, row, key);
      }
    }
  }

  lemma {:induction false} SortedRowsOrdered<R>(rows: seq<R>, key: R -> Key)
    ensures Ordered(SortedRows(rows, key), key)
  {
    if rows != [] {
      var n := |rows| - 1;
      SortedRowsOrdered(rows[..n], key);
      InsertedOrdered(SortedRows(rows[..n], key), rows[n], key);
    }
  }

  lemma SameMembers<R>(a: seq<R>, b: seq<R>)
    requires multiset(a) == multiset(b)
    ensures forall r :: r in a <==> r in b
  {
    forall r ensures r in a <==> r in b {
      assert r in a <==> r in multiset(a);
    }
  }

  lemma {:induction false} DistinctKeysOnce<R(!new)>(rows: seq<R>, key: R -> Key, r: R)
    requires DistinctKeys(rows, key)
    ensures multiset(rows)[r] == if r in rows then 1 else 0
  {
    if rows != [] {
      DistinctKeysOnce(rows[1..], key, r);
      assert rows == [rows[0]] + rows[1..];
    }
  }

  lemma TwiceIn<R>(s: seq<R>, i: nat, j: nat)
    requires i < j < |s| && s[i] == s[j]
    ensures multiset(s)[s[i]] >= 2
  {
    assert s == s[..i] + [s[i]] + s[i + 1..j] + [s[j]] + s[j + 1..];
  }

  /** A permutation keeps the keys distinct. */
  lemma PermutedKeys<R(!new)>(a: seq<R>, b: seq<R>, key: R -> Key)
    requires DistinctKeys(a, key) && multiset(a) == multiset(b)
    ensures DistinctKeys(b, key)
  {
    SameMembers(a, b);
    forall i, j | 0 <= i < j < |b| ensures key(b[i]) != key(b[j]) {
      assert b[i] in a && b[j] in a;
      if b[i] == b[j] {
        TwiceIn(b, i, j);
        DistinctKeysOnce(a, key, b[i]);
      }
    }
  }

  /** Sorting rows with distinct keys lists exactly those keys in descending order. */
  lemma SortedRowsDescend<R(!new)>(rows: seq<R>, key: R -> Key)
    requires DistinctKeys(rows, key)
    ensures KeysOf(SortedRows(rows, key), key) == Sorted(Elements(KeysOf(rows, key)))
  {
    var s := SortedRows(rows, key);
    SortedRowsOrdered(rows, key);
    PermutedKeys(rows, s, key);
    forall i, j | 0 <= i < j < |s| ensures Less(key(s[j]), key(s[i])) {
      LessIsTotal(key(s[i]), key(s[j]));
    }
    SameMembers(rows, s);
    forall k ensures k in KeysOf(s, key) <==> k in KeysOf(rows, key) {
      KeyPresent(rows, s, key, k);
      KeyPresent(s, rows, key, k);
    }
    assert Elements(KeysOf(s, key)) == Elements(KeysOf(rows, key));
    SortedIs(KeysOf(s, key));
  }

  lemma KeyPresent<R>(a: seq<R>, b: seq<R>, key: R -> Key, k: Key)
    requires forall r :: r in a ==> r in b
    ensures k in KeysOf(a, key) ==> k in KeysOf(b, key)
  {
    if k in KeysOf(a, key) {
      var i :| 0 <= i < |a| && KeysOf(a, key)[i] == k;
      assert a[i] in b;
      var j :| 0 <= j < |b| && b[j] == a[i];
      assert KeysOf(b, key)[j] == k;
    }
  }
}
