/** The TTL cache of the BFF (handlers/cache.go). Each event below is one of its critical sections; a Get is a
    Fetch, a look at the clock, and for an expired item a Clean. */
module ResponseCache {
  import opened Wrappers

  datatype Item<V> = Item(val: V, expiresAt: int)

  /** The clock readings are those taken while the lock is held. */
  datatype Event<V> =
    | Set(key: string, val: V, now: int)
    | Invalidate(text: string)
    | Fetch(key: string)
    | Clean(key: string, now: int)

  /** strings.EqualFold(text, "ALL"). */
  predicate SaysAll(text: string) {
    |text| == 3 && text[0] in "Aa" && text[1] in "Ll" && text[2] in "Ll"
  }

  /** An invalidation message that drops the entry of a key. */
  predicate Drops(text: string, key: string) {
    text == "" || SaysAll(text) || text == key
  }

  function Applied<V>(items: map<string, Item<V>>, ttl: nat, e: Event<V>): map<string, Item<V>> {
    match e
    case Set(key, val, now) => items[key := Item(val, now + ttl)]
    case Invalidate(text) => if text == "" || SaysAll(text) then map[] else items - {text}
    case Fetch(key) => items
    case Clean(key, now) => if key in items && now > items[key].expiresAt then items - {key} else items
  }

  function ItemsAfter<V>(ttl: nat, events: seq<Event<V>>): map<string, Item<V>> {
    if events == [] then map[] else Applied(ItemsAfter(ttl, events[..|events| - 1]), ttl, events[|events| - 1])
  }

  function AppliedAll<V>(items: map<string, Item<V>>, ttl: nat, events: seq<Event<V>>): map<string, Item<V>> {
    if events == [] then items else Applied(AppliedAll(items, ttl, events[..|events| - 1]), ttl, events[|events| - 1])
  }

  lemma AppliedLast<V>(items: map<string, Item<V>>, ttl: nat, events: seq<Event<V>>, e: Event<V>)
    ensures AppliedAll(items, ttl, events + [e]) == Applied(AppliedAll(items, ttl, events), ttl, e)
  {
    assert (events + [e])[..|events|] == events;
  }

  lemma {:induction false} ItemsGoOn<V>(ttl: nat, before: seq<Event<V>>, more: seq<Event<V>>)
    ensures ItemsAfter(ttl, before + more) == AppliedAll(ItemsAfter(ttl, before), ttl, more)
  {
    if more == [] {
      assert before + more == before;
    } else {
      ItemsGoOn(ttl, before, more[..|more| - 1]);
      assert (before + more)[..|before + more| - 1] == before + more[..|more| - 1];
    }
  }

  /** The item last set for a key, unless an invalidation has dropped it since. */
  function Latest<V>(ttl: nat, events: seq<Event<V>>, key: string): Option<Item<V>> {
    if events == [] then None
    else
      var before, e := Latest(ttl, events[..|events| - 1], key), events[|events| - 1];
      match e
      case Set(k, val, now) => if k == key then Some(Item(val, now + ttl)) else before
      case Invalidate(text) => if Drops(text, key) then None else before
      case _ => before
  }

  /** Event i sets the key, and nothing after it sets or drops it. */
  ghost predicate LastSet<V>(events: seq<Event<V>>, key: string, i: nat) {
    && i < |events| && events[i].Set? && events[i].key == key
    && forall j :: i < j < |events| ==>
      && (events[j].Set? ==> events[j].key != key)
      && (events[j].Invalidate? ==>
          && events[j].text != "" && events[j].text != key
          && !(|events[j].text| == 3 && events[j].text[0] in "Aa" && events[j].text[1] in "Ll"
               && events[j].text[2] in "Ll"))
  }

  lemma {:induction false} LatestIsLastSet<V>(ttl: nat, events: seq<Event<V>>, key: string)
    ensures
      var latest := Latest(ttl, events, key);
      && (latest.Some? ==> exists i: nat :: LastSet(events, key, i))
      && forall i: nat :: LastSet(events, key, i) ==> latest == Some(Item(events[i].val, events[i].now + ttl))
  {
    if events != [] {
      var n, before, e := |events| - 1, events[..|events| - 1], events[|events| - 1];
      LatestIsLastSet(ttl, before, key);
      assert forall j :: 0 <= j < n ==> before[j] == events[j];
      forall i: nat | LastSet(events, key, i)
        ensures Latest(ttl, events, key) == Some(Item(events[i].val, events[i].now + ttl))
      {
        if i < n {
          assert LastSet(before, key, i);
        }
      }
      if Latest(ttl, events, key).Some? {
        if e.Set? && e.key == key {
          assert LastSet(events, key, n);
        } else {
          var i: nat :| LastSet(before, key, i);
          assert LastSet(events, key, i);
        }
      }
    }
  }

  function TimeOf<V>(e: Event<V>): Option<int> {
    if e.Set? || e.Clean? then Some(e.now) else None
  }

  /** The clock never runs backwards. */
  ghost predicate Ordered<V>(events: seq<Event<V>>, now: int) {
    && (forall k :: 0 <= k < |events| && TimeOf(events[k]).Some? ==> TimeOf(events[k]).value <= now)
    && forall j, k ::
      (0 <= j < k < |events| && TimeOf(events[j]).Some? && TimeOf(events[k]).Some?)
      ==> TimeOf(events[j]).value <= TimeOf(events[k]).value
  }

  /** The cache holds the latest item of every key, except that expired ones may be gone. */
  lemma {:induction false} HoldsLatest<V>(ttl: nat, events: seq<Event<V>>, now: int, key: string)
    requires Ordered(events, now)
    ensures
      var items, latest := ItemsAfter(ttl, events), Latest(ttl, events, key);
      if key in items then latest == Some(items[key]) else latest.Some? ==> now > latest.value.expiresAt
  {
    if events != [] {
      var before, e := events[..|events| - 1], events[|events| - 1];
      HoldsLatest(ttl, before, if TimeOf(e).Some? then TimeOf(e).value else now, key);
    }
  }

  /** What a Get answers that has fetched this item and then reads the clock. */
  function Answer<V>(fetched: Option<Item<V>>, now: int): Option<V> {
    if fetched.Some? && now <= fetched.value.expiresAt then Some(fetched.value.val) else None
  }

  function Lookup<V>(items: map<string, Item<V>>, key: string): Option<Item<V>> {
    if key in items then Some(items[key]) else None
  }

  /** Whatever sets, invalidations and other gets run in between, a Get hits exactly when the item last set for
      its key at the time of its fetch has neither been invalidated nor expired, and then it returns that item. */
  lemma GetHitsIff<V>(ttl: nat, events: seq<Event<V>>, key: string, now: int)
    requires Ordered(events, now)
    ensures Answer(Lookup(ItemsAfter(ttl, events), key), now) == Answer(Latest(ttl, events, key), now)
    ensures
      var items := ItemsAfter(ttl, events);
      && (key in items && now <= items[key].expiresAt ==>
          exists i: nat :: LastSet(events, key, i) && now <= events[i].now + ttl && events[i].val == items[key].val)
      && forall i: nat :: LastSet(events, key, i) && now <= events[i].now + ttl ==>
          key in items && now <= items[key].expiresAt && events[i].val == items[key].val
  {
    HoldsLatest(ttl, events, now, key);
    LatestIsLastSet(ttl, events, key);
  }

  class TTLCache<V> {
    var items: map<string, Item<V>>
    const ttl: nat
    ghost var events: seq<Event<V>>

    ghost predicate Valid()
      reads this
    {
      items == ItemsAfter(ttl, events)
    }

    constructor (ttlSec: int)
      ensures Valid() && events == [] && ttl == 1000000000 * (if ttlSec <= 0 then 60 else ttlSec)
    {
      items, events := map[], [];
      ttl := if ttlSec <= 0 then 60000000000 else 1000000000 * ttlSec;
    }

    method FetchItem(key: string) returns (it: Option<Item<V>>)
      ensures it == Lookup(items, key)
    {
      if key in items {
        return Some(items[key]);
      }
      return None;
    }

    /** The clean-up section; it never removes an item that has not expired. */
    method CleanUp(key: string, now: int)
      requires Valid()
      modifies this
      ensures Valid() && events == old(events) + [Clean(key, now)]
      ensures forall k :: k in old(items) ==> (k !in items <==> k == key && now > old(items)[k].expiresAt)
      ensures forall k :: k in items ==> k in old(items) && items[k] == old(items)[k]
    {
      ItemsGoOn(ttl, events, [Clean(key, now)]);
      AppliedLast(items, ttl, [], Clean(key, now));
      events := events + [Clean(key, now)];
      if key in items && now > items[key].expiresAt {
        items := items - {key};
      }
    }

    /** Get, with the sections of other goroutines that come between its own: `between` the fetch and, when
        the item has expired, the clean-up. It answers for the moment of its fetch. */
    method Get(key: string, now: int, between: seq<Event<V>>, later: int) returns (r: Option<V>)
      requires Valid()
      modifies this
      ensures Valid()
      ensures
        var expired := key in old(items) && now > old(items)[key].expiresAt;
        events == old(events) + between + if expired then [Clean(key, later)] else []
      ensures r == if key in old(items) && now <= old(items)[key].expiresAt then Some(old(items)[key].val) else None
      ensures Ordered(old(events), now) && r.Some? ==>
        exists i: nat :: LastSet(old(events), key, i)
          && now <= old(events)[i].now + ttl && old(events)[i].val == r.value
      ensures Ordered(old(events), now) && r.None? ==>
        forall i: nat :: LastSet(old(events), key, i) ==> old(events)[i].now + ttl < now
    {
      if Ordered(events, now) {
        GetHitsIff(ttl, events, key, now);
      }
      var it := FetchItem(key);
      ItemsGoOn(ttl, events, between);
      items, events := AppliedAll(items, ttl, between), events + between;  // the other goroutines
      if it.None? {
        return None;
      }
      if now > it.value.expiresAt {
        CleanUp(key, later);
        return None;
      }
      return Some(it.value.val);
    }

    method SetItem(key: string, val: V, now: int)
      requires Valid()
      modifies this
      ensures Valid() && events == old(events) + [Set(key, val, now)]
      ensures items == old(items)[key := Item(val, now + ttl)]
    {
      ItemsGoOn(ttl, events, [Set(key, val, now)]);
      AppliedLast(items, ttl, [], Set(key, val, now));
      events := events + [Set(key, val, now)];
      items := items[key := Item(val, now + ttl)];
    }

    /** The invalidation callback. */
    method OnInvalidation(text: string)
      requires Valid()
      modifies this
      ensures Valid() && events == old(events) + [Invalidate(text)]
      ensures forall k :: k in old(items) ==>
        && (k !in items <==>
            text == "" || text == k || (|text| == 3 && text[0] in "Aa" && text[1] in "Ll" && text[2] in "Ll"))
        && (k in items ==> items[k] == old(items)[k])
      ensures items.Keys <= old(items).Keys
    {
      ItemsGoOn(ttl, events, [Invalidate(text)]);
      AppliedLast(items, ttl, [], Invalidate(text));
      events := events + [Invalidate(text)];
      if text == "" || SaysAll(text) {
        items := map[];
        return;
      }
      items := items - {text};
    }
  }
}
