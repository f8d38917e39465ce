/** The catalog store: anime and episode upserts over the tables of the catalog service. */
module Catalog {
  import opened Pipeline
  import opened Text
  import opened Wrappers

  datatype Episode = Episode(animeId: string, number: int, title: string, url: string, isFiller: bool, updatedAt: int)

  datatype EpisodeInput = EpisodeInput(
    providerEpisodeId: string, number: int, title: string, url: string, isFiller: bool, hasIsFiller: bool)

  /** A provider's name with an id of that provider. */
  type Key = (string, string)

  datatype Tables = Tables(
    anime: map<string, Anime>,
    animeIds: map<Key, string>,
    episodes: map<string, Episode>,
    episodeIds: map<Key, string>,
    outbox: seq<string>)

  // ---- writing one episode ----

  /** UNIQUE (anime_id, number): another episode has this number. */
  predicate NumberTaken(episodes: map<string, Episode>, id: string, animeId: string, number: int) {
    exists other :: other in episodes && other != id
      && episodes[other].animeId == animeId && episodes[other].number == number
  }

  /** A new row has no url when a filler flag is listed and is no filler otherwise; an old row keeps
      the one of the two that is not listed. */
  function Written(row: Option<Episode>, animeId: string, ep: EpisodeInput, now: int): Episode {
    match row
    case None =>
      if ep.hasIsFiller then Episode(animeId, ep.number, ep.title, "", ep.isFiller, now)
      else Episode(animeId, ep.number, ep.title, ep.url, false, now)
    case Some(e) =>
      if ep.hasIsFiller then Episode(animeId, ep.number, ep.title, e.url, ep.isFiller, now)
      else Episode(animeId, ep.number, ep.title, ep.url, e.isFiller, now)
  }

  function IdFor(t: Tables, key: Key, newId: string): string {
    if key in t.episodeIds then t.episodeIds[key] else newId
  }

  function RowFor(t: Tables, key: Key): Option<Episode> {
    if key in t.episodeIds && t.episodeIds[key] in t.episodes then Some(t.episodes[t.episodeIds[key]]) else None
  }

  /** Whether the database takes the statements for one listed episode. */
  predicate Accepts(t: Tables, key: Key, animeId: string, ep: EpisodeInput, newId: string) {
    && !NumberTaken(t.episodes, IdFor(t, key, newId), animeId, ep.number)
    && (key !in t.episodeIds ==> newId !in t.episodes)
  }

  function WithEpisode(t: Tables, key: Key, animeId: string, ep: EpisodeInput, newId: string, now: int): Tables {
    var id := IdFor(t, key, newId);
    t.(episodes := t.episodes[id := Written(RowFor(t, key), animeId, ep, now)], episodeIds := t.episodeIds[key := id])
  }

  /** What a sync meets on its way: the uuids it draws and the statements that fail, by place in the list. */
  datatype Surroundings = Surroundings(newIds: nat -> string, faults: nat -> bool)

  /** upsertEpisodes; None when a statement fails. */
  function Synced(t: Tables, provider: string, animeId: string, eps: seq<EpisodeInput>, env: Surroundings, now: int)
    : (r: Option<(Tables, seq<string>)>)
  {
    if eps == [] then Some((t, []))
    else
      var n, ep := |eps| - 1, eps[|eps| - 1];
      var before := Synced(t, provider, animeId, eps[..n], env, now);
      if before.None? || ep.providerEpisodeId == "" then before
      else
        var (u, ids) := before.value;
        var key := (provider, ep.providerEpisodeId);
        if env.faults(n) || !Accepts(u, key, animeId, ep, env.newIds(n)) then None
        else Some((WithEpisode(u, key, animeId, ep, env.newIds(n), now), ids + [IdFor(u, key, env.newIds(n))]))
  }

  /** One more listing: the step that the loop takes. */
  lemma SyncStep(
      t: Tables, provider: string, animeId: string, eps: seq<EpisodeInput>, env: Surroundings, now: int, i: nat)
    requires i < |eps| && Synced(t, provider, animeId, eps[..i], env, now).Some?
    ensures
      var before, ep := Synced(t, provider, animeId, eps[..i], env, now), eps[i];
      var u, key := before.value.0, (provider, ep.providerEpisodeId);
      Synced(t, provider, animeId, eps[..i + 1], env, now) ==
        if ep.providerEpisodeId == "" then before
        else if env.faults(i) || !Accepts(u, key, animeId, ep, env.newIds(i)) then None
        else
          Some((WithEpisode(u, key, animeId, ep, env.newIds(i), now),
                before.value.1 + [IdFor(u, key, env.newIds(i))]))
  {
    var part := eps[..i + 1];
    assert part != [] && |part| - 1 == i && part[..i] == eps[..i] && part[i] == eps[i];
  }

  // ---- what a sync keeps ----

  /** Mapped ids exist, no two provider ids share an episode, and episode numbers are unique in an anime. */
  ghost predicate Sound(t: Tables) {
    && (forall k :: k in t.animeIds ==> t.animeIds[k] in t.anime)
    && (forall k :: k in t.episodeIds ==> t.episodeIds[k] in t.episodes)
    && (forall k, l :: k in t.episodeIds && l in t.episodeIds && t.episodeIds[k] == t.episodeIds[l] ==> k == l)
    && NumbersUnique(t.episodes)
  }

  ghost predicate NumbersUnique(episodes: map<string, Episode>) {
    forall i, j ::
      && i in episodes && j in episodes
      && episodes[i].animeId == episodes[j].animeId && episodes[i].number == episodes[j].number
      ==> i == j
  }

  /** Mappings are never dropped or changed. */
  ghost predicate MappingKept(t: Tables, u: Tables) {
    forall k :: k in t.episodeIds ==> k in u.episodeIds && u.episodeIds[k] == t.episodeIds[k]
  }

  lemma EpisodeKeeps(t: Tables, key: Key, animeId: string, ep: EpisodeInput, newId: string, now: int)
    requires Sound(t) && Accepts(t, key, animeId, ep, newId)
    ensures Sound(WithEpisode(t, key, animeId, ep, newId, now))
    ensures MappingKept(t, WithEpisode(t, key, animeId, ep, newId, now))
  {
    NumbersStayUnique(t.episodes, IdFor(t, key, newId), Written(RowFor(t, key), animeId, ep, now));
  }

  lemma NumbersStayUnique(episodes: map<string, Episode>, id: string, row: Episode)
    requires NumbersUnique(episodes) && !NumberTaken(episodes, id, row.animeId, row.number)
    ensures NumbersUnique(episodes[id := row])
  {
  }

  /** Writing one episode changes the row of its own provider id and no other mapped row. */
  lemma EpisodeWrites(t: Tables, key: Key, animeId: string, ep: EpisodeInput, newId: string, now: int, other: Key)
    requires Sound(t) && Accepts(t, key, animeId, ep, newId)
    ensures
      var u := WithEpisode(t, key, animeId, ep, newId, now);
      RowFor(u, other) == if other == key then Some(Written(RowFor(t, key), animeId, ep, now)) else RowFor(t, other)
  {
  }

  /** The row of one provider id after its own listings, oldest first. */
  function Folded(
      row: Option<Episode>, animeId: string, eps: seq<EpisodeInput>, pid: string, now: int): Option<Episode>
  {
    if eps == [] then row
    else
      var before, ep := Folded(row, animeId, eps[..|eps| - 1], pid, now), eps[|eps| - 1];
      if ep.providerEpisodeId == pid then Some(Written(before, animeId, ep, now)) else before
  }

  ghost predicate Lists(eps: seq<EpisodeInput>, pid: string) {
    exists k :: 0 <= k < |eps| && eps[k].providerEpisodeId == pid
  }

  /** A sync that goes through leaves with every provider id exactly what its own listings make of its row,
      whatever the other listings are; rows without a listed id stay as they are. */
  lemma {:induction false} SyncWritesListings(
      t: Tables, provider: string, animeId: string, eps: seq<EpisodeInput>, env: Surroundings, now: int, key: Key)
    requires Sound(t) && Synced(t, provider, animeId, eps, env, now).Some?
    ensures
      var u := Synced(t, provider, animeId, eps, env, now).value.0;
      && Sound(u) && MappingKept(t, u)
      && RowFor(u, key) ==
         if key.0 == provider && key.1 != "" then Folded(RowFor(t, key), animeId, eps, key.1, now)
         else RowFor(t, key)
  {
    if eps != [] {
      var n, ep := |eps| - 1, eps[|eps| - 1];
      SyncWritesListings(t, provider, animeId, eps[..n], env, now, key);
      if ep.providerEpisodeId != "" {
        var u := Synced(t, provider, animeId, eps[..n], env, now).value.0;
        var mine := (provider, ep.providerEpisodeId);
        EpisodeKeeps(u, mine, animeId, ep, env.newIds(n), now);
        EpisodeWrites(u, mine, animeId, ep, env.newIds(n), now, key);
      }
    }
  }

  /** Episodes that no mapping leads to are not touched, and nothing but mapped episodes is added. */
  lemma {:induction false} SyncLeavesOthers(
      t: Tables, provider: string, animeId: string, eps: seq<EpisodeInput>, env: Surroundings, now: int, id: string)
    requires Sound(t) && Synced(t, provider, animeId, eps, env, now).Some?
    ensures
      var u := Synced(t, provider, animeId, eps, env, now).value.0;
      && u.anime == t.anime && u.animeIds == t.animeIds && u.outbox == t.outbox
      && (id in t.episodes ==> id in u.episodes)
      && (id in u.episodes && id !in u.episodeIds.Values ==> id in t.episodes && u.episodes[id] == t.episodes[id])
  {
    if eps != [] {
      var n, ep := |eps| - 1, eps[|eps| - 1];
      SyncLeavesOthers(t, provider, animeId, eps[..n], env, now, id);
      if ep.providerEpisodeId != "" {
        var u := Synced(t, provider, animeId, eps[..n], env, now).value.0;
        var mine := (provider, ep.providerEpisodeId);
        SyncWritesListings(t, provider, animeId, eps[..n], env, now, mine);
        var v := WithEpisode(u, mine, animeId, ep, env.newIds(n), now);
        assert v.episodeIds[mine] in v.episodeIds.Values;
        assert forall k :: k in u.episodeIds ==> k in v.episodeIds && v.episodeIds[k] == u.episodeIds[k];
      }
    }
  }

  function NonEmpty(eps: seq<EpisodeInput>): (pids: seq<string>) {
    if eps == [] then []
    else
      var before, pid := NonEmpty(eps[..|eps| - 1]), eps[|eps| - 1].providerEpisodeId;
      if pid == "" then before else before + [pid]
  }

  /** The ids come in the order of the list, empty provider ids skipped, and each is the id its provider id
      maps to from now on. */
  lemma {:induction false} SyncReturnsIds(
      t: Tables, provider: string, animeId: string, eps: seq<EpisodeInput>, env: Surroundings, now: int)
    requires Sound(t) && Synced(t, provider, animeId, eps, env, now).Some?
    ensures
      var (u, ids) := Synced(t, provider, animeId, eps, env, now).value;
      && |ids| == |NonEmpty(eps)|
      && forall k :: 0 <= k < |ids| ==>
          (provider, NonEmpty(eps)[k]) in u.episodeIds && u.episodeIds[(provider, NonEmpty(eps)[k])] == ids[k]
  {
    if eps != [] {
      var n, ep := |eps| - 1, eps[|eps| - 1];
      SyncReturnsIds(t, provider, animeId, eps[..n], env, now);
      if ep.providerEpisodeId != "" {
        var (u, ids) := Synced(t, provider, animeId, eps[..n], env, now).value;
        var mine := (provider, ep.providerEpisodeId);
        SyncWritesListings(t, provider, animeId, eps[..n], env, now, mine);
        EpisodeKeeps(u, mine, animeId, ep, env.newIds(n), now);
      }
    }
  }

  /** The place of the last listing of a provider id. */
  ghost predicate LastListing(eps: seq<EpisodeInput>, k: nat) {
    k < |eps| && forall l :: k < l < |eps| ==> eps[l].providerEpisodeId != eps[k].providerEpisodeId
  }

  ghost predicate Shows(row: Episode, animeId: string, ep: EpisodeInput, now: int) {
    && row.animeId == animeId && row.number == ep.number && row.title == ep.title && row.updatedAt == now
    && (if ep.hasIsFiller then row.isFiller == ep.isFiller else row.url == ep.url)
  }

  lemma {:induction false} FoldShowsLast(
      row: Option<Episode>, animeId: string, eps: seq<EpisodeInput>, k: nat, now: int)
    requires LastListing(eps, k)
    ensures
      var r := Folded(row, animeId, eps, eps[k].providerEpisodeId, now);
      r.Some? && Shows(r.value, animeId, eps[k], now)
  {
    var n := |eps| - 1;
    if k < n {
      assert eps[..n][k] == eps[k];
      FoldShowsLast(row, animeId, eps[..n], k, now);
    }
  }

  /** Each listed episode ends with its last listed values. */
  lemma LastListedWins(
      t: Tables, provider: string, animeId: string, eps: seq<EpisodeInput>, env: Surroundings, now: int, k: nat)
    requires Sound(t) && Synced(t, provider, animeId, eps, env, now).Some?
    requires LastListing(eps, k) && eps[k].providerEpisodeId != ""
    ensures
      var row := RowFor(Synced(t, provider, animeId, eps, env, now).value.0, (provider, eps[k].providerEpisodeId));
      row.Some? && Shows(row.value, animeId, eps[k], now)
  {
    SyncWritesListings(t, provider, animeId, eps, env, now, (provider, eps[k].providerEpisodeId));
    FoldShowsLast(RowFor(t, (provider, eps[k].providerEpisodeId)), animeId, eps, k, now);
  }

  /** What a listing may set besides number and title: always the filler flag, or always the url. */
  ghost predicate AlwaysFlagged(eps: seq<EpisodeInput>, pid: string, flagged: bool) {
    forall k :: 0 <= k < |eps| && eps[k].providerEpisodeId == pid ==> eps[k].hasIsFiller == flagged
  }

  lemma {:induction false} FoldKeepsUnlisted(
      row: Option<Episode>, animeId: string, eps: seq<EpisodeInput>, pid: string, now: int)
    requires Lists(eps, pid)
    ensures
      var r := Folded(row, animeId, eps, pid, now);
      && r.Some?
      && (AlwaysFlagged(eps, pid, true) ==> r.value.url == if row.Some? then row.value.url else "")
      && (AlwaysFlagged(eps, pid, false) ==> r.value.isFiller == (row.Some? && row.value.isFiller))
  {
    var n := |eps| - 1;
    assert forall k :: 0 <= k < n ==> eps[..n][k] == eps[k];
    if Lists(eps[..n], pid) {
      FoldKeepsUnlisted(row, animeId, eps[..n], pid, now);
    } else {
      FoldOfListed(row, row, animeId, eps[..n], pid, now, now);
      assert eps[n].providerEpisodeId == pid;
    }
  }

  /** A sync whose listings of an episode all carry a filler flag keeps its url, or leaves a new one without;
      one whose listings all carry none keeps its filler flag, or starts with none. */
  lemma UnlistedFieldsKept(
      t: Tables, provider: string, animeId: string, eps: seq<EpisodeInput>, env: Surroundings, now: int, pid: string)
    requires Sound(t) && Synced(t, provider, animeId, eps, env, now).Some? && Lists(eps, pid) && pid != ""
    ensures
      var before := RowFor(t, (provider, pid));
      var row := RowFor(Synced(t, provider, animeId, eps, env, now).value.0, (provider, pid));
      && row.Some?
      && (AlwaysFlagged(eps, pid, true) ==> row.value.url == if before.Some? then before.value.url else "")
      && (AlwaysFlagged(eps, pid, false) ==> row.value.isFiller == (before.Some? && before.value.isFiller))
  {
    SyncWritesListings(t, provider, animeId, eps, env, now, (provider, pid));
    FoldKeepsUnlisted(RowFor(t, (provider, pid)), animeId, eps, pid, now);
  }

  // ---- lists that sync ----

  /** A sync adds episodes only under the uuids it draws. */
  lemma {:induction false} SyncedKeys(
      t: Tables, provider: string, animeId: string, eps: seq<EpisodeInput>, env: Surroundings, now: int, id: string)
    requires Sound(t) && Synced(t, provider, animeId, eps, env, now).Some?
    requires id in Synced(t, provider, animeId, eps, env, now).value.0.episodes
    ensures id in t.episodes || exists k: nat :: k < |eps| && id == env.newIds(k)
  {
    if eps != [] {
      var n := |eps| - 1;
      LastSynced(t, provider, animeId, eps, env, now);
      SyncWritesListings(t, provider, animeId, eps[..n], env, now, ("", ""));
      if id in Synced(t, provider, animeId, eps[..n], env, now).value.0.episodes {
        SyncedKeys(t, provider, animeId, eps[..n], env, now, id);
      } else {
        assert id == env.newIds(n);
      }
    }
  }

  /** No listed number belongs to an episode of the anime other than the listed one. */
  ghost predicate NumbersFree(t: Tables, provider: string, animeId: string, eps: seq<EpisodeInput>) {
    forall k, e ::
      && 0 <= k < |eps| && eps[k].providerEpisodeId != "" && e in t.episodes
      && t.episodes[e].animeId == animeId && t.episodes[e].number == eps[k].number ==>
        && (provider, eps[k].providerEpisodeId) in t.episodeIds
        && t.episodeIds[(provider, eps[k].providerEpisodeId)] == e
  }

  ghost predicate NumbersDiffer(eps: seq<EpisodeInput>) {
    forall k, l :: 0 <= k < l < |eps| && eps[k].providerEpisodeId != "" && eps[l].providerEpisodeId != "" ==>
      eps[k].number != eps[l].number && eps[k].providerEpisodeId != eps[l].providerEpisodeId
  }

  lemma NumberStaysFree(
      t: Tables, provider: string, animeId: string, eps: seq<EpisodeInput>, env: Surroundings, now: int, other: string)
    requires Sound(t) && eps != [] && NumbersDiffer(eps) && NumbersFree(t, provider, animeId, eps)
    requires eps[|eps| - 1].providerEpisodeId != "" && Synced(t, provider, animeId, eps[..|eps| - 1], env, now).Some?
    requires
      var u := Synced(t, provider, animeId, eps[..|eps| - 1], env, now).value.0;
      other in u.episodes && u.episodes[other].animeId == animeId
      && u.episodes[other].number == eps[|eps| - 1].number
    ensures
      var u, mine := Synced(t, provider, animeId, eps[..|eps| - 1], env, now).value.0,
                     (provider, eps[|eps| - 1].providerEpisodeId);
      mine in u.episodeIds && u.episodeIds[mine] == other
  {
    var n, init, ep := |eps| - 1, eps[..|eps| - 1], eps[|eps| - 1];
    var u := Synced(t, provider, animeId, init, env, now).value.0;
    SyncLeavesOthers(t, provider, animeId, init, env, now, other);
    SyncWritesListings(t, provider, animeId, init, env, now, ("", ""));
    if other in u.episodeIds.Values {
      var key: Key :| key in u.episodeIds && u.episodeIds[key] == other;
      SyncWritesListings(t, provider, animeId, init, env, now, key);
      if key.0 == provider && key.1 != "" && Lists(init, key.1) {
        var k := HasLastListing(init, key.1);
        LastListedWins(t, provider, animeId, init, env, now, k);
        assert false;
      } else {
        FoldOfListed(RowFor(t, key), RowFor(t, key), animeId, init, key.1, now, now);
        assert RowFor(t, key) == Some(u.episodes[other]);
      }
    }
  }

  /** A list syncs when no statement meets an error, the uuids drawn are new, and no two listed episodes, nor a
      listed and another episode of the anime, have the same number or provider id. */
  lemma {:induction false} SyncSucceeds(
      t: Tables, provider: string, animeId: string, eps: seq<EpisodeInput>, env: Surroundings, now: int)
    requires Sound(t) && NumbersDiffer(eps) && NumbersFree(t, provider, animeId, eps)
    requires forall k: nat :: k < |eps| ==> !env.faults(k) && env.newIds(k) !in t.episodes
    requires forall k: nat, l: nat :: k < l < |eps| ==> env.newIds(k) != env.newIds(l)
    ensures Synced(t, provider, animeId, eps, env, now).Some?
  {
    if eps != [] {
      var n, init, ep := |eps| - 1, eps[..|eps| - 1], eps[|eps| - 1];
      assert forall k :: 0 <= k < n ==> init[k] == eps[k];
      SyncSucceeds(t, provider, animeId, init, env, now);
      var u, mine := Synced(t, provider, animeId, init, env, now).value.0, (provider, ep.providerEpisodeId);
      if ep.providerEpisodeId != "" {
        if NumberTaken(u.episodes, IdFor(u, mine, env.newIds(n)), animeId, ep.number) {
          var other :| other in u.episodes && other != IdFor(u, mine, env.newIds(n))
            && u.episodes[other].animeId == animeId && u.episodes[other].number == ep.number;
          NumberStaysFree(t, provider, animeId, eps, env, now, other);
          assert false;
        }
        if mine !in u.episodeIds && env.newIds(n) in u.episodes {
          SyncedKeys(t, provider, animeId, init, env, now, env.newIds(n));
          assert false;
        }
      }
    }
  }

  // ---- repeating a sync ----

  /** Listings alone decide anime and number of a listed row; an unlisted row stays. */
  lemma {:induction false} FoldOfListed(
      r1: Option<Episode>, r2: Option<Episode>, animeId: string, eps: seq<EpisodeInput>, pid: string, n1: int, n2: int)
    ensures !Lists(eps, pid) ==> Folded(r1, animeId, eps, pid, n1) == r1
    ensures
      var f1, f2 := Folded(r1, animeId, eps, pid, n1), Folded(r2, animeId, eps, pid, n2);
      Lists(eps, pid) ==>
          f1.Some? && f2.Some? && f1.value.animeId == f2.value.animeId && f1.value.number == f2.value.number
  {
    if eps != [] {
      var n := |eps| - 1;
      FoldOfListed(r1, r2, animeId, eps[..n], pid, n1, n2);
      assert eps[..n] + [eps[n]] == eps;
      assert Lists(eps, pid) <==> Lists(eps[..n], pid) || eps[n].providerEpisodeId == pid by {
        if Lists(eps[..n], pid) {
          var k :| 0 <= k < n && eps[..n][k].providerEpisodeId == pid;
          assert eps[k].providerEpisodeId == pid;
        }
        if Lists(eps, pid) && eps[n].providerEpisodeId != pid {
          var k :| 0 <= k <= n && eps[k].providerEpisodeId == pid;
          assert eps[..n][k].providerEpisodeId == pid;
        }
      }
    }
  }

  lemma LastSynced(t: Tables, provider: string, animeId: string, eps: seq<EpisodeInput>, env: Surroundings, now: int)
    requires Sound(t) && eps != [] && Synced(t, provider, animeId, eps, env, now).Some?
    ensures Synced(t, provider, animeId, eps[..|eps| - 1], env, now).Some?
    ensures
      var f := Synced(t, provider, animeId, eps[..|eps| - 1], env, now).value.0;
      var u := Synced(t, provider, animeId, eps, env, now).value.0;
      MappingKept(f, u)
  {
    var n, ep := |eps| - 1, eps[|eps| - 1];
    SyncWritesListings(t, provider, animeId, eps[..n], env, now, ("", ""));
    if ep.providerEpisodeId != "" {
      var before := Synced(t, provider, animeId, eps[..n], env, now).value.0;
      EpisodeKeeps(before, (provider, ep.providerEpisodeId), animeId, ep, env.newIds(n), now);
    }
  }

  lemma KeptOn(t: Tables, f: Tables, u: Tables)
    requires MappingKept(t, f) && MappingKept(f, u)
    ensures MappingKept(t, u)
  {
  }

  lemma {:induction false} PrefixSynced(
      t: Tables, provider: string, animeId: string, eps: seq<EpisodeInput>, env: Surroundings, now: int, j: nat)
    requires Sound(t) && Synced(t, provider, animeId, eps, env, now).Some? && j <= |eps|
    ensures Synced(t, provider, animeId, eps[..j], env, now).Some?
    ensures MappingKept(Synced(t, provider, animeId, eps[..j], env, now).value.0,
                        Synced(t, provider, animeId, eps, env, now).value.0)
  {
    if j == |eps| {
      assert eps[..j] == eps;
    } else {
      var n := |eps| - 1;
      assert eps[..n][..j] == eps[..j];
      LastSynced(t, provider, animeId, eps, env, now);
      PrefixSynced(t, provider, animeId, eps[..n], env, now, j);
      KeptOn(Synced(t, provider, animeId, eps[..j], env, now).value.0,
             Synced(t, provider, animeId, eps[..n], env, now).value.0,
             Synced(t, provider, animeId, eps, env, now).value.0);
    }
  }

  /** Listing j takes a number that the table still gives to another listed episode, one listed only later on. */
  ghost predicate BlockedBy(eps: seq<EpisodeInput>, j: nat, k: nat) {
    && j < k && LastListing(eps, k) && eps[k].providerEpisodeId != "" && eps[k].number == eps[j].number
    && !Lists(eps[..j + 1], eps[k].providerEpisodeId)
  }

  ghost predicate Blocked(eps: seq<EpisodeInput>, j: nat) {
    j < |eps| && eps[j].providerEpisodeId != "" && exists k: nat :: BlockedBy(eps, j, k)
  }

  /** The first sync and its repetition, each stopped before listing j. */
  ghost predicate Together(
      t: Tables, u: Tables, f: Tables, r: Tables, provider: string, animeId: string, eps: seq<EpisodeInput>, j: nat)
  {
    && j < |eps| && eps[j].providerEpisodeId != ""
    && Sound(t) && Sound(u) && Sound(f) && Sound(r)
    && MappingKept(f, u) && r.episodeIds == u.episodeIds && (provider, eps[j].providerEpisodeId) in u.episodeIds
    && (forall key: Key :: SameOrLater(f, r, animeId, eps, provider, j, key))
    && (forall id :: id in r.episodes && id !in r.episodeIds.Values ==>
          id in f.episodes && f.episodes[id] == r.episodes[id])
  }

  /** At listing j a row has in both syncs the same anime and number, unless it is listed only later. */
  ghost predicate SameOrLater(
      f: Tables, r: Tables, animeId: string, eps: seq<EpisodeInput>, provider: string, j: nat, key: Key)
    requires j <= |eps|
  {
    if key.0 == provider && key.1 != "" && Lists(eps, key.1) && !Lists(eps[..j], key.1) then
      forall k: nat :: LastListing(eps, k) && eps[k].providerEpisodeId == key.1 ==>
        RowFor(r, key).Some? && RowFor(r, key).value.animeId == animeId && RowFor(r, key).value.number == eps[k].number
    else RowFor(r, key).Some? ==>
      RowFor(f, key).Some? && RowFor(f, key).value.animeId == RowFor(r, key).value.animeId
      && RowFor(f, key).value.number == RowFor(r, key).value.number
  }

  lemma {:induction false} HasLastListing(eps: seq<EpisodeInput>, pid: string) returns (k: nat)
    requires Lists(eps, pid)
    ensures LastListing(eps, k) && eps[k].providerEpisodeId == pid
  {
    var n := |eps| - 1;
    if eps[n].providerEpisodeId == pid {
      k := n;
    } else {
      var l :| 0 <= l < |eps| && eps[l].providerEpisodeId == pid;
      assert eps[..n][l].providerEpisodeId == pid;
      k := HasLastListing(eps[..n], pid);
    }
  }

  lemma NotBlockedAccepts(
      t: Tables, u: Tables, f: Tables, r: Tables, provider: string, animeId: string, eps: seq<EpisodeInput>, j: nat)
    requires Together(t, u, f, r, provider, animeId, eps, j)
    requires !NumberTaken(f.episodes, u.episodeIds[(provider, eps[j].providerEpisodeId)], animeId, eps[j].number)
    requires NumberTaken(r.episodes, u.episodeIds[(provider, eps[j].providerEpisodeId)], animeId, eps[j].number)
    ensures Blocked(eps, j)
  {
    var mine := (provider, eps[j].providerEpisodeId);
    var other :| other in r.episodes && other != u.episodeIds[mine]
      && r.episodes[other].animeId == animeId && r.episodes[other].number == eps[j].number;
    if other in r.episodeIds.Values {
      var key: Key :| key in r.episodeIds && r.episodeIds[key] == other;
      assert SameOrLater(f, r, animeId, eps, provider, j, key);
      assert RowFor(r, key) == Some(r.episodes[other]);
      if key.0 == provider && key.1 != "" && Lists(eps, key.1) && !Lists(eps[..j], key.1) {
        var k := HasLastListing(eps, key.1);
        ListedLater(eps, j, k);
        assert BlockedBy(eps, j, k);
      }
    }
  }

  lemma ListedLater(eps: seq<EpisodeInput>, j: nat, k: nat)
    requires j < |eps| && LastListing(eps, k) && !Lists(eps[..j], eps[k].providerEpisodeId)
    requires eps[k].providerEpisodeId != eps[j].providerEpisodeId
    ensures j < k && !Lists(eps[..j + 1], eps[k].providerEpisodeId)
  {
    assert forall l :: 0 <= l < j ==> eps[..j][l] == eps[l];
    assert forall l :: 0 <= l <= j ==> eps[..j + 1][l] == eps[l];
  }

  lemma BlockedRefused(
      t: Tables, u: Tables, f: Tables, r: Tables, provider: string, animeId: string, eps: seq<EpisodeInput>, j: nat)
    requires Together(t, u, f, r, provider, animeId, eps, j) && Blocked(eps, j)
    ensures NumberTaken(r.episodes, u.episodeIds[(provider, eps[j].providerEpisodeId)], animeId, eps[j].number)
  {
    var k: nat :| BlockedBy(eps, j, k);
    var key := (provider, eps[k].providerEpisodeId);
    assert eps[..j + 1][j] == eps[j];
    assert forall l :: 0 <= l < j ==> eps[..j][l] == eps[..j + 1][l];
    assert SameOrLater(f, r, animeId, eps, provider, j, key);
    assert RowFor(r, key).Some?;
    assert r.episodeIds[key] != u.episodeIds[(provider, eps[j].providerEpisodeId)];
  }

  ghost predicate AllMapped(t: Tables, provider: string, eps: seq<EpisodeInput>) {
    forall k :: 0 <= k < |eps| && eps[k].providerEpisodeId != "" ==>
        (provider, eps[k].providerEpisodeId) in t.episodeIds
  }

  lemma SyncMapsAll(t: Tables, provider: string, animeId: string, eps: seq<EpisodeInput>, env: Surroundings, now: int)
    requires Sound(t) && Synced(t, provider, animeId, eps, env, now).Some?
    ensures AllMapped(Synced(t, provider, animeId, eps, env, now).value.0, provider, eps)
  {
    forall k | 0 <= k < |eps| && eps[k].providerEpisodeId != ""
      ensures (provider, eps[k].providerEpisodeId) in Synced(t, provider, animeId, eps, env, now).value.0.episodeIds
    {
      var key := (provider, eps[k].providerEpisodeId);
      SyncWritesListings(t, provider, animeId, eps, env, now, key);
      FoldOfListed(RowFor(t, key), RowFor(t, key), animeId, eps, key.1, now, now);
    }
  }

  lemma {:induction false} SameMapping(
      t: Tables, provider: string, animeId: string, eps: seq<EpisodeInput>, env: Surroundings, now: int)
    requires AllMapped(t, provider, eps) && Synced(t, provider, animeId, eps, env, now).Some?
    ensures Synced(t, provider, animeId, eps, env, now).value.0.episodeIds == t.episodeIds
  {
    if eps != [] {
      assert forall k :: 0 <= k < |eps| - 1 ==> eps[..|eps| - 1][k] == eps[k];
      SameMapping(t, provider, animeId, eps[..|eps| - 1], env, now);
    }
  }

  lemma RowsTogether(
      t: Tables, provider: string, animeId: string, eps: seq<EpisodeInput>, env: Surroundings, now: int,
      env2: Surroundings, now2: int, j: nat, key: Key)
    requires Sound(t) && Synced(t, provider, animeId, eps, env, now).Some? && j <= |eps|
    requires Synced(t, provider, animeId, eps[..j], env, now).Some?
    requires Sound(Synced(t, provider, animeId, eps, env, now).value.0)
    requires Synced(Synced(t, provider, animeId, eps, env, now).value.0, provider, animeId, eps[..j], env2, now2).Some?
    ensures
      var u := Synced(t, provider, animeId, eps, env, now).value.0;
      var f := Synced(t, provider, animeId, eps[..j], env, now).value.0;
      var r := Synced(u, provider, animeId, eps[..j], env2, now2).value.0;
      SameOrLater(f, r, animeId, eps, provider, j, key)
  {
    var u := Synced(t, provider, animeId, eps, env, now).value.0;
    SyncWritesListings(t, provider, animeId, eps, env, now, key);
    SyncWritesListings(t, provider, animeId, eps[..j], env, now, key);
    SyncWritesListings(u, provider, animeId, eps[..j], env2, now2, key);
    if key.0 == provider && key.1 != "" {
      FoldOfListed(RowFor(t, key), RowFor(u, key), animeId, eps[..j], key.1, now, now2);
      FoldOfListed(RowFor(u, key), RowFor(u, key), animeId, eps[..j], key.1, now2, now2);
      FoldOfListed(RowFor(t, key), RowFor(t, key), animeId, eps, key.1, now, now);
      forall k: nat | LastListing(eps, k) && eps[k].providerEpisodeId == key.1
        ensures RowFor(u, key).Some? && Shows(RowFor(u, key).value, animeId, eps[k], now)
      {
        FoldShowsLast(RowFor(t, key), animeId, eps, k, now);
      }
      if Lists(eps[..j], key.1) {
        var l :| 0 <= l < j && eps[..j][l].providerEpisodeId == key.1;
        assert eps[l].providerEpisodeId == key.1;
      }
    }
  }

  lemma UnmappedTogether(
      t: Tables, provider: string, animeId: string, eps: seq<EpisodeInput>, env: Surroundings, now: int,
      env2: Surroundings, now2: int, j: nat, id: string)
    requires Sound(t) && Synced(t, provider, animeId, eps, env, now).Some? && j <= |eps|
    requires Synced(t, provider, animeId, eps[..j], env, now).Some?
    requires Sound(Synced(t, provider, animeId, eps, env, now).value.0)
    requires Synced(Synced(t, provider, animeId, eps, env, now).value.0, provider, animeId, eps[..j], env2, now2).Some?
    requires
      var u := Synced(t, provider, animeId, eps, env, now).value.0;
      var f := Synced(t, provider, animeId, eps[..j], env, now).value.0;
      var r := Synced(u, provider, animeId, eps[..j], env2, now2).value.0;
      MappingKept(f, u) && r.episodeIds == u.episodeIds && id in r.episodes && id !in r.episodeIds.Values
    ensures
      var u := Synced(t, provider, animeId, eps, env, now).value.0;
      var f := Synced(t, provider, animeId, eps[..j], env, now).value.0;
      var r := Synced(u, provider, animeId, eps[..j], env2, now2).value.0;
      id in f.episodes && f.episodes[id] == r.episodes[id]
  {
    var u := Synced(t, provider, animeId, eps, env, now).value.0;
    SyncLeavesOthers(t, provider, animeId, eps, env, now, id);
    SyncLeavesOthers(t, provider, animeId, eps[..j], env, now, id);
    SyncLeavesOthers(u, provider, animeId, eps[..j], env2, now2, id);
  }

  lemma AtListing(
      t: Tables, provider: string, animeId: string, eps: seq<EpisodeInput>, env: Surroundings, now: int,
      env2: Surroundings, now2: int, j: nat)
    requires Sound(t) && Synced(t, provider, animeId, eps, env, now).Some? && j < |eps|
    requires eps[j].providerEpisodeId != ""
    requires Synced(Synced(t, provider, animeId, eps, env, now).value.0, provider, animeId, eps[..j], env2, now2).Some?
    ensures Synced(t, provider, animeId, eps[..j], env, now).Some?
    ensures
      var u := Synced(t, provider, animeId, eps, env, now).value.0;
      var f := Synced(t, provider, animeId, eps[..j], env, now).value.0;
      var r := Synced(u, provider, animeId, eps[..j], env2, now2).value.0;
      Together(t, u, f, r, provider, animeId, eps, j)
  {
    PrefixSynced(t, provider, animeId, eps, env, now, j);
    SyncWritesListings(t, provider, animeId, eps, env, now, ("", ""));
    var u := Synced(t, provider, animeId, eps, env, now).value.0;
    var f := Synced(t, provider, animeId, eps[..j], env, now).value.0;
    var r := Synced(u, provider, animeId, eps[..j], env2, now2).value.0;
    SyncWritesListings(t, provider, animeId, eps[..j], env, now, ("", ""));
    SyncWritesListings(u, provider, animeId, eps[..j], env2, now2, ("", ""));
    SyncMapsAll(t, provider, animeId, eps, env, now);
    assert forall k :: 0 <= k < j ==> eps[..j][k] == eps[k];
    SameMapping(u, provider, animeId, eps[..j], env2, now2);
    forall key: Key ensures SameOrLater(f, r, animeId, eps, provider, j, key) {
      RowsTogether(t, provider, animeId, eps, env, now, env2, now2, j, key);
    }
    forall id | id in r.episodes && id !in r.episodeIds.Values
      ensures id in f.episodes && f.episodes[id] == r.episodes[id]
    {
      UnmappedTogether(t, provider, animeId, eps, env, now, env2, now2, j, id);
    }
  }

  lemma FirstAccepted(
      t: Tables, provider: string, animeId: string, eps: seq<EpisodeInput>, env: Surroundings, now: int, j: nat)
    requires Sound(t) && Synced(t, provider, animeId, eps, env, now).Some? && j < |eps|
    requires eps[j].providerEpisodeId != ""
    ensures Synced(t, provider, animeId, eps[..j], env, now).Some?
    ensures
      var u := Synced(t, provider, animeId, eps, env, now).value.0;
      var f := Synced(t, provider, animeId, eps[..j], env, now).value.0;
      var key := (provider, eps[j].providerEpisodeId);
      key in u.episodeIds && !NumberTaken(f.episodes, u.episodeIds[key], animeId, eps[j].number)
  {
    PrefixSynced(t, provider, animeId, eps, env, now, j + 1);
    assert eps[..j + 1][..j] == eps[..j];
  }

  lemma RepeatAccepts(
      t: Tables, provider: string, animeId: string, eps: seq<EpisodeInput>, env: Surroundings, now: int,
      env2: Surroundings, now2: int, j: nat)
    requires Sound(t) && Synced(t, provider, animeId, eps, env, now).Some? && j < |eps|
    requires eps[j].providerEpisodeId != ""
    requires Synced(Synced(t, provider, animeId, eps, env, now).value.0, provider, animeId, eps[..j], env2, now2).Some?
    ensures
      var u := Synced(t, provider, animeId, eps, env, now).value.0;
      var r := Synced(u, provider, animeId, eps[..j], env2, now2).value.0;
      Accepts(r, (provider, eps[j].providerEpisodeId), animeId, eps[j], env2.newIds(j)) <==> !Blocked(eps, j)
  {
    AtListing(t, provider, animeId, eps, env, now, env2, now2, j);
    FirstAccepted(t, provider, animeId, eps, env, now, j);
    var u := Synced(t, provider, animeId, eps, env, now).value.0;
    var f := Synced(t, provider, animeId, eps[..j], env, now).value.0;
    var r := Synced(u, provider, animeId, eps[..j], env2, now2).value.0;
    if Blocked(eps, j) {
      BlockedRefused(t, u, f, r, provider, animeId, eps, j);
    } else if NumberTaken(r.episodes, u.episodeIds[(provider, eps[j].providerEpisodeId)], animeId, eps[j].number) {
      NotBlockedAccepts(t, u, f, r, provider, animeId, eps, j);
    }
  }

  lemma RepeatStep(
      t: Tables, provider: string, animeId: string, eps: seq<EpisodeInput>, env: Surroundings, now: int,
      env2: Surroundings, now2: int, j: nat, u: Tables)
    requires Sound(t) && Synced(t, provider, animeId, eps, env, now).Some?
    requires u == Synced(t, provider, animeId, eps, env, now).value.0
    requires j < |eps| && !env2.faults(j) && Synced(u, provider, animeId, eps[..j], env2, now2).Some?
    ensures Synced(u, provider, animeId, eps[..j + 1], env2, now2).Some? <==> !Blocked(eps, j)
  {
    SyncStep(u, provider, animeId, eps, env2, now2, j);
    if eps[j].providerEpisodeId != "" {
      RepeatAccepts(t, provider, animeId, eps, env, now, env2, now2, j);
    }
  }

  /** Going on needs having come so far and not being blocked. */
  lemma {:induction false} NeverBlocked(goes: seq<bool>, blocked: seq<bool>, n: nat)
    requires n < |goes| && n <= |blocked| && goes[0]
    requires forall j :: 0 <= j < n ==> (goes[j + 1] <==> goes[j] && !blocked[j])
    ensures goes[n] <==> forall j :: 0 <= j < n ==> !blocked[j]
  {
    if n > 0 {
      NeverBlocked(goes, blocked, n - 1);
    }
  }

  lemma RepeatGoesOn(
      t: Tables, provider: string, animeId: string, eps: seq<EpisodeInput>, env: Surroundings, now: int,
      env2: Surroundings, now2: int, j: nat, u: Tables)
    requires Sound(t) && Synced(t, provider, animeId, eps, env, now).Some?
    requires u == Synced(t, provider, animeId, eps, env, now).value.0
    requires j < |eps| && !env2.faults(j)
    ensures Synced(u, provider, animeId, eps[..j + 1], env2, now2).Some?
      <==> Synced(u, provider, animeId, eps[..j], env2, now2).Some? && !Blocked(eps, j)
  {
    if Synced(u, provider, animeId, eps[..j], env2, now2).Some? {
      RepeatStep(t, provider, animeId, eps, env, now, env2, now2, j, u);
    } else {
      assert eps[..j + 1][..j] == eps[..j];
      SyncStaysFailed(u, provider, animeId, eps[..j + 1], env2, now2, j);
    }
  }

  ghost predicate NoneBlocked(eps: seq<EpisodeInput>) {
    forall j: nat :: j < |eps| ==> !Blocked(eps, j)
  }

  /** How far a sync of the list goes. */
  ghost function Goes(
      u: Tables, provider: string, animeId: string, eps: seq<EpisodeInput>, env: Surroundings, now: int)
    : (goes: seq<bool>)
    ensures |goes| == |eps| + 1
    ensures forall k :: 0 <= k <= |eps| ==> goes[k] == Synced(u, provider, animeId, eps[..k], env, now).Some?
  {
    seq(|eps| + 1, k requires 0 <= k <= |eps| => Synced(u, provider, animeId, eps[..k], env, now).Some?)
  }

  ghost function BlockedAt(eps: seq<EpisodeInput>): (blocked: seq<bool>)
    ensures |blocked| == |eps| && forall k :: 0 <= k < |eps| ==> blocked[k] == Blocked(eps, k)
  {
    seq(|eps|, k requires 0 <= k < |eps| => Blocked(eps, k))
  }

  lemma GoesToTheEnd(
      u: Tables, provider: string, animeId: string, eps: seq<EpisodeInput>, env: Surroundings, now: int)
    ensures Goes(u, provider, animeId, eps, env, now)[0]
    ensures Goes(u, provider, animeId, eps, env, now)[|eps|] == Synced(u, provider, animeId, eps, env, now).Some?
  {
    assert eps[..|eps|] == eps;
  }

  /** Exactly when the same list can be synced again: no listing takes a number that an episode listed only
      later on has ended up with. */
  lemma RepeatSucceedsIff(
      t: Tables, provider: string, animeId: string, eps: seq<EpisodeInput>, env: Surroundings, now: int,
      env2: Surroundings, now2: int)
    requires Sound(t) && Synced(t, provider, animeId, eps, env, now).Some?
    requires forall k: nat :: !env2.faults(k)
    ensures Synced(Synced(t, provider, animeId, eps, env, now).value.0, provider, animeId, eps, env2, now2).Some?
        <==> NoneBlocked(eps)
  {
    var u := Synced(t, provider, animeId, eps, env, now).value.0;
    var goes, blocked := Goes(u, provider, animeId, eps, env2, now2), BlockedAt(eps);
    forall j | 0 <= j < |eps| ensures goes[j + 1] <==> goes[j] && !blocked[j] {
      RepeatGoesOn(t, provider, animeId, eps, env, now, env2, now2, j, u);
    }
    GoesToTheEnd(u, provider, animeId, eps, env2, now2);
    NeverBlocked(goes, blocked, |eps|);
  }

  /** It can fail: A listed with number 1, then with 2, then B with 1. */
  lemma RepeatCanFail(env: Surroundings)
    requires env.newIds(0) != env.newIds(2) && forall k: nat :: !env.faults(k)
    ensures
      var eps := [EpisodeInput("A", 1, "", "", false, false),
                  EpisodeInput("A", 2, "", "", false, false),
                  EpisodeInput("B", 1, "", "", false, false)];
      var t := Tables(map[], map[], map[], map[], []);
      var first := Synced(t, "hianime", "anime", eps, env, 0);
      Sound(t) && first.Some? && Synced(first.value.0, "hianime", "anime", eps, env, 1).None?
  {
    var a1 := EpisodeInput("A", 1, "", "", false, false);
    var a2 := EpisodeInput("A", 2, "", "", false, false);
    var b1 := EpisodeInput("B", 1, "", "", false, false);
    var eps, t := [a1, a2, b1], Tables(map[], map[], map[], map[], []);
    assert eps[..2] == [a1, a2] && eps[..2][..1] == [a1] && eps[..2][..1][..0] == [];
    assert Synced(t, "hianime", "anime", eps[..2][..1][..0], env, 0) == Some((t, []));
    var t1 := Synced(t, "hianime", "anime", eps[..2][..1], env, 0).value.0;
    assert t1.episodes[env.newIds(0)].number == 1;
    var t2 := Synced(t, "hianime", "anime", eps[..2], env, 0).value.0;
    assert t2.episodes.Keys == {env.newIds(0)} && t2.episodes[env.newIds(0)].number == 2;
    assert Synced(t, "hianime", "anime", eps, env, 0).Some?;
    assert LastListing(eps, 2) && !Lists(eps[..1], "B") && "A" != "B";
    assert BlockedBy(eps, 0, 2) && Blocked(eps, 0);
    RepeatSucceedsIff(t, "hianime", "anime", eps, env, 0, env, 1);
  }

  ghost predicate Distinct(eps: seq<EpisodeInput>) {
    forall k, l :: 0 <= k < l < |eps| && eps[k].providerEpisodeId == eps[l].providerEpisodeId ==>
        eps[k].providerEpisodeId == ""
  }

  lemma DistinctNeverBlocks(
      t: Tables, provider: string, animeId: string, eps: seq<EpisodeInput>, env: Surroundings, now: int, j: nat)
    requires Sound(t) && Synced(t, provider, animeId, eps, env, now).Some? && Distinct(eps)
    ensures !Blocked(eps, j)
  {
    if Blocked(eps, j) {
      var k: nat :| BlockedBy(eps, j, k);
      var u := Synced(t, provider, animeId, eps, env, now).value.0;
      SyncWritesListings(t, provider, animeId, eps, env, now, ("", ""));
      LastListedWins(t, provider, animeId, eps, env, now, j);
      LastListedWins(t, provider, animeId, eps, env, now, k);
    }
  }

  lemma {:induction false} FoldAgain(row: Episode, animeId: string, eps: seq<EpisodeInput>, k: nat, now: int, now2: int)
    requires LastListing(eps, k) && Distinct(eps) && eps[k].providerEpisodeId != "" && Shows(row, animeId, eps[k], now)
    ensures Folded(Some(row), animeId, eps, eps[k].providerEpisodeId, now2) == Some(row.(updatedAt := now2))
  {
    var n := |eps| - 1;
    if k < n {
      assert eps[..n][k] == eps[k];
      FoldAgain(row, animeId, eps[..n], k, now, now2);
    } else {
      FoldOfListed(Some(row), Some(row), animeId, eps[..n], eps[k].providerEpisodeId, now2, now2);
      assert !Lists(eps[..n], eps[k].providerEpisodeId);
    }
  }

  /** What the second of two equal syncs makes of a row. */
  ghost predicate OnlyTimeMoved(before: Option<Episode>, after: Option<Episode>, listed: bool, now: int) {
    if listed then before.Some? && after == Some(before.value.(updatedAt := now)) else after == before
  }

  lemma RepeatedRow(
      t: Tables, provider: string, animeId: string, eps: seq<EpisodeInput>, env: Surroundings, now: int,
      env2: Surroundings, now2: int, key: Key)
    requires Sound(t) && Synced(t, provider, animeId, eps, env, now).Some? && Distinct(eps)
    requires Synced(Synced(t, provider, animeId, eps, env, now).value.0, provider, animeId, eps, env2, now2).Some?
    ensures
      var u := Synced(t, provider, animeId, eps, env, now).value.0;
      var v := Synced(u, provider, animeId, eps, env2, now2).value.0;
      OnlyTimeMoved(RowFor(u, key), RowFor(v, key), key.0 == provider && key.1 != "" && Lists(eps, key.1), now2)
  {
    var u := Synced(t, provider, animeId, eps, env, now).value.0;
    SyncWritesListings(t, provider, animeId, eps, env, now, key);
    SyncWritesListings(u, provider, animeId, eps, env2, now2, key);
    if key.0 == provider && key.1 != "" {
      if Lists(eps, key.1) {
        var k := HasLastListing(eps, key.1);
        LastListedWins(t, provider, animeId, eps, env, now, k);
        FoldAgain(RowFor(u, key).value, animeId, eps, k, now, now2);
      } else {
        FoldOfListed(RowFor(u, key), RowFor(u, key), animeId, eps, key.1, now2, now2);
      }
    }
  }

  /** Syncing a list of distinct provider ids again succeeds, returns the same ids, keeps every mapping and
      changes no number, title, url or filler flag, only the times. */
  lemma RepeatChangesOnlyTimes(
      t: Tables, provider: string, animeId: string, eps: seq<EpisodeInput>, env: Surroundings, now: int,
      env2: Surroundings, now2: int)
    requires Sound(t) && Synced(t, provider, animeId, eps, env, now).Some? && Distinct(eps)
    requires forall k: nat :: !env2.faults(k)
    ensures Synced(Synced(t, provider, animeId, eps, env, now).value.0, provider, animeId, eps, env2, now2).Some?
    ensures
      var (u, ids) := Synced(t, provider, animeId, eps, env, now).value;
      var (v, ids2) := Synced(u, provider, animeId, eps, env2, now2).value;
      && ids2 == ids && v.episodeIds == u.episodeIds && v.episodes.Keys == u.episodes.Keys
      && forall id :: id in u.episodes ==> v.episodes[id] == u.episodes[id].(updatedAt := v.episodes[id].updatedAt)
  {
    forall j: nat ensures !Blocked(eps, j) {
      DistinctNeverBlocks(t, provider, animeId, eps, env, now, j);
    }
    RepeatSucceedsIff(t, provider, animeId, eps, env, now, env2, now2);
    var (u, ids) := Synced(t, provider, animeId, eps, env, now).value;
    var (v, ids2) := Synced(u, provider, animeId, eps, env2, now2).value;
    SyncWritesListings(t, provider, animeId, eps, env, now, ("", ""));
    SyncWritesListings(u, provider, animeId, eps, env2, now2, ("", ""));
    SyncMapsAll(t, provider, animeId, eps, env, now);
    SameMapping(u, provider, animeId, eps, env2, now2);
    SyncReturnsIds(t, provider, animeId, eps, env, now);
    SyncReturnsIds(u, provider, animeId, eps, env2, now2);
    forall id ensures id in v.episodes <==> id in u.episodes
      ensures id in u.episodes ==> v.episodes[id] == u.episodes[id].(updatedAt := v.episodes[id].updatedAt)
    {
      SyncLeavesOthers(u, provider, animeId, eps, env2, now2, id);
      if id in u.episodeIds.Values {
        var key: Key :| key in u.episodeIds && u.episodeIds[key] == id;
        RepeatedRow(t, provider, animeId, eps, env, now, env2, now2, key);
      }
    }
  }

  // ---- calls and runs ----

  function JikanRow(a: JikanAnimeInput): Anime {
    Anime(a.title, a.titleEnglish, a.titleJapanese, a.image, a.synopsis, a.genres, a.score, a.status, a.kind,
          a.totalEpisodes)
  }

  datatype JikanAnimeInput = JikanAnimeInput(
    malId: int, title: string, titleEnglish: string, titleJapanese: string, image: string, synopsis: string,
    genres: seq<string>, kind: string, status: string, totalEpisodes: int, score: real)

  function MalKey(malId: int): Key {
    ("mal", FormatInt(malId))
  }

  /** UpsertJikanAnime up to its commit; None when a statement fails. */
  function JikanUpserted(t: Tables, a: JikanAnimeInput, newId: string): Option<(Tables, string)> {
    var key := MalKey(a.malId);
    if key in t.animeIds then
      var id := t.animeIds[key];
      Some((t.(anime := t.anime[id := JikanRow(a)], outbox := t.outbox + [id]), id))
    else if newId in t.anime then None
    else
      Some((t.(anime := t.anime[newId := JikanRow(a)], animeIds := t.animeIds[key := newId],
               outbox := t.outbox + [newId]),
            newId))
  }

  /** UpsertHiAnimeEpisodes up to its commit, the anime id already parsed. */
  function HiAnimeSynced(
      t: Tables, text: string, id: string, slug: string, eps: seq<EpisodeInput>, env: Surroundings, now: int)
    : Option<(Tables, seq<string>)>
  {
    if id !in t.anime then None
    else
      var attached := t.(animeIds := t.animeIds[("hianime", slug) := id]);
      var synced := Synced(attached, "hianime", id, eps, env, now);
      if synced.None? then None
      else Some((synced.value.0.(outbox := synced.value.0.outbox + [text]), synced.value.1))
  }

  /** A call with what it meets: `fault` stands for an error of any statement outside the episode loop. */
  datatype Call =
    | UpsertJikan(anime: JikanAnimeInput, newId: string, fault: bool, commit: CommitAnswer)
    | SyncEpisodes(text: string, id: Option<string>, slug: string, eps: seq<EpisodeInput>, env: Surroundings,
                   now: int, fault: bool, commit: CommitAnswer)

  ghost function Attempt(t: Tables, call: Call): Option<Tables> {
    match call
    case UpsertJikan(a, newId, fault, commit) =>
      if fault || JikanUpserted(t, a, newId).None? then None else Some(JikanUpserted(t, a, newId).value.0)
    case SyncEpisodes(text, id, slug, eps, env, now, fault, commit) =>
      if fault || id.None? || HiAnimeSynced(t, text, id.value, slug, eps, env, now).None? then None
      else Some(HiAnimeSynced(t, text, id.value, slug, eps, env, now).value.0)
  }

  /** All or nothing: the tables after a call. */
  ghost function AfterCall(t: Tables, call: Call): Tables {
    if Attempt(t, call).None? || call.commit.Fails? then t else Attempt(t, call).value
  }

  const NO_TABLES := Tables(map[], map[], map[], map[], [])

  ghost function Run(calls: seq<Call>): Tables {
    if calls == [] then NO_TABLES else AfterCall(Run(calls[..|calls| - 1]), calls[|calls| - 1])
  }

  lemma CallKeeps(t: Tables, call: Call)
    requires Sound(t)
    ensures Sound(AfterCall(t, call)) && MappingKept(t, AfterCall(t, call))
  {
    if call.SyncEpisodes? && AfterCall(t, call) != t {
      var attached := t.(animeIds := t.animeIds[("hianime", call.slug) := call.id.value]);
      SyncWritesListings(attached, "hianime", call.id.value, call.eps, call.env, call.now, ("", ""));
      SyncLeavesOthers(attached, "hianime", call.id.value, call.eps, call.env, call.now, "");
    }
  }

  lemma {:induction false} RunIsSound(calls: seq<Call>)
    ensures Sound(Run(calls))
  {
    if calls != [] {
      RunIsSound(calls[..|calls| - 1]);
      CallKeeps(Run(calls[..|calls| - 1]), calls[|calls| - 1]);
    }
  }

  lemma {:induction false} RunKeepsMapping(calls: seq<Call>, n: nat)
    requires n <= |calls|
    ensures MappingKept(Run(calls[..n]), Run(calls))
  {
    if n == |calls| {
      assert calls[..n] == calls;
    } else {
      var before := calls[..|calls| - 1];
      assert before[..n] == calls[..n];
      RunKeepsMapping(before, n);
      RunIsSound(before);
      CallKeeps(Run(before), calls[|calls| - 1]);
      KeptOn(Run(calls[..n]), Run(before), Run(calls));
    }
  }

  /** In any run of calls a provider episode id, once mapped, keeps its internal id, and different provider
      ids never share one. */
  lemma MappingIsStable(calls: seq<Call>, n: nat)
    requires n <= |calls|
    ensures Sound(Run(calls)) && MappingKept(Run(calls[..n]), Run(calls))
    ensures forall k, l :: k in Run(calls).episodeIds && l in Run(calls).episodeIds && k != l ==>
        Run(calls).episodeIds[k] != Run(calls).episodeIds[l]
  {
    RunIsSound(calls);
    RunKeepsMapping(calls, n);
  }

  /** In any run of calls a MAL id, once mapped, keeps its anime. */
  lemma {:induction false} MalMappingIsStable(calls: seq<Call>, n: nat, malId: int)
    requires n <= |calls| && MalKey(malId) in Run(calls[..n]).animeIds
    ensures MalKey(malId) in Run(calls).animeIds
    ensures Run(calls).animeIds[MalKey(malId)] == Run(calls[..n]).animeIds[MalKey(malId)]
  {
    if n == |calls| {
      assert calls[..n] == calls;
    } else {
      var before, call := calls[..|calls| - 1], calls[|calls| - 1];
      assert before[..n] == calls[..n];
      MalMappingIsStable(before, n, malId);
      MappingIsStable(before, 0);
      CallKeepsMal(Run(before), call, malId);
    }
  }

  lemma CallKeepsMal(t: Tables, call: Call, malId: int)
    requires Sound(t) && MalKey(malId) in t.animeIds
    ensures MalKey(malId) in AfterCall(t, call).animeIds
    ensures AfterCall(t, call).animeIds[MalKey(malId)] == t.animeIds[MalKey(malId)]
  {
    if call.SyncEpisodes? && AfterCall(t, call) != t {
      var attached := t.(animeIds := t.animeIds[("hianime", call.slug) := call.id.value]);
      assert MalKey(malId).0 == "mal" && "mal"[0] != "hianime"[0];
      SyncLeavesOthers(attached, "hianime", call.id.value, call.eps, call.env, call.now, "");
    }
  }

  /** Different MAL ids lead to different animes. */
  ghost predicate MalIdsApart(t: Tables) {
    forall m, n :: ("mal", m) in t.animeIds && ("mal", n) in t.animeIds && m != n ==>
        t.animeIds[("mal", m)] != t.animeIds[("mal", n)]
  }

  lemma CallKeepsApart(t: Tables, call: Call)
    requires Sound(t) && MalIdsApart(t)
    ensures MalIdsApart(AfterCall(t, call))
  {
    if call.SyncEpisodes? && AfterCall(t, call) != t {
      var attached := t.(animeIds := t.animeIds[("hianime", call.slug) := call.id.value]);
      assert "mal"[0] != "hianime"[0];
      SyncLeavesOthers(attached, "hianime", call.id.value, call.eps, call.env, call.now, "");
    }
  }

  // ---- as steps of the pipeline ----

  /** The pipeline's view of the tables. */
  ghost predicate SeenBy(t: Tables, s: State) {
    s.catalog == t.anime && Animes(s.outbox) == t.outbox
  }

  /** A call that commits is one upsert step of the pipeline: the row and its event appear together. */
  lemma CallIsUpsertStep(t: Tables, s: State, call: Call)
    requires Sound(t) && SeenBy(t, s) && Attempt(t, call).Some?
    requires call.SyncEpisodes? ==> call.id == Some(call.text)
    ensures
      var step := match call
        case UpsertJikan(a, newId, _, _) => CommitAnime(JikanUpserted(t, a, newId).value.1, JikanRow(a))
        case SyncEpisodes(text, _, _, _, _, _, _, _) => CommitEpisodes(text);
      Can(s, step) && SeenBy(Attempt(t, call).value, Do(s, step))
  {
    match call
    case UpsertJikan(a, newId, _, _) =>
      StepLogs(s, CommitAnime(JikanUpserted(t, a, newId).value.1, JikanRow(a)));
    case SyncEpisodes(text, id, slug, eps, env, now, _, _) =>
      StepLogs(s, CommitEpisodes(text));
      SyncLeavesOthers(t.(animeIds := t.animeIds[("hianime", slug) := text]), "hianime", text, eps, env, now, "");
  }

  // ---- the store ----

  lemma {:induction false} SyncStaysFailed(
      t: Tables, provider: string, animeId: string, eps: seq<EpisodeInput>, env: Surroundings, now: int, j: nat)
    requires j <= |eps| && Synced(t, provider, animeId, eps[..j], env, now).None?
    ensures Synced(t, provider, animeId, eps, env, now).None?
  {
    if j == |eps| {
      assert eps[..j] == eps;
    } else {
      assert eps[..|eps| - 1][..j] == eps[..j];
      SyncStaysFailed(t, provider, animeId, eps[..|eps| - 1], env, now, j);
    }
  }

  /** writeEpisode on the transaction's view of the episodes; None when the statement fails. */
  method WriteEpisode(
      episodes: map<string, Episode>, epId: string, animeId: string, ep: EpisodeInput, now: int, insert: bool,
      fault: bool)
    returns (r: Option<map<string, Episode>>)
    requires insert || epId in episodes
    ensures r ==
      if fault || NumberTaken(episodes, epId, animeId, ep.number) || (insert && epId in episodes) then None
      else Some(episodes[epId := Written(if insert then None else Some(episodes[epId]), animeId, ep, now)])
  {
    if fault || NumberTaken(episodes, epId, animeId, ep.number) || (insert && epId in episodes) {
      return None;
    }
    var row: Episode;
    if insert && ep.hasIsFiller {
      row := Episode(animeId, ep.number, ep.title, "", ep.isFiller, now);
    } else if insert {
      row := Episode(animeId, ep.number, ep.title, ep.url, false, now);
    } else if ep.hasIsFiller {
      row := episodes[epId].(animeId := animeId, number := ep.number, title := ep.title,
                             isFiller := ep.isFiller, updatedAt := now);
    } else {
      row := episodes[epId].(animeId := animeId, number := ep.number, title := ep.title,
                             url := ep.url, updatedAt := now);
    }
    return Some(episodes[epId := row]);
  }

  /** The statements for one listed episode, on the transaction's view of the tables. */
  method UpsertEpisode(tx: Tables, key: Key, animeId: string, ep: EpisodeInput, newId: string, now: int, fault: bool)
    returns (r: Option<Tables>, epId: string)
    requires Sound(tx)
    ensures r ==
        if fault || !Accepts(tx, key, animeId, ep, newId) then None
        else Some(WithEpisode(tx, key, animeId, ep, newId, now))
    ensures epId == IdFor(tx, key, newId)
  {
    var insert := key !in tx.episodeIds;
    epId := if insert then newId else tx.episodeIds[key];
    var written := WriteEpisode(tx.episodes, epId, animeId, ep, now, insert, fault);
    if written.None? {
      return None, epId;
    }
    if insert {
      r := Some(tx.(episodes := written.value, episodeIds := tx.episodeIds[key := epId]));
    } else {
      assert tx.episodeIds[key := epId] == tx.episodeIds;
      r := Some(tx.(episodes := written.value));
    }
  }

  /** upsertEpisodes on the transaction's view of the tables. */
  method UpsertEpisodes(
      t: Tables, provider: string, animeId: string, eps: seq<EpisodeInput>, env: Surroundings, now: int)
    returns (r: Option<(Tables, seq<string>)>)
    requires Sound(t)
    ensures r == Synced(t, provider, animeId, eps, env, now)
  {
    var tx, ids := t, [];
    var i := 0;
    while i < |eps|
      invariant 0 <= i <= |eps| && Sound(tx)
      invariant Synced(t, provider, animeId, eps[..i], env, now) == Some((tx, ids))
    {
      var ep := eps[i];
      SyncStep(t, provider, animeId, eps, env, now, i);
      if ep.providerEpisodeId != "" {
        var key := (provider, ep.providerEpisodeId);
        var upserted, epId := UpsertEpisode(tx, key, animeId, ep, env.newIds(i), now, env.faults(i));
        if upserted.None? {
          SyncStaysFailed(t, provider, animeId, eps, env, now, i + 1);
          return None;
        }
        EpisodeKeeps(tx, (provider, ep.providerEpisodeId), animeId, ep, env.newIds(i), now);
        tx, ids := upserted.value, ids + [epId];
      }
      i := i + 1;
    }
    assert eps[..i] == eps;
    return Some((tx, ids));
  }

  /** A sync that went through, in the fields of the tables. */
  lemma SyncInFields(
      t: Tables, u: Tables, ids: seq<string>, text: string, id: string, slug: string, eps: seq<EpisodeInput>,
      env: Surroundings, now: int)
    requires Sound(t) && HiAnimeSynced(t, text, id, slug, eps, env, now) == Some((u, ids))
    ensures u.anime == t.anime && u.animeIds == t.animeIds[("hianime", slug) := id] && u.outbox == t.outbox + [text]
    ensures forall key :: key in t.episodeIds ==> key in u.episodeIds && u.episodeIds[key] == t.episodeIds[key]
    ensures forall k ::
      && 0 <= k < |eps| && eps[k].providerEpisodeId != ""
      && (forall l :: k < l < |eps| ==> eps[l].providerEpisodeId != eps[k].providerEpisodeId) ==>
        var key, ep := ("hianime", eps[k].providerEpisodeId), eps[k];
        && key in u.episodeIds && u.episodeIds[key] in u.episodes && u.episodeIds[key] in ids
        && var row := u.episodes[u.episodeIds[key]];
        && row.animeId == id && row.number == ep.number && row.title == ep.title && row.updatedAt == now
        && (if ep.hasIsFiller then row.isFiller == ep.isFiller else row.url == ep.url)
  {
    var attached := t.(animeIds := t.animeIds[("hianime", slug) := id]);
    SyncWritesListings(attached, "hianime", id, eps, env, now, ("", ""));
    SyncLeavesOthers(attached, "hianime", id, eps, env, now, "");
    SyncReturnsIds(attached, "hianime", id, eps, env, now);
    forall k |
      && 0 <= k < |eps| && eps[k].providerEpisodeId != ""
      && (forall l :: k < l < |eps| ==> eps[l].providerEpisodeId != eps[k].providerEpisodeId)
      ensures
        var key, ep := ("hianime", eps[k].providerEpisodeId), eps[k];
        && key in u.episodeIds && u.episodeIds[key] in u.episodes && u.episodeIds[key] in ids
        && var row := u.episodes[u.episodeIds[key]];
        && row.animeId == id && row.number == ep.number && row.title == ep.title && row.updatedAt == now
        && (if ep.hasIsFiller then row.isFiller == ep.isFiller else row.url == ep.url)
    {
      LastListedWins(attached, "hianime", id, eps, env, now, k);
      ListedIsNonEmpty(eps, k);
    }
  }

  lemma {:induction false} ListedIsNonEmpty(eps: seq<EpisodeInput>, k: nat)
    requires k < |eps| && eps[k].providerEpisodeId != ""
    ensures eps[k].providerEpisodeId in NonEmpty(eps)
  {
    if k < |eps| - 1 {
      ListedIsNonEmpty(eps[..|eps| - 1], k);
    }
  }

  datatype Answer = Rejected | AnimeId(id: string) | EpisodeIds(ids: seq<string>)

  class CatalogStore {
    var tables: Tables
    ghost var calls: seq<Call>
    ghost var answers: seq<Answer>

    /** The tables are those of the calls so far, and every anime id answered for a MAL id is recorded. */
    ghost predicate Valid()
      reads this
    {
      && tables == Run(calls) && |answers| == |calls| && Sound(tables) && MalIdsApart(tables)
      && forall i :: 0 <= i < |calls| && answers[i].AnimeId? ==>
          && calls[i].UpsertJikan? && MalKey(calls[i].anime.malId) in tables.animeIds
          && tables.animeIds[MalKey(calls[i].anime.malId)] == answers[i].id
    }

    constructor ()
      ensures tables == Tables(map[], map[], map[], map[], []) && calls == [] && answers == [] && Valid()
    {
      tables, calls, answers := NO_TABLES, [], [];
    }

    /** Two answered calls got the same anime exactly if they had the same MAL id. */
    lemma OneAnimePerMalId(i: nat, j: nat)
      requires Valid() && i < |calls| && j < |calls| && answers[i].AnimeId? && answers[j].AnimeId?
      ensures calls[i].UpsertJikan? && calls[j].UpsertJikan?
      ensures answers[i].id == answers[j].id <==> calls[i].anime.malId == calls[j].anime.malId
    {
      FormatIntInjective(calls[i].anime.malId, calls[j].anime.malId);
    }

    ghost method Log(call: Call, answer: Answer)
      requires |answers| == |calls| && Sound(Run(calls)) && MalIdsApart(Run(calls))
      requires tables == AfterCall(Run(calls), call)
      requires forall i :: 0 <= i < |calls| && answers[i].AnimeId? ==>
          && calls[i].UpsertJikan? && MalKey(calls[i].anime.malId) in Run(calls).animeIds
          && Run(calls).animeIds[MalKey(calls[i].anime.malId)] == answers[i].id
      requires answer.AnimeId? ==>
          && call.UpsertJikan? && MalKey(call.anime.malId) in tables.animeIds
          && tables.animeIds[MalKey(call.anime.malId)] == answer.id
      modifies this`calls, this`answers
      ensures Valid() && calls == old(calls) + [call] && answers == old(answers) + [answer]
    {
      CallKeeps(Run(calls), call);
      CallKeepsApart(Run(calls), call);
      forall i | 0 <= i < |calls| && answers[i].AnimeId?
        ensures MalKey(calls[i].anime.malId) in tables.animeIds
        ensures tables.animeIds[MalKey(calls[i].anime.malId)] == answers[i].id
      {
        CallKeepsMal(Run(calls), call, calls[i].anime.malId);
      }
      assert (calls + [call])[..|calls|] == calls;
      calls, answers := calls + [call], answers + [answer];
    }

    /** UpsertJikanAnime: one transaction, dropped as a whole when anything in it fails. */
    method UpsertJikanAnime(a: JikanAnimeInput, newId: string, fault: bool, commit: CommitAnswer)
      returns (r: Option<string>)
      requires Valid()
      modifies this
      ensures Valid() && calls == old(calls) + [UpsertJikan(a, newId, fault, commit)]
      ensures answers == old(answers) + [if r.Some? then AnimeId(r.value) else Rejected]
      ensures
        var key := ("mal", FormatInt(a.malId));
        var known := key in old(tables).animeIds;
        var id := if known then old(tables).animeIds[key] else newId;
        if fault || commit.Fails? || (!known && newId in old(tables).anime) then r == None && tables == old(tables)
        else
          && r == (if commit.Commits? then Some(id) else None)
          && tables.anime == old(tables).anime[
              id := Anime(a.title, a.titleEnglish, a.titleJapanese, a.image, a.synopsis, a.genres, a.score, a.status,
                          a.kind, a.totalEpisodes)]
          && tables.animeIds == old(tables).animeIds[key := id] && tables.outbox == old(tables).outbox + [id]
          && tables.episodes == old(tables).episodes && tables.episodeIds == old(tables).episodeIds
      ensures forall i :: 0 <= i < |old(calls)| && old(answers)[i].AnimeId? && r.Some? ==>
          && old(calls)[i].UpsertJikan?
          && (r.value == old(answers)[i].id <==> a.malId == old(calls)[i].anime.malId)
    {
      r := RunJikan(a, newId, fault, commit);
      var key := MalKey(a.malId);
      assert key in old(tables).animeIds ==>
          old(tables).animeIds[key := old(tables).animeIds[key]] == old(tables).animeIds;
      Log(UpsertJikan(a, newId, fault, commit), if r.Some? then AnimeId(r.value) else Rejected);
      forall i | 0 <= i < |old(calls)| && old(answers)[i].AnimeId? && r.Some?
        ensures old(calls)[i].UpsertJikan?
        ensures r.value == old(answers)[i].id <==> a.malId == old(calls)[i].anime.malId
      {
        assert calls[i] == old(calls)[i] && answers[i] == old(answers)[i];
        OneAnimePerMalId(i, |calls| - 1);
      }
    }

    method RunJikan(a: JikanAnimeInput, newId: string, fault: bool, commit: CommitAnswer)
      returns (r: Option<string>)
      modifies this`tables
      ensures tables == AfterCall(old(tables), UpsertJikan(a, newId, fault, commit))
      ensures r ==
        if fault || JikanUpserted(old(tables), a, newId).None? || !commit.Commits? then None
        else Some(JikanUpserted(old(tables), a, newId).value.1)
    {
      if fault {
        return None;
      }
      var key := MalKey(a.malId);
      var tx := tables;
      var animeId;
      if key !in tx.animeIds {
        animeId := newId;
        if animeId in tx.anime {
          return None;
        }
        tx := tx.(anime := tx.anime[animeId := JikanRow(a)]);
        tx := tx.(animeIds := tx.animeIds[key := animeId]);
      } else {
        animeId := tx.animeIds[key];
        tx := tx.(anime := tx.anime[animeId := JikanRow(a)]);
      }
      tx := tx.(outbox := tx.outbox + [animeId]);
      if commit.Fails? {
        return None;
      }
      tables := tx;
      return if commit.Commits? then Some(animeId) else None;
    }

    /** UpsertHiAnimeEpisodes; `parse` is uuid.Parse. */
    method UpsertHiAnimeEpisodes(
        animeId: string, slug: string, eps: seq<EpisodeInput>, parse: string -> Option<string>, env: Surroundings,
        now: int, fault: bool, commit: CommitAnswer)
      returns (r: Option<seq<string>>)
      requires Valid()
      modifies this
      ensures
        var call := SyncEpisodes(animeId, parse(TrimSpace(animeId)), slug, eps, env, now, fault, commit);
        && Valid() && calls == old(calls) + [call]
        && answers == old(answers) + [if r.Some? then EpisodeIds(r.value) else Rejected]
        && tables == AfterCall(old(tables), call)
        && r ==
           if Attempt(old(tables), call).None? || !commit.Commits? then None
           else Some(HiAnimeSynced(old(tables), animeId, call.id.value, slug, eps, env, now).value.1)
      ensures r.None? && !commit.CommitsUnseen? ==> tables == old(tables)
      ensures r.Some? ==>
        var id := parse(TrimSpace(animeId));
        && commit.Commits? && !fault && id.Some? && id.value in old(tables).anime
      ensures r.Some? || tables != old(tables) ==>
        var id := parse(TrimSpace(animeId));
        && id.Some? && tables.anime == old(tables).anime && tables.outbox == old(tables).outbox + [animeId]
        && tables.animeIds == old(tables).animeIds[("hianime", slug) := id.value]
        && (forall key :: key in old(tables).episodeIds ==>
            key in tables.episodeIds && tables.episodeIds[key] == old(tables).episodeIds[key])
        && forall k ::
          && 0 <= k < |eps| && eps[k].providerEpisodeId != ""
          && (forall l :: k < l < |eps| ==> eps[l].providerEpisodeId != eps[k].providerEpisodeId) ==>
            var key, ep := ("hianime", eps[k].providerEpisodeId), eps[k];
            && key in tables.episodeIds && tables.episodeIds[key] in tables.episodes
            && (r.Some? ==> tables.episodeIds[key] in r.value)
            && var row := tables.episodes[tables.episodeIds[key]];
            && row.animeId == id.value && row.number == ep.number && row.title == ep.title && row.updatedAt == now
            && (if ep.hasIsFiller then row.isFiller == ep.isFiller else row.url == ep.url)
      ensures
        var id := parse(TrimSpace(animeId));
        && id.Some? && id.value in old(tables).anime && !fault && commit.Commits?
        && NumbersDiffer(eps) && NumbersFree(old(tables), "hianime", id.value, eps)
        && (forall k: nat :: k < |eps| ==> !env.faults(k) && env.newIds(k) !in old(tables).episodes)
        && (forall k: nat, l: nat :: k < l < |eps| ==> env.newIds(k) != env.newIds(l))
        ==> r.Some?
    {
      ghost var t, id := tables, parse(TrimSpace(animeId));
      ghost var call := SyncEpisodes(animeId, id, slug, eps, env, now, fault, commit);
      r := RunHiAnime(animeId, slug, eps, parse, env, now, fault, commit);
      Log(call, if r.Some? then EpisodeIds(r.value) else Rejected);
      if Attempt(t, call).Some? && (r.Some? || tables != t) {
        SyncInFields(t, tables, HiAnimeSynced(t, animeId, id.value, slug, eps, env, now).value.1, animeId, id.value,
                     slug, eps, env, now);
      }
      if && id.Some? && id.value in t.anime && NumbersDiffer(eps) && NumbersFree(t, "hianime", id.value, eps)
         && (forall k: nat :: k < |eps| ==> !env.faults(k) && env.newIds(k) !in t.episodes)
         && (forall k: nat, l: nat :: k < l < |eps| ==> env.newIds(k) != env.newIds(l))
      {
        var attached := t.(animeIds := t.animeIds[("hianime", slug) := id.value]);
        assert NumbersFree(attached, "hianime", id.value, eps);
        SyncSucceeds(attached, "hianime", id.value, eps, env, now);
      }
    }

    method RunHiAnime(
        animeId: string, slug: string, eps: seq<EpisodeInput>, parse: string -> Option<string>, env: Surroundings,
        now: int, fault: bool, commit: CommitAnswer)
      returns (r: Option<seq<string>>)
      requires Sound(tables)
      modifies this`tables
      ensures
        var call := SyncEpisodes(animeId, parse(TrimSpace(animeId)), slug, eps, env, now, fault, commit);
        && tables == AfterCall(old(tables), call)
        && Sound(tables)
        && r ==
           if Attempt(old(tables), call).None? || !commit.Commits? then None
           else Some(HiAnimeSynced(old(tables), animeId, call.id.value, slug, eps, env, now).value.1)
    {
      var id := parse(TrimSpace(animeId));
      CallKeeps(tables, SyncEpisodes(animeId, id, slug, eps, env, now, fault, commit));
      if id.None? || fault || id.value !in tables.anime {
        return None;
      }
      var tx := tables.(animeIds := tables.animeIds[("hianime", slug) := id.value]);
      var synced := UpsertEpisodes(tx, "hianime", id.value, eps, env, now);
      if synced.None? {
        return None;
      }
      tx := synced.value.0.(outbox := synced.value.0.outbox + [animeId]);
      if commit.Fails? {
        return None;
      }
      tables := tx;
      return if commit.Commits? then Some(synced.value.1) else None;
    }
  }
}
