/** Refresh-token rotation: auth_service.go over the refresh_sessions table of store.go. */
module RefreshTokens {
  import opened Text
  import opened Wrappers

  /** A token is known by its hash. */
  datatype Session = Session(
    userId: string, hash: string, expiresAt: int, revokedAt: Option<int>, replacedBy: Option<string>)

  type Sessions = map<string, Session>

  // ---- the statements ----

  predicate HashTaken(s: Sessions, hash: string) {
    exists id :: id in s && s[id].hash == hash
  }

  /** INSERT; None when the id or the token hash is already there. */
  function Created(s: Sessions, id: string, userId: string, hash: string, expiresAt: int): Option<Sessions> {
    if id in s || HashTaken(s, hash) then None
    else Some(s[id := Session(userId, hash, expiresAt, None, None)])
  }

  predicate Live(s: Sessions, id: string) {
    id in s && s[id].revokedAt.None?
  }

  function Revoked(s: Sessions, id: string, now: int): Sessions {
    if Live(s, id) then s[id := s[id].(revokedAt := Some(now))] else s
  }

  function Replaced(s: Sessions, id: string, newId: string, now: int): Sessions {
    if Live(s, id) then s[id := s[id].(revokedAt := Some(now), replacedBy := Some(newId))] else s
  }

  // ---- the calls ----

  /** One call with the fresh values, the clock reading and the database behaviour it meets. `lookupFails` is an
      error of the query for the session; `issueFails` one of reading the user or making a token. */
  datatype Call =
    | Login(userId: string, newId: string, newHash: string, now: int, ttl: int, issueFails: bool,
            create: CommitAnswer)
    | Refresh(hash: string, newId: string, newHash: string, now: int, ttl: int, lookupFails: bool, issueFails: bool,
              replace: CommitAnswer, create: CommitAnswer)
    | Logout(hash: string, now: int, lookupFails: bool, revoke: CommitAnswer)

  ghost predicate Names(s: Sessions, hash: string, id: string) {
    id in s && s[id].hash == hash
  }

  ghost function IdOf(s: Sessions, hash: string): (id: string)
    requires HashTaken(s, hash)
    ensures Names(s, hash, id)
  {
    var id :| id in s && s[id].hash == hash;
    id
  }

  /** The token is accepted: known, not revoked, not expired. */
  ghost predicate Accepts(s: Sessions, hash: string, now: int) {
    HashTaken(s, hash) && Live(s, IdOf(s, hash)) && now <= s[IdOf(s, hash)].expiresAt
  }

  ghost function Stored(
      s: Sessions, id: string, userId: string, hash: string, expiresAt: int, create: CommitAnswer): Sessions
  {
    var made := Created(s, id, userId, hash, expiresAt);
    if create.Fails? || made.None? then s else made.value
  }

  ghost function After(s: Sessions, call: Call): Sessions {
    match call
    case Login(userId, newId, newHash, now, ttl, issueFails, create) =>
      if issueFails then s else Stored(s, newId, userId, newHash, now + ttl, create)
    case Refresh(hash, newId, newHash, now, ttl, lookupFails, issueFails, replace, create) =>
      if lookupFails || !Accepts(s, hash, now) || issueFails || replace.Fails? then s
      else
        var id := IdOf(s, hash);
        var replaced := Replaced(s, id, newId, now);
        if replace.CommitsUnseen? then replaced
        else Stored(replaced, newId, s[id].userId, newHash, now + ttl, create)
    case Logout(hash, now, lookupFails, revoke) =>
      if !lookupFails && HashTaken(s, hash) && !revoke.Fails? then Revoked(s, IdOf(s, hash), now) else s
  }

  /** A refresh that answers with a new token. */
  ghost predicate Succeeds(s: Sessions, call: Call) {
    && call.Refresh? && !call.lookupFails && !call.issueFails
    && Accepts(s, call.hash, call.now) && call.replace.Commits? && call.create.Commits?
    && !HashTaken(s, call.newHash) && call.newId !in s
  }

  /** uuid.New never returns an id that was handed out before. */
  ghost predicate Fresh(s: Sessions, call: Call) {
    call.Logout? || Unlinked(s, call.newId)
  }

  ghost function Run(calls: seq<Call>): Sessions {
    if calls == [] then map[] else After(Run(calls[..|calls| - 1]), calls[|calls| - 1])
  }

  ghost predicate IsRun(calls: seq<Call>) {
    forall n: nat :: n < |calls| ==> Fresh(Run(calls[..n]), calls[n])
  }

  // ---- what every call keeps ----

  ghost predicate Sound(s: Sessions) {
    && (forall i, j :: i in s && j in s && s[i].hash == s[j].hash ==> i == j)
    && (forall i :: i in s && s[i].replacedBy.Some? ==> s[i].revokedAt.Some?)
    && (forall i, j :: i in s && j in s && s[i].replacedBy.Some? && s[i].replacedBy == s[j].replacedBy ==> i == j)
  }

  /** Sessions stay, and once revoked they never change: a revocation time and a link are set once. */
  ghost predicate Keeps(s: Sessions, t: Sessions) {
    forall i :: i in s ==>
      && i in t
      && t[i].hash == s[i].hash && t[i].userId == s[i].userId && t[i].expiresAt == s[i].expiresAt
      && (s[i].revokedAt.Some? ==> t[i] == s[i])
  }

  /** A link that leads nowhere will never lead anywhere. */
  ghost predicate LinksSettled(s: Sessions, t: Sessions) {
    forall i :: i in s && s[i].replacedBy.Some? ==> (s[i].replacedBy.value in t <==> s[i].replacedBy.value in s)
  }

  ghost predicate Extends(s: Sessions, t: Sessions) {
    Keeps(s, t) && LinksSettled(s, t)
  }

  ghost predicate Unlinked(s: Sessions, newId: string) {
    newId !in s && forall id :: id in s ==> s[id].replacedBy != Some(newId)
  }

  lemma RevokedKeeps(s: Sessions, id: string, now: int)
    requires Sound(s)
    ensures Sound(Revoked(s, id, now)) && Extends(s, Revoked(s, id, now))
  {
  }

  lemma ReplacedKeeps(s: Sessions, id: string, newId: string, now: int)
    requires Sound(s) && Unlinked(s, newId)
    ensures Sound(Replaced(s, id, newId, now)) && Extends(s, Replaced(s, id, newId, now))
  {
  }

  lemma StoredKeeps(s: Sessions, id: string, userId: string, hash: string, expiresAt: int, create: CommitAnswer)
    requires Sound(s)
    ensures
      var t := Stored(s, id, userId, hash, expiresAt, create);
      Sound(t) && Keeps(s, t) && t.Keys <= s.Keys + {id}
  {
  }

  lemma KeepsTransitive(s: Sessions, t: Sessions, u: Sessions)
    requires Keeps(s, t) && Keeps(t, u)
    ensures Keeps(s, u)
  {
  }

  lemma RefreshKeeps(
      s: Sessions, id: string, newId: string, newHash: string, now: int, expiresAt: int, create: CommitAnswer)
    requires Sound(s) && Unlinked(s, newId) && id in s
    ensures
      var t := Stored(Replaced(s, id, newId, now), newId, s[id].userId, newHash, expiresAt, create);
      Sound(t) && Extends(s, t)
  {
    var r := Replaced(s, id, newId, now);
    ReplacedKeeps(s, id, newId, now);
    StoredKeeps(r, newId, s[id].userId, newHash, expiresAt, create);
    var t := Stored(r, newId, s[id].userId, newHash, expiresAt, create);
    KeepsTransitive(s, r, t);
    NewKeySettles(s, t, newId);
  }

  lemma NewKeySettles(s: Sessions, t: Sessions, newId: string)
    requires Unlinked(s, newId) && s.Keys <= t.Keys <= s.Keys + {newId}
    ensures LinksSettled(s, t)
  {
  }

  lemma LoginWrites(s: Sessions, call: Call) returns (t: Sessions)
    requires Sound(s) && call.Login? && Unlinked(s, call.newId)
    ensures After(s, call) == s || After(s, call) == t
    ensures Sound(t) && Extends(s, t)
  {
    t := NewSessionState(s, call.newId, call.userId, call.newHash, call.now + call.ttl, call.create);
    LoginOutcomes(s, call, t);
  }

  lemma NewSessionState(s: Sessions, id: string, userId: string, hash: string, expiresAt: int, create: CommitAnswer)
    returns (t: Sessions)
    requires Sound(s) && Unlinked(s, id)
    ensures t == Stored(s, id, userId, hash, expiresAt, create) && Sound(t) && Extends(s, t)
  {
    t := Stored(s, id, userId, hash, expiresAt, create);
    StoredKeeps(s, id, userId, hash, expiresAt, create);
    NewKeySettles(s, t, id);
  }

  lemma LoginOutcomes(s: Sessions, call: Call, t: Sessions)
    requires call.Login?
    requires t == Stored(s, call.newId, call.userId, call.newHash, call.now + call.ttl, call.create)
    ensures After(s, call) == s || After(s, call) == t
  {
  }

  lemma OneOfKeeps(s: Sessions, r: Sessions, u: Sessions, t: Sessions)
    requires Sound(s) && Sound(r) && Sound(u) && Extends(s, r) && Extends(s, u)
    requires t == s || t == r || t == u
    ensures Sound(t) && Extends(s, t)
  {
  }

  /** A refresh leaves the sessions as they were, the old one replaced, or the new one created as well. */
  lemma RefreshOutcomes(s: Sessions, call: Call, r: Sessions, u: Sessions)
    requires call.Refresh? && Accepts(s, call.hash, call.now)
    requires r == Replaced(s, IdOf(s, call.hash), call.newId, call.now)
    requires u == Stored(r, call.newId, s[IdOf(s, call.hash)].userId, call.newHash, call.now + call.ttl, call.create)
    ensures After(s, call) == s || After(s, call) == r || After(s, call) == u
  {
  }

  lemma RefreshWrites(s: Sessions, call: Call) returns (r: Sessions, u: Sessions)
    requires Sound(s) && call.Refresh? && Fresh(s, call) && Accepts(s, call.hash, call.now)
    ensures After(s, call) == s || After(s, call) == r || After(s, call) == u
    ensures Sound(r) && Extends(s, r) && Sound(u) && Extends(s, u)
  {
    var id := IdOf(s, call.hash);
    r, u := RefreshStates(s, id, call.newId, call.newHash, call.now, call.now + call.ttl, call.create);
    RefreshOutcomes(s, call, r, u);
  }

  lemma RefreshStates(
      s: Sessions, id: string, newId: string, newHash: string, now: int, expiresAt: int, create: CommitAnswer)
    returns (r: Sessions, u: Sessions)
    requires Sound(s) && Unlinked(s, newId) && id in s
    ensures r == Replaced(s, id, newId, now) && u == Stored(r, newId, s[id].userId, newHash, expiresAt, create)
    ensures Sound(r) && Extends(s, r) && Sound(u) && Extends(s, u)
  {
    r := Replaced(s, id, newId, now);
    u := Stored(r, newId, s[id].userId, newHash, expiresAt, create);
    ReplacedKeeps(s, id, newId, now);
    RefreshKeeps(s, id, newId, newHash, now, expiresAt, create);
  }

  lemma CallKeeps(s: Sessions, call: Call)
    requires Sound(s) && Fresh(s, call)
    ensures Sound(After(s, call)) && Extends(s, After(s, call))
  {
    if call.Login? {
      var t := LoginWrites(s, call);
      OneOfKeeps(s, t, t, After(s, call));
    } else if call.Refresh? && Accepts(s, call.hash, call.now) {
      var r, u := RefreshWrites(s, call);
      OneOfKeeps(s, r, u, After(s, call));
    } else if call.Logout? && HashTaken(s, call.hash) {
      RevokedKeeps(s, IdOf(s, call.hash), call.now);
    }
  }

  lemma ExtendsTransitive(s: Sessions, t: Sessions, u: Sessions)
    requires Sound(s) && Extends(s, t) && Extends(t, u)
    ensures Extends(s, u)
  {
  }

  lemma {:induction false} RunKeeps(calls: seq<Call>, n: nat)
    requires IsRun(calls) && n <= |calls|
    ensures Sound(Run(calls)) && Sound(Run(calls[..n]))
    ensures Extends(Run(calls[..n]), Run(calls))
  {
    if calls != [] {
      var before := calls[..|calls| - 1];
      assert forall m: nat :: m < |before| ==> before[..m] == calls[..m];
      assert calls[..|calls| - 1] == before;
      RunKeeps(before, if n < |calls| then n else 0);
      CallKeeps(Run(before), calls[|calls| - 1]);
      if n < |calls| {
        assert before[..n] == calls[..n];
        ExtendsTransitive(Run(calls[..n]), Run(before), Run(calls));
      } else {
        assert calls[..n] == calls;
      }
    } else {
      assert calls[..n] == calls;
    }
  }

  lemma SuccessRevokes(s: Sessions, call: Call)
    requires Succeeds(s, call)
    ensures
      var id := IdOf(s, call.hash);
      id in After(s, call) && After(s, call)[id].hash == call.hash && After(s, call)[id].revokedAt.Some?
  {
  }

  lemma RevokedIsRefused(s: Sessions, id: string, call: Call)
    requires Sound(s) && id in s && s[id].revokedAt.Some? && call.Refresh? && call.hash == s[id].hash
    ensures !Succeeds(s, call)
  {
    assert HashTaken(s, call.hash) && Names(s, call.hash, IdOf(s, call.hash));
  }

  /** In every run each refresh token succeeds at most once. */
  lemma TokenSucceedsOnce(calls: seq<Call>, m: nat, n: nat)
    requires IsRun(calls) && m < n < |calls|
    requires Succeeds(Run(calls[..m]), calls[m]) && Succeeds(Run(calls[..n]), calls[n])
    ensures calls[m].hash != calls[n].hash
  {
    var id, part := IdOf(Run(calls[..m]), calls[m].hash), calls[..n];
    SuccessRevokes(Run(calls[..m]), calls[m]);
    assert calls[..m + 1][..m] == calls[..m];
    assert forall k: nat :: k < |part| ==> part[..k] == calls[..k];
    RunKeeps(part, m + 1);
    assert part[..m + 1] == calls[..m + 1];
    if calls[m].hash == calls[n].hash {
      RevokedIsRefused(Run(part), id, calls[n]);
    }
  }

  // ---- chains ----

  /** When each session was created: its place in the run. */
  ghost function Births(calls: seq<Call>): (b: map<string, nat>)
    ensures b.Keys == Run(calls).Keys
  {
    if calls == [] then map[]
    else
      var before, s := Births(calls[..|calls| - 1]), Run(calls);
      assert Run(calls[..|calls| - 1]).Keys <= s.Keys by { KeysGrow(Run(calls[..|calls| - 1]), calls[|calls| - 1]); }
      map id | id in s :: if id in before then before[id] else |calls|
  }

  lemma KeysGrow(s: Sessions, call: Call)
    ensures s.Keys <= After(s, call).Keys
  {
  }

  /** Links lead from older to younger sessions. */
  ghost predicate Ranked(s: Sessions, births: map<string, nat>) {
    births.Keys == s.Keys
    && forall i :: i in s && s[i].replacedBy.Some? && s[i].replacedBy.value in s ==>
        births[i] < births[s[i].replacedBy.value]
  }

  /** The only new link of a call leads to the session it creates. */
  lemma NewLinks(s: Sessions, call: Call, i: string)
    requires i in s
    ensures
      var t := After(s, call);
      i in t && (t[i].replacedBy == s[i].replacedBy || (call.Refresh? && t[i].replacedBy == Some(call.newId)))
  {
  }

  lemma NewSession(s: Sessions, call: Call, i: string)
    requires i in After(s, call) && i !in s
    ensures !call.Logout? && i == call.newId && After(s, call)[i].replacedBy.None?
  {
  }

  lemma {:induction false} RunIsRanked(calls: seq<Call>)
    requires IsRun(calls)
    ensures Ranked(Run(calls), Births(calls))
    ensures forall id :: id in Births(calls) ==> Births(calls)[id] <= |calls|
  {
    if calls != [] {
      var before, call := calls[..|calls| - 1], calls[|calls| - 1];
      assert forall m: nat :: m < |before| ==> before[..m] == calls[..m];
      RunIsRanked(before);
      var s, t, b := Run(before), Run(calls), Births(calls);
      forall i | i in t && t[i].replacedBy.Some? && t[i].replacedBy.value in t
        ensures b[i] < b[t[i].replacedBy.value]
      {
        if i in s {
          NewLinks(s, call, i);
        } else {
          NewSession(s, call, i);
        }
        if t[i].replacedBy.value !in s {
          NewSession(s, call, t[i].replacedBy.value);
        }
      }
    }
  }

  ghost function Youngest(births: map<string, nat>): (n: nat)
    ensures forall id :: id in births ==> births[id] <= n
  {
    if births == map[] then 0
    else
      var id :| id in births;
      var others := births - {id};
      var rest := Youngest(others);
      assert forall k :: k in births && k != id ==> k in others && births[k] == others[k];
      if births[id] <= rest then rest else births[id]
  }

  /** The sessions reached from one by following replacement links. */
  ghost function Chain(s: Sessions, births: map<string, nat>, id: string): (chain: seq<string>)
    requires id in s && Ranked(s, births)
    ensures chain != [] && chain[0] == id && forall k :: 0 <= k < |chain| ==> chain[k] in s
    decreases Youngest(births) - births[id]
  {
    var next := s[id].replacedBy;
    if next.Some? && next.value in s then [id] + Chain(s, births, next.value) else [id]
  }

  /** Links join neighbours, no session repeats, and all but the last are revoked. */
  ghost predicate Linked(s: Sessions, births: map<string, nat>, c: seq<string>)
    requires births.Keys == s.Keys && forall k :: 0 <= k < |c| ==> c[k] in s
  {
    && (forall k :: 0 <= k < |c| - 1 ==> s[c[k]].replacedBy == Some(c[k + 1]) && !Live(s, c[k]))
    && (forall k, l :: 0 <= k < l < |c| ==> births[c[k]] < births[c[l]])
  }

  lemma LinkedFirst(s: Sessions, births: map<string, nat>, id: string, rest: seq<string>)
    requires births.Keys == s.Keys && Sound(s) && id in s && rest != []
    requires (forall k :: 0 <= k < |rest| ==> rest[k] in s)
    requires Linked(s, births, rest) && s[id].replacedBy == Some(rest[0]) && births[id] < births[rest[0]]
    ensures (forall k :: 0 <= k < |[id] + rest| ==> ([id] + rest)[k] in s) && Linked(s, births, [id] + rest)
  {
    var c := [id] + rest;
    assert forall k :: 1 <= k < |c| ==> c[k] == rest[k - 1];
    forall k | 0 <= k < |rest| ensures births[id] < births[rest[k]] {
      assert k > 0 ==> births[rest[0]] < births[rest[k]];
    }
    forall k | 0 <= k < |c| - 1 ensures s[c[k]].replacedBy == Some(c[k + 1]) && !Live(s, c[k]) {
      assert k > 0 ==> c[k] == rest[k - 1] && c[k + 1] == rest[k];
    }
  }

  lemma {:induction false} ChainFacts(s: Sessions, births: map<string, nat>, id: string)
    requires id in s && Ranked(s, births) && Sound(s)
    ensures
      var c := Chain(s, births, id);
      && Linked(s, births, c)
      && (s[c[|c| - 1]].replacedBy.Some? ==> s[c[|c| - 1]].replacedBy.value !in s)
    decreases Youngest(births) - births[id]
  {
    var next := s[id].replacedBy;
    if next.Some? && next.value in s {
      ChainFacts(s, births, next.value);
      LinkedFirst(s, births, id, Chain(s, births, next.value));
    }
  }

  /** No link leads to it. */
  ghost predicate IsRoot(s: Sessions, id: string) {
    id in s && forall i :: i in s ==> s[i].replacedBy != Some(id)
  }

  /** Two chains that meet are one inside the other. */
  lemma {:induction false} ChainsMeet(s: Sessions, births: map<string, nat>, a: string, b: string, k: nat, l: nat)
    requires a in s && b in s && Ranked(s, births) && Sound(s)
    requires k < |Chain(s, births, a)| && l < |Chain(s, births, b)| && Chain(s, births, a)[k] == Chain(s, births, b)[l]
    ensures a in Chain(s, births, b) || b in Chain(s, births, a)
    decreases k
  {
    var c, d := Chain(s, births, a), Chain(s, births, b);
    if k > 0 && l > 0 {
      ChainFacts(s, births, a);
      ChainFacts(s, births, b);
      assert s[c[k - 1]].replacedBy == Some(c[k]) && s[d[l - 1]].replacedBy == Some(d[l]);
      ChainsMeet(s, births, a, b, k - 1, l - 1);
    }
  }

  /** The chains of different roots share no session. */
  lemma ChainsDisjoint(s: Sessions, births: map<string, nat>, a: string, b: string)
    requires IsRoot(s, a) && IsRoot(s, b) && a != b && Ranked(s, births) && Sound(s)
    ensures forall id :: id in Chain(s, births, a) ==> id !in Chain(s, births, b)
  {
    var c, d := Chain(s, births, a), Chain(s, births, b);
    forall id | id in c && id in d ensures false {
      var k: nat :| k < |c| && c[k] == id;
      var l: nat :| l < |d| && d[l] == id;
      ChainsMeet(s, births, a, b, k, l);
      RootOnlyFirst(s, births, a, b);
      RootOnlyFirst(s, births, b, a);
    }
  }

  lemma RootOnlyFirst(s: Sessions, births: map<string, nat>, root: string, other: string)
    requires IsRoot(s, root) && other in s && other != root && Ranked(s, births) && Sound(s)
    ensures root !in Chain(s, births, other)
  {
    var c := Chain(s, births, other);
    ChainFacts(s, births, other);
    forall k | 0 <= k < |c| ensures c[k] != root {
      if k > 0 {
        assert s[c[k - 1]].replacedBy == Some(c[k]);
      }
    }
  }

  /** Every session lies on the chain of some root. */
  lemma {:induction false} OnSomeChain(s: Sessions, births: map<string, nat>, id: string) returns (root: string)
    requires id in s && Ranked(s, births) && Sound(s)
    ensures IsRoot(s, root) && id in Chain(s, births, root)
    decreases births[id]
  {
    if IsRoot(s, id) {
      root := id;
      assert Chain(s, births, id)[0] == id;
    } else {
      var before :| before in s && s[before].replacedBy == Some(id);
      root := OnSomeChain(s, births, before);
      var c := Chain(s, births, root);
      var k: nat :| k < |c| && c[k] == before;
      ChainFacts(s, births, root);
      assert k < |c| - 1 && c[k + 1] == id;
    }
  }

  ghost predicate EachOnSomeChain(s: Sessions, births: map<string, nat>)
    requires Ranked(s, births)
  {
    forall id :: id in s ==> exists root :: IsRoot(s, root) && id in Chain(s, births, root)
  }

  ghost predicate Share(s: Sessions, births: map<string, nat>, a: string, b: string)
    requires Ranked(s, births) && a in s && b in s
  {
    exists id :: id in Chain(s, births, a) && id in Chain(s, births, b)
  }

  ghost predicate OnlyTipMayLive(s: Sessions, births: map<string, nat>, root: string)
    requires Ranked(s, births) && root in s
  {
    var c := Chain(s, births, root);
    forall k :: 0 <= k < |c| - 1 ==> !Live(s, c[k])
  }

  ghost predicate ChainsShareNothing(s: Sessions, births: map<string, nat>)
    requires Ranked(s, births)
  {
    forall a, b :: IsRoot(s, a) && IsRoot(s, b) && a != b ==> !Share(s, births, a, b)
  }

  ghost predicate OnlyTipsMayLive(s: Sessions, births: map<string, nat>)
    requires Ranked(s, births)
  {
    forall root :: root in s ==> OnlyTipMayLive(s, births, root)
  }

  lemma AllOnChains(s: Sessions, births: map<string, nat>)
    requires Ranked(s, births) && Sound(s)
    ensures EachOnSomeChain(s, births)
  {
    forall id | id in s ensures exists root :: IsRoot(s, root) && id in Chain(s, births, root) {
      var root := OnSomeChain(s, births, id);
    }
  }

  lemma AllDisjoint(s: Sessions, births: map<string, nat>)
    requires Ranked(s, births) && Sound(s)
    ensures ChainsShareNothing(s, births)
  {
    forall a, b | IsRoot(s, a) && IsRoot(s, b) && a != b ensures !Share(s, births, a, b) {
      ChainsDisjoint(s, births, a, b);
    }
  }

  lemma AllTips(s: Sessions, births: map<string, nat>)
    requires Ranked(s, births) && Sound(s)
    ensures OnlyTipsMayLive(s, births)
  {
    forall root | root in s ensures OnlyTipMayLive(s, births, root) {
      ChainFacts(s, births, root);
    }
  }

  /** In every reachable state the sessions fall into disjoint finite chains, and at most the last
      session of a chain is live. */
  lemma ChainsOfRun(calls: seq<Call>)
    requires IsRun(calls)
    ensures Ranked(Run(calls), Births(calls))
    ensures EachOnSomeChain(Run(calls), Births(calls))
    ensures ChainsShareNothing(Run(calls), Births(calls))
    ensures OnlyTipsMayLive(Run(calls), Births(calls))
  {
    RunKeeps(calls, 0);
    RunIsRanked(calls);
    AllOnChains(Run(calls), Births(calls));
    AllDisjoint(Run(calls), Births(calls));
    AllTips(Run(calls), Births(calls));
  }

  /** No session of the chain is live. */
  ghost predicate Dead(s: Sessions, births: map<string, nat>, root: string)
    requires root in s && Ranked(s, births)
  {
    forall id :: id in Chain(s, births, root) ==> !Live(s, id)
  }

  ghost function Tip(s: Sessions, births: map<string, nat>, root: string): (tip: string)
    requires root in s && Ranked(s, births)
    ensures tip in s
  {
    var c := Chain(s, births, root);
    c[|c| - 1]
  }

  /** A logout that reaches the database with the token of the last session of the chain. */
  ghost predicate LogsOutTip(s: Sessions, births: map<string, nat>, root: string, call: Call)
    requires root in s && Ranked(s, births)
  {
    call.Logout? && !call.lookupFails && !call.revoke.Fails? && call.hash == s[Tip(s, births, root)].hash
  }

  /** Logging out the last session of a chain leaves none of it live. */
  lemma LogoutEndsChain(s: Sessions, births: map<string, nat>, root: string, call: Call)
    requires root in s && Ranked(s, births) && Sound(s) && LogsOutTip(s, births, root, call)
    ensures Ranked(After(s, call), births) && Dead(After(s, call), births, root)
    ensures Chain(After(s, call), births, root) == Chain(s, births, root)
  {
    var t, c, tip := After(s, call), Chain(s, births, root), Tip(s, births, root);
    assert Names(s, call.hash, tip) && t == Revoked(s, tip, call.now);
    RevokedSame(s, tip, call.now);
    SameLinksSameChain(s, t, births, births, root);
    ChainFacts(s, births, root);
    forall id | id in c ensures !Live(t, id) {
      assert id == tip || !Live(s, id);
    }
  }

  lemma RevokedSame(s: Sessions, id: string, now: int)
    ensures
      var t := Revoked(s, id, now);
      && t.Keys == s.Keys && !Live(t, id)
      && (forall i :: i in s ==> t[i].replacedBy == s[i].replacedBy && (Live(t, i) ==> Live(s, i)))
  {
  }

  lemma {:induction false} SameLinksSameChain(
      s: Sessions, t: Sessions, b: map<string, nat>, d: map<string, nat>, id: string)
    requires id in s && id in t && Ranked(s, b) && Ranked(t, d)
    requires forall k :: k in Chain(s, b, id) ==> k in t && t[k].replacedBy == s[k].replacedBy
    requires forall k :: k in Chain(s, b, id) && s[k].replacedBy.Some? ==>
      (s[k].replacedBy.value in t <==> s[k].replacedBy.value in s)
    ensures Chain(t, d, id) == Chain(s, b, id)
    decreases Youngest(b) - b[id]
  {
    assert Chain(s, b, id)[0] == id;
    var next := s[id].replacedBy;
    if next.Some? && next.value in s {
      assert forall k :: k in Chain(s, b, next.value) ==> k in Chain(s, b, id);
      SameLinksSameChain(s, t, b, d, next.value);
    }
  }

  lemma DeadStays(s: Sessions, t: Sessions, b: map<string, nat>, d: map<string, nat>, root: string)
    requires root in s && Ranked(s, b) && Ranked(t, d) && Extends(s, t) && Dead(s, b, root)
    ensures root in t && Chain(t, d, root) == Chain(s, b, root) && Dead(t, d, root)
  {
    ChainInTable(s, b, root);
    SameLinksSameChain(s, t, b, d, root);
  }

  lemma ChainInTable(s: Sessions, births: map<string, nat>, root: string)
    requires root in s && Ranked(s, births)
    ensures forall id :: id in Chain(s, births, root) ==> id in s
  {
  }

  /** A refresh with the token of one of these sessions. */
  ghost predicate Presents(s: Sessions, births: map<string, nat>, root: string, call: Call)
    requires root in s && Ranked(s, births)
  {
    call.Refresh? && exists id :: id in Chain(s, births, root) && Names(s, call.hash, id)
  }

  lemma DeadRefuses(s: Sessions, births: map<string, nat>, root: string, call: Call)
    requires root in s && Ranked(s, births) && Sound(s) && Dead(s, births, root)
    requires Presents(s, births, root, call)
    ensures !Succeeds(s, call)
  {
    var id :| id in Chain(s, births, root) && Names(s, call.hash, id);
    RevokedIsRefused(s, id, call);
  }

  lemma PresentsLater(s: Sessions, t: Sessions, b: map<string, nat>, d: map<string, nat>, root: string, call: Call)
    requires root in s && root in t && Ranked(s, b) && Ranked(t, d) && Keeps(s, t)
    requires Chain(t, d, root) == Chain(s, b, root) && Presents(s, b, root, call)
    ensures Presents(t, d, root, call)
  {
    var id :| id in Chain(s, b, root) && Names(s, call.hash, id);
    assert id in Chain(t, d, root) && Names(t, call.hash, id);
  }

  /** A dead chain stays as it is: whatever is called later, it gains no session and none of its
      tokens ever refreshes again. */
  lemma DeadForever(calls: seq<Call>, n: nat, root: string)
    requires IsRun(calls) && n <= |calls|
    requires root in Run(calls[..n]) && Ranked(Run(calls[..n]), Births(calls[..n]))
    requires Dead(Run(calls[..n]), Births(calls[..n]), root)
    ensures root in Run(calls) && Ranked(Run(calls), Births(calls))
    ensures Chain(Run(calls), Births(calls), root) == Chain(Run(calls[..n]), Births(calls[..n]), root)
    ensures forall call: Call ::
      Presents(Run(calls[..n]), Births(calls[..n]), root, call) ==> !Succeeds(Run(calls), call)
  {
    var s, t, b, d := Run(calls[..n]), Run(calls), Births(calls[..n]), Births(calls);
    RunKeeps(calls, n);
    RunIsRanked(calls);
    DeadStays(s, t, b, d, root);
    forall call: Call | Presents(s, b, root, call) ensures !Succeeds(t, call) {
      PresentsLater(s, t, b, d, root, call);
      DeadRefuses(t, d, root, call);
    }
  }

  lemma LogoutBirths(calls: seq<Call>, n: nat)
    requires n < |calls| && calls[n].Logout?
    ensures Births(calls[..n + 1]) == Births(calls[..n])
    ensures Run(calls[..n + 1]) == After(Run(calls[..n]), calls[n])
  {
    assert calls[..n + 1][..n] == calls[..n];
    var s := Run(calls[..n]);
    assert After(s, calls[n]).Keys == s.Keys;
  }

  /** Once the last session of a chain has been logged out, no token of that chain ever refreshes again. */
  lemma LogoutIsFinal(calls: seq<Call>, n: nat, root: string, call: Call)
    requires IsRun(calls) && n < |calls| && root in Run(calls[..n]) && Ranked(Run(calls[..n]), Births(calls[..n]))
    requires LogsOutTip(Run(calls[..n]), Births(calls[..n]), root, calls[n])
    requires Presents(Run(calls[..n]), Births(calls[..n]), root, call)
    ensures !Succeeds(Run(calls), call)
  {
    var s, b, t := Run(calls[..n]), Births(calls[..n]), Run(calls[..n + 1]);
    RunKeeps(calls, n);
    LogoutBirths(calls, n);
    LogoutEndsChain(s, b, root, calls[n]);
    CallKeeps(s, calls[n]);
    PresentsLater(s, t, b, b, root, call);
    DeadForever(calls, n + 1, root);
  }

  lemma SameHashes(s: Sessions, id: string, newId: string, now: int, hash: string)
    ensures HashTaken(Replaced(s, id, newId, now), hash) <==> HashTaken(s, hash)
  {
    var t := Replaced(s, id, newId, now);
    assert forall i :: i in s <==> i in t;
    assert forall i :: i in s ==> t[i].hash == s[i].hash;
  }

  // ---- the service ----

  datatype StoreError = NotFound | Conflict | Database

  datatype AuthError = InvalidArgument | Unauthenticated | Internal

  /** What an insert with this answer reports. */
  function Inserted(taken: bool, db: CommitAnswer): Option<StoreError> {
    if db.Fails? then Some(Database)
    else if taken then Some(Conflict)
    else if db.Commits? then None
    else Some(Database)
  }

  ghost predicate HashesUnique(s: Sessions) {
    forall i, j :: i in s && j in s && s[i].hash == s[j].hash ==> i == j
  }

  /** The call makes the token with this hash, good until `expiresAt`. */
  ghost predicate Issues(call: Call, hash: string, expiresAt: int) {
    !call.Logout? && call.newHash == hash && call.now + call.ttl == expiresAt
  }

  /** What the answers so far say about the sessions: an issued token has its session, a used one is revoked. */
  ghost predicate Answered(s: Sessions, call: Call, ok: bool) {
    && (ok && !call.Logout? ==> exists id :: id in s && Issues(call, s[id].hash, s[id].expiresAt))
    && (ok && call.Refresh? ==> exists id :: id in s && s[id].hash == call.hash && s[id].revokedAt.Some?)
  }

  lemma AnsweredStays(s: Sessions, t: Sessions, call: Call, ok: bool)
    requires Answered(s, call, ok) && Keeps(s, t)
    ensures Answered(t, call, ok)
  {
    if ok && !call.Logout? {
      var id :| id in s && Issues(call, s[id].hash, s[id].expiresAt);
      assert id in t && Issues(call, t[id].hash, t[id].expiresAt);
    }
    if ok && call.Refresh? {
      var id :| id in s && s[id].hash == call.hash && s[id].revokedAt.Some?;
      assert id in t && t[id].hash == call.hash && t[id].revokedAt.Some?;
    }
  }

  lemma StoredExtends(s: Sessions, id: string, userId: string, hash: string, expiresAt: int, create: CommitAnswer)
    requires HashesUnique(s)
    ensures HashesUnique(Stored(s, id, userId, hash, expiresAt, create))
    ensures Keeps(s, Stored(s, id, userId, hash, expiresAt, create))
  {
  }

  lemma EndedExtends(s: Sessions, id: string, newId: string, now: int)
    requires HashesUnique(s)
    ensures HashesUnique(Replaced(s, id, newId, now)) && Keeps(s, Replaced(s, id, newId, now))
    ensures HashesUnique(Revoked(s, id, now)) && Keeps(s, Revoked(s, id, now))
  {
  }

  lemma CallExtends(s: Sessions, call: Call)
    requires HashesUnique(s)
    ensures HashesUnique(After(s, call)) && Keeps(s, After(s, call))
  {
    if call.Login? {
      StoredExtends(s, call.newId, call.userId, call.newHash, call.now + call.ttl, call.create);
    } else if call.Logout? && HashTaken(s, call.hash) {
      EndedExtends(s, IdOf(s, call.hash), "", call.now);
    } else if call.Refresh? && Accepts(s, call.hash, call.now) {
      var id := IdOf(s, call.hash);
      var r, u := ReplacedStored(s, id, call.newId, call.newHash, call.now, call.now + call.ttl, call.create);
      RefreshOutcomes(s, call, r, u);
      OneOfExtends(s, r, u, After(s, call));
    }
  }

  lemma ReplacedStored(
      s: Sessions, id: string, newId: string, newHash: string, now: int, expiresAt: int, create: CommitAnswer)
    returns (r: Sessions, u: Sessions)
    requires HashesUnique(s) && id in s
    ensures r == Replaced(s, id, newId, now) && u == Stored(r, newId, s[id].userId, newHash, expiresAt, create)
    ensures HashesUnique(r) && Keeps(s, r) && HashesUnique(u) && Keeps(s, u)
  {
    r := Replaced(s, id, newId, now);
    u := Stored(r, newId, s[id].userId, newHash, expiresAt, create);
    EndedExtends(s, id, newId, now);
    StoredExtends(r, newId, s[id].userId, newHash, expiresAt, create);
    KeepsTransitive(s, r, u);
  }

  lemma OneOfExtends(s: Sessions, r: Sessions, u: Sessions, t: Sessions)
    requires HashesUnique(s) && HashesUnique(r) && HashesUnique(u) && Keeps(s, r) && Keeps(s, u)
    requires t == s || t == r || t == u
    ensures HashesUnique(t) && Keeps(s, t)
  {
  }

  ghost predicate IssuedBy(calls: seq<Call>, hash: string, expiresAt: int) {
    exists i :: 0 <= i < |calls| && Issues(calls[i], hash, expiresAt)
  }

  /** The sessions bear out the answers, and each was issued by some call. */
  ghost predicate Logged(s: Sessions, calls: seq<Call>, oks: seq<bool>) {
    && |oks| == |calls|
    && (forall i :: 0 <= i < |calls| ==> Answered(s, calls[i], oks[i]))
    && (forall id :: id in s ==> IssuedBy(calls, s[id].hash, s[id].expiresAt))
  }

  lemma LogGrows(s: Sessions, calls: seq<Call>, oks: seq<bool>, call: Call, ok: bool)
    requires HashesUnique(s) && Logged(s, calls, oks) && Answered(After(s, call), call, ok)
    ensures HashesUnique(After(s, call)) && Logged(After(s, call), calls + [call], oks + [ok])
  {
    var t, all := After(s, call), calls + [call];
    CallExtends(s, call);
    forall i | 0 <= i < |all| ensures Answered(t, all[i], (oks + [ok])[i]) {
      if i < |calls| {
        AnsweredStays(s, t, calls[i], oks[i]);
      }
    }
    forall id | id in t ensures IssuedBy(all, t[id].hash, t[id].expiresAt) {
      if id in s {
        var i :| 0 <= i < |calls| && Issues(calls[i], s[id].hash, s[id].expiresAt);
        assert Issues(all[i], t[id].hash, t[id].expiresAt);
      } else {
        NewFromCall(s, call, id);
        assert Issues(all[|calls|], t[id].hash, t[id].expiresAt);
      }
    }
  }

  /** A token that succeeds was issued, has not lived longer than it was given, and was not used before. */
  lemma TokenOfAnswers(s: Sessions, calls: seq<Call>, oks: seq<bool>, hash: string, now: int)
    requires HashesUnique(s) && Logged(s, calls, oks) && Accepts(s, hash, now)
    ensures exists i :: 0 <= i < |calls| && !calls[i].Logout? && calls[i].newHash == hash
    ensures forall i :: 0 <= i < |calls| && oks[i] ==>
      && (!calls[i].Logout? && calls[i].newHash == hash ==> now <= calls[i].now + calls[i].ttl)
      && (calls[i].Refresh? ==> calls[i].hash != hash)
  {
    var id := IdOf(s, hash);
    assert IssuedBy(calls, s[id].hash, s[id].expiresAt);
    var k :| 0 <= k < |calls| && Issues(calls[k], s[id].hash, s[id].expiresAt);
    assert !calls[k].Logout? && calls[k].newHash == hash;
    forall i | 0 <= i < |calls| && oks[i]
      ensures !calls[i].Logout? && calls[i].newHash == hash ==> now <= calls[i].now + calls[i].ttl
      ensures calls[i].Refresh? ==> calls[i].hash != hash
    {
      assert Answered(s, calls[i], oks[i]);
    }
  }

  lemma LogoutInFields(s: Sessions, call: Call)
    requires HashesUnique(s) && call.Logout?
    ensures After(s, call).Keys == s.Keys
    ensures forall id :: id in s ==>
      After(s, call)[id] ==
        if && !call.lookupFails && !call.revoke.Fails?
           && s[id].hash == call.hash && s[id].revokedAt.None?
        then s[id].(revokedAt := Some(call.now))
        else s[id]
  {
  }

  lemma LoginInFields(s: Sessions, call: Call)
    requires call.Login?
    ensures
      var t := After(s, call);
      var row := Session(call.userId, call.newHash, call.now + call.ttl, None, None);
      var free := call.newId !in s && forall i :: i in s ==> s[i].hash != call.newHash;
      t == (if !call.issueFails && !call.create.Fails? && free then s[call.newId := row] else s)
      && (free <==> call.newId !in s && !HashTaken(s, call.newHash))
  {
  }

  lemma NewFromCall(s: Sessions, call: Call, id: string)
    requires id in After(s, call) && id !in s
    ensures Issues(call, After(s, call)[id].hash, After(s, call)[id].expiresAt)
  {
  }

  lemma AcceptsInFields(s: Sessions, hash: string, now: int)
    requires HashesUnique(s)
    ensures Accepts(s, hash, now) <==>
        exists id :: id in s && s[id].hash == hash && s[id].revokedAt.None? && now <= s[id].expiresAt
    ensures Accepts(s, hash, now) <==>
        !forall id :: id in s && s[id].hash == hash ==> s[id].revokedAt.Some? || s[id].expiresAt < now
  {
  }

  lemma SuccessInFields(s: Sessions, call: Call)
    requires HashesUnique(s) && Succeeds(s, call)
    ensures exists id ::
        && id in s && s[id].hash == call.hash
        && s[id].revokedAt.None? && call.now <= s[id].expiresAt && call.newId !in s
        && After(s, call) == s[id := s[id].(revokedAt := Some(call.now), replacedBy := Some(call.newId))]
            [call.newId := Session(s[id].userId, call.newHash, call.now + call.ttl, None, None)]
    ensures Answered(After(s, call), call, true)
  {
    var id, t := IdOf(s, call.hash), After(s, call);
    SameHashes(s, id, call.newId, call.now, call.newHash);
    assert call.newId in t && Issues(call, t[call.newId].hash, t[call.newId].expiresAt);
    assert id in t && t[id].hash == call.hash && t[id].revokedAt.Some?;
  }

  class AuthService {
    var sessions: Sessions
    ghost var calls: seq<Call>
    ghost var oks: seq<bool>

    ghost predicate Valid()
      reads this
    {
      HashesUnique(sessions) && sessions == Run(calls) && Logged(sessions, calls, oks)
    }

    constructor ()
      ensures sessions == map[] && calls == [] && oks == [] && Valid()
    {
      sessions, calls, oks := map[], [], [];
    }

    ghost method Log(call: Call, ok: bool)
      requires HashesUnique(Run(calls)) && Logged(Run(calls), calls, oks)
      requires sessions == After(Run(calls), call) && Answered(sessions, call, ok)
      modifies this`calls, this`oks
      ensures Valid() && calls == old(calls) + [call] && oks == old(oks) + [ok]
    {
      LogGrows(Run(calls), calls, oks, call, ok);
      assert (calls + [call])[..|calls|] == calls;
      calls, oks := calls + [call], oks + [ok];
    }

    method CreateRefreshSession(id: string, userId: string, hash: string, expiresAt: int, db: CommitAnswer)
      returns (failed: Option<StoreError>)
      modifies this`sessions
      ensures sessions == Stored(old(sessions), id, userId, hash, expiresAt, db)
      ensures failed == Inserted(id in old(sessions) || HashTaken(old(sessions), hash), db)
    {
      if db.Fails? {
        return Some(Database);
      }
      if id in sessions || HashTaken(sessions, hash) {
        return Some(Conflict);
      }
      sessions := sessions[id := Session(userId, hash, expiresAt, None, None)];
      failed := if db.Commits? then None else Some(Database);
    }

    method GetRefreshSessionByHash(hash: string, fails: bool) returns (r: Result<string, StoreError>)
      requires HashesUnique(sessions)
      ensures fails ==> r == Err(Database)
      ensures r.Ok? ==> r.value in sessions && sessions[r.value].hash == hash
      ensures r == Err(NotFound) ==> forall i :: i in sessions ==> sessions[i].hash != hash
      ensures r ==
        if fails then Err(Database) else if HashTaken(sessions, hash) then Ok(IdOf(sessions, hash)) else Err(NotFound)
    {
      if fails {
        return Err(Database);
      }
      r := Err(NotFound);
      var rest := sessions.Keys;
      while rest != {} && r.Err?
        invariant rest <= sessions.Keys
        invariant r.Err? ==> r.error == NotFound && forall i :: i in sessions && i !in rest ==> sessions[i].hash != hash
        invariant r.Ok? ==> r.value in sessions && sessions[r.value].hash == hash
        decreases |rest|
      {
        var i :| i in rest;
        rest := rest - {i};
        if sessions[i].hash == hash {
          r := Ok(i);
        }
      }
    }

    method RevokeRefreshSession(id: string, now: int, db: CommitAnswer) returns (ok: bool)
      modifies this`sessions
      ensures sessions == if db.Fails? then old(sessions) else Revoked(old(sessions), id, now)
      ensures ok == db.Commits?
    {
      if !db.Fails? && id in sessions && sessions[id].revokedAt.None? {
        sessions := sessions[id := sessions[id].(revokedAt := Some(now))];
      }
      ok := db.Commits?;
    }

    method ReplaceRefreshSession(id: string, newId: string, now: int, db: CommitAnswer) returns (ok: bool)
      modifies this`sessions
      ensures sessions == if db.Fails? then old(sessions) else Replaced(old(sessions), id, newId, now)
      ensures ok == db.Commits?
    {
      if !db.Fails? && id in sessions && sessions[id].revokedAt.None? {
        sessions := sessions[id := sessions[id].(revokedAt := Some(now), replacedBy := Some(newId))];
      }
      ok := db.Commits?;
    }

    /** issueTokens, as Register and Login call it. */
    method IssueTokens(
        userId: string, newId: string, newHash: string, now: int, ttl: int, issueFails: bool, create: CommitAnswer)
      returns (ok: bool)
      requires Valid()
      modifies this
      ensures Valid() && calls == old(calls) + [Login(userId, newId, newHash, now, ttl, issueFails, create)]
      ensures oks == old(oks) + [ok]
      ensures ok <==>
        && !issueFails && create.Commits? && newId !in old(sessions)
        && forall i :: i in old(sessions) ==> old(sessions)[i].hash != newHash
      ensures
        var row := Session(userId, newHash, now + ttl, None, None);
        var free := newId !in old(sessions) && forall i :: i in old(sessions) ==> old(sessions)[i].hash != newHash;
        sessions == if !issueFails && !create.Fails? && free then old(sessions)[newId := row] else old(sessions)
    {
      ok := RunIssue(userId, newId, newHash, now, ttl, issueFails, create);
      ghost var call := Login(userId, newId, newHash, now, ttl, issueFails, create);
      LoginInFields(old(sessions), call);
      assert ok ==> Issues(call, sessions[newId].hash, sessions[newId].expiresAt);
      Log(call, ok);
    }

    method RunIssue(
        userId: string, newId: string, newHash: string, now: int, ttl: int, issueFails: bool, create: CommitAnswer)
      returns (ok: bool)
      modifies this`sessions
      ensures sessions == After(old(sessions), Login(userId, newId, newHash, now, ttl, issueFails, create))
      ensures ok <==>
        !issueFails && create.Commits? && newId !in old(sessions) && !HashTaken(old(sessions), newHash)
    {
      if issueFails {
        return false;
      }
      var failed := CreateRefreshSession(newId, userId, newHash, now + ttl, create);
      ok := failed.None?;
    }

    /** `raw` is the token and `sha` its hash function. */
    method Refresh(
        raw: string, sha: string -> string, newId: string, newHash: string, now: int, ttl: int, lookupFails: bool,
        issueFails: bool, replace: CommitAnswer, create: CommitAnswer)
      returns (failed: Option<AuthError>)
      requires Valid()
      modifies this
      ensures Valid()
      ensures
        var call :=
          Call.Refresh(sha(TrimSpace(raw)), newId, newHash, now, ttl, lookupFails, issueFails, replace, create);
        if TrimSpace(raw) == "" then calls == old(calls) && oks == old(oks)
        else
          && calls == old(calls) + [call] && oks == old(oks) + [failed.None?]
          && sessions == After(old(sessions), call)
          && (failed.None? <==> Succeeds(old(sessions), call))
      ensures failed == Some(InvalidArgument) <==> TrimSpace(raw) == ""
      ensures failed == Some(Unauthenticated) <==>
        && TrimSpace(raw) != ""
        && (lookupFails
            || (forall id :: id in old(sessions) && old(sessions)[id].hash == sha(TrimSpace(raw)) ==>
                old(sessions)[id].revokedAt.Some? || old(sessions)[id].expiresAt < now))
      ensures failed == Some(InvalidArgument) || failed == Some(Unauthenticated) ==> sessions == old(sessions)
      ensures failed.None? ==>
        exists id ::
          && id in old(sessions) && old(sessions)[id].hash == sha(TrimSpace(raw))
          && old(sessions)[id].revokedAt.None? && now <= old(sessions)[id].expiresAt
          && newId !in old(sessions)
          && sessions == old(sessions)[id := old(sessions)[id].(revokedAt := Some(now), replacedBy := Some(newId))]
              [newId := Session(old(sessions)[id].userId, newHash, now + ttl, None, None)]
      ensures
        && TrimSpace(raw) != "" && !lookupFails && !issueFails && replace.Commits? && create.Commits?
        && newId !in old(sessions) && (forall i :: i in old(sessions) ==> old(sessions)[i].hash != newHash)
        && (exists id ::
              && id in old(sessions) && old(sessions)[id].hash == sha(TrimSpace(raw))
              && old(sessions)[id].revokedAt.None? && now <= old(sessions)[id].expiresAt)
        ==> failed.None?
      ensures failed.None? ==>
        && (exists i :: 0 <= i < |old(calls)| && !old(calls)[i].Logout? && old(calls)[i].newHash == sha(TrimSpace(raw)))
        && forall i :: 0 <= i < |old(calls)| && old(oks)[i] ==>
            && (!old(calls)[i].Logout? && old(calls)[i].newHash == sha(TrimSpace(raw)) ==>
                now <= old(calls)[i].now + old(calls)[i].ttl)
            && (old(calls)[i].Refresh? ==> old(calls)[i].hash != sha(TrimSpace(raw)))
    {
      ghost var s := sessions;
      failed := Rotate(raw, sha, newId, newHash, now, ttl, lookupFails, issueFails, replace, create);
      if TrimSpace(raw) != "" {
        ghost var hash := sha(TrimSpace(raw));
        ghost var call := Call.Refresh(hash, newId, newHash, now, ttl, lookupFails, issueFails, replace, create);
        AcceptsInFields(s, hash, now);
        if failed.None? {
          SuccessInFields(s, call);
          TokenOfAnswers(s, calls, oks, hash, now);
        }
        Log(call, failed.None?);
      }
    }

    method Rotate(
        raw: string, sha: string -> string, newId: string, newHash: string, now: int, ttl: int, lookupFails: bool,
        issueFails: bool, replace: CommitAnswer, create: CommitAnswer)
      returns (failed: Option<AuthError>)
      requires HashesUnique(sessions)
      modifies this`sessions
      ensures
        var hash := sha(TrimSpace(raw));
        var call := Call.Refresh(hash, newId, newHash, now, ttl, lookupFails, issueFails, replace, create);
        if TrimSpace(raw) == "" then failed == Some(InvalidArgument) && sessions == old(sessions)
        else
          && sessions == After(old(sessions), call)
          && (failed.None? <==> Succeeds(old(sessions), call))
          && (failed == Some(Unauthenticated) <==> lookupFails || !Accepts(old(sessions), hash, now))
          && failed != Some(InvalidArgument)
    {
      var token := TrimSpace(raw);
      if token == "" {
        return Some(InvalidArgument);
      }
      var found := GetRefreshSessionByHash(sha(token), lookupFails);
      if found.Err? {
        return Some(Unauthenticated);
      }
      var id := found.value;
      var sess := sessions[id];
      if sess.revokedAt.Some? || now > sess.expiresAt {
        return Some(Unauthenticated);
      }
      if issueFails {
        return Some(Internal);
      }
      var replaced := ReplaceRefreshSession(id, newId, now, replace);
      if !replaced {
        return Some(Internal);
      }
      SameHashes(old(sessions), id, newId, now, newHash);
      var conflict := CreateRefreshSession(newId, sess.userId, newHash, now + ttl, create);
      failed := if conflict.Some? then Some(Internal) else None;
    }

    /** The answer does not tell whether anything was revoked. */
    method Logout(raw: string, sha: string -> string, now: int, lookupFails: bool, revoke: CommitAnswer)
      returns (failed: Option<AuthError>)
      requires Valid()
      modifies this
      ensures Valid()
      ensures failed == if TrimSpace(raw) == "" then Some(InvalidArgument) else None
      ensures
        if TrimSpace(raw) == "" then calls == old(calls) && oks == old(oks)
        else
          && calls == old(calls) + [Call.Logout(sha(TrimSpace(raw)), now, lookupFails, revoke)]
          && oks == old(oks) + [true]
      ensures sessions.Keys == old(sessions).Keys
      ensures forall id :: id in old(sessions) ==>
        sessions[id] ==
          if && TrimSpace(raw) != "" && !lookupFails && !revoke.Fails?
             && old(sessions)[id].hash == sha(TrimSpace(raw)) && old(sessions)[id].revokedAt.None?
          then old(sessions)[id].(revokedAt := Some(now))
          else old(sessions)[id]
    {
      failed := Revoke(raw, sha, now, lookupFails, revoke);
      if TrimSpace(raw) != "" {
        LogoutInFields(old(sessions), Call.Logout(sha(TrimSpace(raw)), now, lookupFails, revoke));
        Log(Call.Logout(sha(TrimSpace(raw)), now, lookupFails, revoke), true);
      }
    }

    method Revoke(raw: string, sha: string -> string, now: int, lookupFails: bool, revoke: CommitAnswer)
      returns (failed: Option<AuthError>)
      requires HashesUnique(sessions)
      modifies this`sessions
      ensures
        if TrimSpace(raw) == "" then failed == Some(InvalidArgument) && sessions == old(sessions)
        else
          && failed == None
          && sessions == After(old(sessions), Call.Logout(sha(TrimSpace(raw)), now, lookupFails, revoke))
    {
      var token := TrimSpace(raw);
      if token == "" {
        return Some(InvalidArgument);
      }
      var found := GetRefreshSessionByHash(sha(token), lookupFails);
      if found.Ok? {
        var revoked := RevokeRefreshSession(found.value, now, revoke);
      }
      failed := None;
    }
  }
}
