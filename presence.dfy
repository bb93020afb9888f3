/**
  An in-memory presence registry. Clients ping with an identifier and an
  optional platform tag; the registry remembers, per identifier, when it was
  last seen and on which platform. A query lists the clients seen within the
  last 30 seconds. Time is an integer number of milliseconds supplied by the
  caller.
 */
module Presence {

  datatype Option<T> = None | Some(value: T)

  /** Length of the online window, in milliseconds. */
  const WindowMs: int := 30 * 1000

  /** Platform stored when a ping carries none. */
  const UnknownPlatform: string := "unknown"

  /** What the registry keeps per client identifier. */
  datatype Record = Record(lastActive: int, platform: string)

  /** One element of the online-users answer. */
  datatype Entry = Entry(id: string, platform: string, lastActive: int)

  /** Outcome of a ping, with the HTTP status and message it is reported with. */
  datatype PingResult = PingOk | InvalidArgument
  {
    function Status(): (code: int)
      ensures PingOk? <==> code == 200
      ensures InvalidArgument? <==> code == 400
    {
      if PingOk? then 200 else 400
    }

    /** The message of the reply; only a rejected ping says that the identifier is required. */
    function Message(): (m: string)
      ensures m != ""
      ensures PingOk? <==> m == "Ping successful."
      ensures InvalidArgument? <==> m == "Error: userId is required."
    {
      if PingOk? then "Ping successful." else "Error: userId is required."
    }
  }

  /** Answer of the online-users query. */
  datatype OnlineReport = OnlineReport(onlineCount: nat, users: seq<Entry>, totalUsers: nat)

  /** A request field counts as given when it is present and not the empty string. */
  predicate Given(s: Option<string>)
  {
    s.Some? && s.value != ""
  }

  /** The platform a ping stores: the one supplied, or "unknown" when none is given. */
  function PlatformOrDefault(platform: Option<string>): (r: string)
    ensures r != ""
    ensures Given(platform) ==> r == platform.value
    ensures !Given(platform) ==> r == UnknownPlatform
  {
    if Given(platform) then platform.value else UnknownPlatform
  }

  /** The latest instant that no longer counts as online at `now`. */
  function Cutoff(now: int): (c: int)
  {
    now - WindowMs
  }

  predicate IsOnline(rec: Record, now: int)
  {
    rec.lastActive > Cutoff(now)
  }

  /** Inserts or replaces the record of `id`; every other key keeps its record. */
  function Upsert(users: map<string, Record>, id: string, rec: Record): (m: map<string, Record>)
    ensures m.Keys == users.Keys + {id}
    ensures id in m && m[id] == rec
    ensures forall k :: k in users && k != id ==> m[k] == users[k]
    ensures |m| == if id in users then |users| else |users| + 1
  {
    users[id := rec]
  }

  /** The effect of one ping on the registry contents, and its result. */
  function PingStep(users: map<string, Record>, userId: Option<string>, platform: Option<string>, now: int)
    : (r: (PingResult, map<string, Record>))
    ensures r.0 == InvalidArgument <==> !Given(userId)
    ensures r.0 == InvalidArgument ==> r.1 == users
    ensures users.Keys <= r.1.Keys
    ensures r.0 == PingOk ==>
              && r.1.Keys == users.Keys + {userId.value}
              && r.1[userId.value] == Record(now, PlatformOrDefault(platform))
              && forall k :: k in users && k != userId.value ==> r.1[k] == users[k]
  {
    if !Given(userId) then (InvalidArgument, users)
    else (PingOk, Upsert(users, userId.value, Record(now, PlatformOrDefault(platform))))
  }

  /** The identifiers online at `now`. */
  function OnlineIds(users: map<string, Record>, now: int): (ids: set<string>)
  {
    set id | id in users && IsOnline(users[id], now)
  }

  /** The answer entry for a stored identifier. */
  function EntryFor(users: map<string, Record>, id: string): (e: Entry)
    requires id in users
    ensures e.id == id && e.platform == users[id].platform && e.lastActive == users[id].lastActive
  {
    Entry(id, users[id].platform, users[id].lastActive)
  }

  /** The identifiers occurring in a list of entries. */
  function Ids(s: seq<Entry>): (ids: set<string>)
  {
    if s == [] then {} else Ids(s[..|s| - 1]) + {s[|s| - 1].id}
  }

  /** No identifier occurs twice. */
  ghost predicate Distinct(s: seq<Entry>)
  {
    forall i, j :: 0 <= i < j < |s| ==> s[i].id != s[j].id
  }

  /** `s` lists, once each and with their stored data, exactly the clients online at `now`. */
  ghost predicate ListsOnline(users: map<string, Record>, now: int, s: seq<Entry>)
  {
    && Distinct(s)
    && (forall i :: 0 <= i < |s| ==> s[i].id in users && s[i] == EntryFor(users, s[i].id))
    && Ids(s) == OnlineIds(users, now)
  }

  lemma {:induction false} IdsAppend(s: seq<Entry>, e: Entry)
    ensures Ids(s + [e]) == Ids(s) + {e.id}
  {
    assert (s + [e])[..|s|] == s;
  }

  /** An identifier is in `Ids(s)` exactly when some entry of `s` carries it. */
  lemma {:induction false} IdsSpan(s: seq<Entry>, x: string)
    ensures x in Ids(s) <==> exists i :: 0 <= i < |s| && s[i].id == x
  {
    if s != [] {
      var p := s[..|s| - 1];
      IdsSpan(p, x);
      if x in Ids(p) {
        var i :| 0 <= i < |p| && p[i].id == x;
        assert s[i].id == x;
      }
      if exists i :: 0 <= i < |s| && s[i].id == x {
        var i :| 0 <= i < |s| && s[i].id == x;
        if i < |s| - 1 {
          assert p[i].id == x;
        }
      }
    }
  }

  /** Without repeated identifiers, a list has as many entries as identifiers. */
  lemma {:induction false} DistinctCard(s: seq<Entry>)
    requires Distinct(s)
    ensures |Ids(s)| == |s|
  {
    if s != [] {
      var p := s[..|s| - 1];
      var last := s[|s| - 1].id;
      assert Distinct(p) by {
        forall i, j | 0 <= i < j < |p| ensures p[i].id != p[j].id {
          assert p[i] == s[i] && p[j] == s[j];
        }
      }
      DistinctCard(p);
      IdsSpan(p, last);
    }
  }

  lemma SubsetCard<T>(a: set<T>, b: set<T>)
    requires a <= b
    ensures |a| <= |b|
  {
    assert b == a + (b - a);
  }

  /** No more clients are online than are known. */
  lemma OnlineAtMostTotal(users: map<string, Record>, now: int)
    ensures |OnlineIds(users, now)| <= |users|
  {
    SubsetCard(OnlineIds(users, now), users.Keys);
  }

  /** An answer meeting `ListsOnline` has one entry per online client. */
  lemma OnlineCountIsLength(users: map<string, Record>, now: int, s: seq<Entry>)
    requires ListsOnline(users, now, s)
    ensures |s| == |OnlineIds(users, now)| <= |users|
  {
    DistinctCard(s);
    OnlineAtMostTotal(users, now);
  }

  /** A known client is listed exactly when its last ping is strictly newer than the cutoff. */
  lemma ListedIffRecent(users: map<string, Record>, now: int, s: seq<Entry>, id: string)
    requires ListsOnline(users, now, s)
    requires id in users
    ensures (exists i :: 0 <= i < |s| && s[i].id == id) <==> users[id].lastActive > Cutoff(now)
  {
    IdsSpan(s, id);
  }

  /** The window edge: a client last seen exactly 30 000 ms ago is offline, one seen 29 999 ms ago is online. */
  lemma WindowBoundary(users: map<string, Record>, now: int, s: seq<Entry>, a: string, b: string)
    requires ListsOnline(users, now, s)
    requires a in users && users[a].lastActive == now - WindowMs
    requires b in users && users[b].lastActive == now - WindowMs + 1
    ensures forall i :: 0 <= i < |s| ==> s[i].id != a
    ensures exists i :: 0 <= i < |s| && s[i] == EntryFor(users, b)
  {
    ListedIffRecent(users, now, s, a);
    ListedIffRecent(users, now, s, b);
  }

  /** A ping for a known identifier keeps the total; one for a new identifier adds exactly one. */
  lemma PingTotalUsers(users: map<string, Record>, userId: Option<string>, platform: Option<string>, now: int)
    ensures var after := PingStep(users, userId, platform, now).1;
            |after| == if Given(userId) && userId.value !in users then |users| + 1 else |users|
  {
  }

  /** A successful ping, followed within the window by a query, lists the client once with the pinged platform. */
  lemma PingThenListed(users: map<string, Record>, id: string, platform: Option<string>, t: int, q: int, s: seq<Entry>)
    requires id != ""
    requires t <= q < t + WindowMs
    requires ListsOnline(PingStep(users, Some(id), platform, t).1, q, s)
    ensures exists i :: 0 <= i < |s| && s[i] == Entry(id, PlatformOrDefault(platform), t)
    ensures forall i, j :: 0 <= i < |s| && 0 <= j < |s| && s[i].id == id && s[j].id == id ==> i == j
  {
    var after := PingStep(users, Some(id), platform, t).1;
    ListedIffRecent(after, q, s, id);
    var i :| 0 <= i < |s| && s[i].id == id;
    assert s[i] == EntryFor(after, id);
  }

  /** Pings already answered keep their effect: a later timestamp never moves a record back in time. */
  lemma PingNeverAgesRecords(users: map<string, Record>, userId: Option<string>, platform: Option<string>, now: int)
    requires forall k :: k in users ==> users[k].lastActive <= now
    ensures var after := PingStep(users, userId, platform, now).1;
            forall k :: k in users ==> k in after && after[k].lastActive >= users[k].lastActive
  {
  }

  /** One ping request as the transport delivers it, with the time it was handled. */
  datatype PingRequest = PingRequest(userId: Option<string>, platform: Option<string>, at: int)

  /** The registry contents after handling `reqs` one after another. */
  function Replay(users: map<string, Record>, reqs: seq<PingRequest>): (after: map<string, Record>)
    decreases |reqs|
  {
    if reqs == [] then users
    else Replay(PingStep(users, reqs[0].userId, reqs[0].platform, reqs[0].at).1, reqs[1..])
  }

  /** The identifiers of the valid requests in `reqs`. */
  function AcceptedIds(reqs: seq<PingRequest>): (ids: set<string>)
    decreases |reqs|
  {
    if reqs == [] then {}
    else (if Given(reqs[0].userId) then {reqs[0].userId.value} else {}) + AcceptedIds(reqs[1..])
  }

  /** Handling a run of pings never removes a key and adds exactly the accepted identifiers. */
  lemma {:induction false} ReplayKeys(users: map<string, Record>, reqs: seq<PingRequest>)
    ensures Replay(users, reqs).Keys == users.Keys + AcceptedIds(reqs)
    decreases |reqs|
  {
    if reqs != [] {
      var r := reqs[0];
      ReplayKeys(PingStep(users, r.userId, r.platform, r.at).1, reqs[1..]);
    }
  }

  /** N valid pings for N distinct new identifiers add exactly N clients. */
  lemma {:induction false} DistinctPingsTotal(users: map<string, Record>, reqs: seq<PingRequest>)
    requires forall i :: 0 <= i < |reqs| ==> Given(reqs[i].userId) && reqs[i].userId.value !in users
    requires forall i, j :: 0 <= i < j < |reqs| ==> reqs[i].userId != reqs[j].userId
    ensures |Replay(users, reqs)| == |users| + |reqs|
    decreases |reqs|
  {
    if reqs != [] {
      var r := reqs[0];
      var next := PingStep(users, r.userId, r.platform, r.at).1;
      var rest := reqs[1..];
      forall i | 0 <= i < |rest| ensures Given(rest[i].userId) && rest[i].userId.value !in next {
        assert rest[i] == reqs[i + 1];
      }
      forall i, j | 0 <= i < j < |rest| ensures rest[i].userId != rest[j].userId {
        assert rest[i] == reqs[i + 1] && rest[j] == reqs[j + 1];
      }
      DistinctPingsTotal(next, rest);
    }
  }

  /** Request `r` is an accepted ping for `id`. */
  predicate PingsFor(r: PingRequest, id: string)
  {
    Given(r.userId) && r.userId.value == id
  }

  /** `reqs[k]` is the last accepted ping for `id` in `reqs`. */
  ghost predicate IsLastPingFor(reqs: seq<PingRequest>, k: int, id: string)
  {
    && 0 <= k < |reqs|
    && PingsFor(reqs[k], id)
    && forall j :: k < j < |reqs| ==> !PingsFor(reqs[j], id)
  }

  /** An identifier is accepted exactly when some request of the run is an accepted ping for it. */
  lemma {:induction false} AcceptedIdsSpan(reqs: seq<PingRequest>, id: string)
    ensures id in AcceptedIds(reqs) <==> exists j :: 0 <= j < |reqs| && PingsFor(reqs[j], id)
    decreases |reqs|
  {
    if reqs != [] {
      var rest := reqs[1..];
      AcceptedIdsSpan(rest, id);
      if exists j :: 0 <= j < |rest| && PingsFor(rest[j], id) {
        var j :| 0 <= j < |rest| && PingsFor(rest[j], id);
        assert PingsFor(reqs[j + 1], id);
      }
      if exists j :: 0 <= j < |reqs| && PingsFor(reqs[j], id) {
        var j :| 0 <= j < |reqs| && PingsFor(reqs[j], id);
        if j > 0 {
          assert PingsFor(rest[j - 1], id);
        }
      }
    }
  }

  /** A run with no accepted ping for `id` leaves that identifier's record, or its absence, alone. */
  lemma {:induction false} ReplayUntouched(users: map<string, Record>, reqs: seq<PingRequest>, id: string)
    requires forall j :: 0 <= j < |reqs| ==> !PingsFor(reqs[j], id)
    ensures (id in Replay(users, reqs)) == (id in users)
    ensures id in users ==> Replay(users, reqs)[id] == users[id]
    decreases |reqs|
  {
    if reqs != [] {
      var r := reqs[0];
      var rest := reqs[1..];
      assert !PingsFor(reqs[0], id);
      forall j | 0 <= j < |rest| ensures !PingsFor(rest[j], id) {
        assert rest[j] == reqs[j + 1];
      }
      ReplayUntouched(PingStep(users, r.userId, r.platform, r.at).1, rest, id);
    }
  }

  /** After a run, an identifier holds the time and platform of its last accepted ping. */
  lemma {:induction false} ReplayLast(users: map<string, Record>, reqs: seq<PingRequest>, k: int, id: string)
    requires IsLastPingFor(reqs, k, id)
    ensures id in Replay(users, reqs)
    ensures Replay(users, reqs)[id] == Record(reqs[k].at, PlatformOrDefault(reqs[k].platform))
    decreases |reqs|
  {
    var r := reqs[0];
    var next := PingStep(users, r.userId, r.platform, r.at).1;
    var rest := reqs[1..];
    if k == 0 {
      forall j | 0 <= j < |rest| ensures !PingsFor(rest[j], id) {
        assert rest[j] == reqs[j + 1];
      }
      ReplayUntouched(next, rest, id);
    } else {
      assert rest[k - 1] == reqs[k];
      forall j | k - 1 < j < |rest| ensures !PingsFor(rest[j], id) {
        assert rest[j] == reqs[j + 1];
      }
      ReplayLast(next, rest, k - 1, id);
    }
  }

  /** Every accepted identifier has a last accepted ping. */
  lemma {:induction false} LastPingExists(reqs: seq<PingRequest>, id: string)
    requires id in AcceptedIds(reqs)
    ensures exists k :: IsLastPingFor(reqs, k, id)
    decreases |reqs|
  {
    var rest := reqs[1..];
    if id in AcceptedIds(rest) {
      LastPingExists(rest, id);
      var k :| IsLastPingFor(rest, k, id);
      assert reqs[k + 1] == rest[k];
      forall j | k + 1 < j < |reqs| ensures !PingsFor(reqs[j], id) {
        assert reqs[j] == rest[j - 1];
      }
      assert IsLastPingFor(reqs, k + 1, id);
    } else {
      assert PingsFor(reqs[0], id);
      AcceptedIdsSpan(rest, id);
      forall j | 0 < j < |reqs| ensures !PingsFor(reqs[j], id) {
        assert reqs[j] == rest[j - 1];
      }
      assert IsLastPingFor(reqs, 0, id);
    }
  }

  /** When every ping of a run from an empty registry is within the window of `q`, a query at `q` lists exactly the accepted identifiers. */
  lemma ReplayAllOnline(reqs: seq<PingRequest>, q: int, s: seq<Entry>)
    requires forall i :: 0 <= i < |reqs| ==> reqs[i].at > Cutoff(q)
    requires ListsOnline(Replay(map[], reqs), q, s)
    ensures Ids(s) == AcceptedIds(reqs)
  {
    var u := Replay(map[], reqs);
    ReplayKeys(map[], reqs);
    forall id | id in u ensures IsOnline(u[id], q) {
      LastPingExists(reqs, id);
      var k :| IsLastPingFor(reqs, k, id);
      ReplayLast(map[], reqs, k, id);
    }
    assert OnlineIds(u, q) == u.Keys;
  }

  /** N valid pings for N distinct identifiers, all within the window, are all listed by a query: N entries, and N known clients. */
  lemma DistinctPingsAllListed(reqs: seq<PingRequest>, q: int, s: seq<Entry>)
    requires forall i :: 0 <= i < |reqs| ==> Given(reqs[i].userId) && reqs[i].at > Cutoff(q)
    requires forall i, j :: 0 <= i < j < |reqs| ==> reqs[i].userId != reqs[j].userId
    requires ListsOnline(Replay(map[], reqs), q, s)
    ensures Ids(s) == AcceptedIds(reqs)
    ensures forall i :: 0 <= i < |reqs| ==> reqs[i].userId.Some? && reqs[i].userId.value in Ids(s)
    ensures |s| == |reqs| == |Replay(map[], reqs)|
  {
    ReplayAllOnline(reqs, q, s);
    forall i | 0 <= i < |reqs| ensures reqs[i].userId.Some? && reqs[i].userId.value in Ids(s) {
      AcceptedIdsSpan(reqs, reqs[i].userId.value);
    }
    DistinctPingsTotal(map[], reqs);
    OnlineCountIsLength(Replay(map[], reqs), q, s);
    ReplayKeys(map[], reqs);
  }

  /** The worked example: "alice" on "web" and "bob" with no platform, queried one second later. */
  lemma AliceAndBob(t: int, s: seq<Entry>)
    requires var users := Replay(map[], [PingRequest(Some("alice"), Some("web"), t), PingRequest(Some("bob"), None, t)]);
             ListsOnline(users, t + 1000, s)
    ensures |s| == 2
    ensures |Replay(map[], [PingRequest(Some("alice"), Some("web"), t), PingRequest(Some("bob"), None, t)])| == 2
    ensures exists i :: 0 <= i < |s| && s[i] == Entry("alice", "web", t)
    ensures exists i :: 0 <= i < |s| && s[i] == Entry("bob", "unknown", t)
  {
    var reqs := [PingRequest(Some("alice"), Some("web"), t), PingRequest(Some("bob"), None, t)];
    var u1 := PingStep(map[], Some("alice"), Some("web"), t).1;
    assert u1 == map["alice" := Record(t, "web")];
    var users := PingStep(u1, Some("bob"), None, t).1;
    assert users == Replay(map[], reqs) by {
      var rest := reqs[1..];
      assert rest == [PingRequest(Some("bob"), None, t)];
      assert rest[1..] == [];
      assert Replay(map[], reqs) == Replay(u1, rest);
      assert Replay(u1, rest) == Replay(users, []);
    }
    assert users.Keys == {"alice", "bob"};
    assert users["alice"] == Record(t, "web") && users["bob"] == Record(t, "unknown");
    assert OnlineIds(users, t + 1000) == {"alice", "bob"};
    DistinctCard(s);
    ListedIffRecent(users, t + 1000, s, "alice");
    ListedIffRecent(users, t + 1000, s, "bob");
    var i :| 0 <= i < |s| && s[i].id == "alice";
    var j :| 0 <= j < |s| && s[j].id == "bob";
    assert s[i] == EntryFor(users, "alice");
    assert s[j] == EntryFor(users, "bob");
  }

  /** The registry: the process-wide map from client identifier to its latest record. */
  class Registry {
    var users: map<string, Record>

    constructor ()
      ensures users == map[]
    {
      users := map[];
    }

    /** Handles a ping request received at time `now`. */
    method Ping(userId: Option<string>, platform: Option<string>, now: int) returns (res: PingResult)
      modifies this
      ensures (res, users) == PingStep(old(users), userId, platform, now)
      ensures !Given(userId) ==> res == InvalidArgument && users == old(users)
      ensures Given(userId) ==>
                && res == PingOk
                && users == Upsert(old(users), userId.value, Record(now, PlatformOrDefault(platform)))
    {
      if !Given(userId) {
        return InvalidArgument;
      }
      users := users[userId.value := Record(now, PlatformOrDefault(platform))];
      res := PingOk;
    }

    /** Answers the online-users query at time `now`; it changes nothing. */
    method ListOnline(now: int) returns (report: OnlineReport)
      ensures ListsOnline(users, now, report.users)
      ensures report.onlineCount == |report.users| == |OnlineIds(users, now)|
      ensures report.totalUsers == |users|
      ensures report.onlineCount <= report.totalUsers
    {
      var cutoff := Cutoff(now);
      var online: seq<Entry> := [];
      var remaining := users.Keys;
      while remaining != {}
        invariant remaining <= users.Keys
        invariant Distinct(online)
        invariant forall i :: 0 <= i < |online| ==> online[i].id in users && online[i] == EntryFor(users, online[i].id)
        invariant Ids(online) == OnlineIds(users, now) - remaining
        decreases remaining
      {
        var id :| id in remaining;
        if users[id].lastActive > cutoff {
          IdsSpan(online, id);
          IdsAppend(online, EntryFor(users, id));
          online := online + [EntryFor(users, id)];
        }
        remaining := remaining - {id};
      }
      DistinctCard(online);
      OnlineAtMostTotal(users, now);
      report := OnlineReport(|online|, online, |users|);
    }
  }
}
