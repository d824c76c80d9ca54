/**
 The state that `p2p/src/room_state.rs` updates in place: one room, and the manager of all
 rooms of a mesh.  Every method is specified by the functions of `Rooms`, about which the
 modules `RoomLaws`, `History` and `Convergence` prove what the source promises.
 */
module StateSync {
  import opened Clocks
  import opened Times
  import opened Wrappers
  import opened Rooms
  import opened RoomLaws
  import opened History
  import Text

  type RoomId = string

  datatype StateError = RoomNotFound(id: RoomId) | KeyNotFound(key: Key)

  type Result<+T> = Wrappers.Result<T, StateError>

  datatype StateDelta = StateDelta(roomId: RoomId, from: Agent, entries: seq<Entry>)

  datatype StateSnapshot = StateSnapshot(roomId: RoomId, clock: Clock, entries: map<Key, Entry>, createdAt: Time)

  /** `keys` visits every key of a map once; the map's own iteration order is arbitrary. */
  ghost predicate Visits(keys: seq<Key>, m: map<Key, Entry>) {
    && (forall k :: k in keys <==> k in m)
    && (forall i, j :: 0 <= i < j < |keys| ==> keys[i] != keys[j])
  }

  ghost function EntriesAt(m: map<Key, Entry>, keys: seq<Key>): seq<Entry>
    requires forall k :: k in keys ==> k in m
  {
    seq(|keys|, i requires 0 <= i < |keys| => m[keys[i]])
  }

  lemma VisitOneMore(keys: seq<Key>, m: map<Key, Entry>, rest: set<Key>, k: Key)
    requires rest <= m.Keys && Visits(keys, m - rest) && k in rest
    ensures Visits(keys + [k], m - (rest - {k}))
    ensures EntriesAt(m, keys + [k]) == EntriesAt(m, keys) + [m[k]]
  {
    forall i | 0 <= i < |keys| ensures keys[i] != k {
      assert keys[i] in keys;
    }
  }

  /** A map whose entries sit under their own keys is listed by visiting it. */
  lemma VisitLists(m: map<Key, Entry>, keys: seq<Key>)
    requires Visits(keys, m) && forall k :: k in m ==> m[k].key == k
    ensures Lists(EntriesAt(m, keys), m)
  {
    var s := EntriesAt(m, keys);
    forall k | k in m ensures m[k] in s {
      var i :| 0 <= i < |keys| && keys[i] == k;
      assert s[i] == m[k];
    }
  }

  class RoomState {
    const roomId: RoomId
    var entries: map<Key, Entry>
    /** The aggregate clock, held by value. */
    var clock: Clock

    constructor (id: RoomId)
      ensures roomId == id
      ensures View() == EMPTY_ROOM
    {
      roomId := id;
      entries, clock := map[], map[];
    }

    ghost function View(): Room
      reads this
    {
      Room(entries, clock)
    }

    method MergeClock(other: Clock)
      modifies this`clock
      ensures clock == Join(old(clock), other)
    {
      var merged := new VectorClock.From(clock);
      merged.Merge(other);
      clock := merged.clocks;
    }

    method ApplyEntry(entry: Entry) returns (accepted: bool)
      modifies this
      ensures View() == Apply(old(View()), entry)
      ensures accepted <==> Accepts(old(View()), entry)
      ensures accepted ==> entries == old(entries)[entry.key := entry]
      ensures !accepted ==> entries == old(entries)
      ensures entry.key !in old(entries) ==> accepted
      ensures entry.key in old(entries) ==>
        var x := old(entries)[entry.key];
        match Compare(entry.clock, x.clock)
        case After => accepted
        case Concurrent =>
          && (entry.updatedAt > x.updatedAt ==> accepted)
          && (entry.updatedAt < x.updatedAt ==> !accepted)
          && (entry.updatedAt == x.updatedAt ==> (accepted <==> Text.Less(x.author, entry.author)))
        case Before => !accepted
        case Equal => !accepted
      ensures WellFormed(old(View())) ==> forall a :: Get(clock, a) == Max(Get(old(clock), a), Get(entry.clock, a))
    {
      if WellFormed(View()) {
        ApplyKeepsWellFormed(View(), entry);
        forall a ensures Get(Join(clock, entry.clock), a) == Max(Get(clock, a), Get(entry.clock, a)) {
          GetJoin(clock, entry.clock, a);
        }
      }
      if entry.key !in entries {
        MergeClock(entry.clock);
        entries := entries[entry.key := entry];
        return true;
      }
      var existing := entries[entry.key];
      var incoming := new VectorClock.From(entry.clock);
      var verdict := incoming.PartialCmp(existing.clock);
      match verdict
      case After =>
        MergeClock(entry.clock);
        entries := entries[entry.key := entry];
        accepted := true;
      case Concurrent =>
        if Newer(entry, existing) {
          MergeClock(entry.clock);
          entries := entries[entry.key := entry];
          accepted := true;
        } else {
          MergeClock(entry.clock);
          accepted := false;
        }
      case Before =>
        accepted := false;
      case Equal =>
        accepted := false;
    }

    /** The loop of `apply_delta`: entries in their order, reporting the keys of those accepted. */
    method ApplyEntries(s: seq<Entry>) returns (updated: seq<Key>)
      modifies this
      ensures View() == ApplyAll(old(View()), s)
      ensures updated == Updated(old(View()), s)
    {
      ghost var before := View();
      updated := [];
      for i := 0 to |s|
        invariant View() == ApplyAll(before, s[..i])
        invariant updated == Updated(before, s[..i])
      {
        assert s[..i + 1] == s[..i] + [s[i]];
        Snoc(before, s[..i], s[i]);
        var accepted := ApplyEntry(s[i]);
        if accepted {
          updated := updated + [s[i].key];
        }
      }
      assert s[..|s|] == s;
    }

    /** The loop of `restore_snapshot`: the entries of a map in whatever order it gives them. */
    method ReplayEntries(m: map<Key, Entry>) returns (updated: seq<Key>, ghost visited: seq<Key>)
      modifies this
      ensures Visits(visited, m)
      ensures View() == ApplyAll(old(View()), EntriesAt(m, visited))
      ensures updated == Updated(old(View()), EntriesAt(m, visited))
    {
      ghost var before := View();
      updated, visited := [], [];
      var rest := m.Keys;
      while rest != {}
        invariant rest <= m.Keys
        invariant Visits(visited, m - rest)
        invariant View() == ApplyAll(before, EntriesAt(m, visited))
        invariant updated == Updated(before, EntriesAt(m, visited))
        decreases rest
      {
        var k :| k in rest;
        var entry := m[k];
        VisitOneMore(visited, m, rest, k);
        Snoc(before, EntriesAt(m, visited), entry);
        visited := visited + [k];
        rest := rest - {k};
        var accepted := ApplyEntry(entry);
        if accepted {
          updated := updated + [entry.key];
        }
      }
      assert m - {} == m;
    }
  }

  ghost function DeltaOf(m: map<Key, Entry>, since: Clock): map<Key, Entry> {
    Rooms.Delta(Room(m, map[]), since)
  }

  lemma DeltaGrows(m: map<Key, Entry>, rest: set<Key>, k: Key, since: Clock)
    requires rest <= m.Keys && k in rest
    ensures k !in DeltaOf(m - rest, since)
    ensures DeltaOf(m - (rest - {k}), since) ==
      if NewFor(m[k], since) then DeltaOf(m - rest, since)[k := m[k]] else DeltaOf(m - rest, since)
  {
  }

  lemma ListsExtended(s: seq<Entry>, m: map<Key, Entry>, k: Key, e: Entry)
    requires Lists(s, m) && k !in m && e.key == k
    ensures Lists(s + [e], m[k := e])
  {
    var t := s + [e];
    forall x | x in m ensures m[x] in t {
      assert m[x] in s;
    }
    assert t[|s|] == e;
  }

  /** The room a snapshot is a picture of. */
  ghost function Pictured(snapshot: StateSnapshot): Room {
    Room(snapshot.entries, snapshot.clock)
  }

  /**
   A new room restored from a snapshot: exactly its entries, all reported, under the join of
   their clocks, which is the snapshot's clock exactly when that was no more than this join.
   */
  ghost predicate IsRestored(snapshot: StateSnapshot, r: Room, updated: seq<Key>) {
    && r.entries == snapshot.entries
    && (forall k :: k in updated <==> k in snapshot.entries)
    && Exact(r)
    && Leq(r.clock, snapshot.clock)
    && (Same(r.clock, snapshot.clock) <==> Exact(Pictured(snapshot)))
  }

  /** Replaying a room's snapshot into a new room, in whatever order its map gives, restores it. */
  lemma RestoredRoom(snapshot: StateSnapshot, visited: seq<Key>)
    requires WellFormed(Pictured(snapshot)) && Visits(visited, snapshot.entries)
    ensures var s := EntriesAt(snapshot.entries, visited);
      IsRestored(snapshot, ApplyAll(EMPTY_ROOM, s), Updated(EMPTY_ROOM, s))
  {
    var r, s := Pictured(snapshot), EntriesAt(snapshot.entries, visited);
    VisitLists(snapshot.entries, visited);
    SnapshotRoundTrip(r, s);
    RestoredClockIsSameWhenExact(r, s);
    RestoredIsExact(r, s);
  }

  /**
   A snapshot merged into a room that was there: no key is lost, each entry is the one held or one
   of the snapshot's, every key of the snapshot's entries is held, and the clock is the join of
   the old clock and the clocks of the snapshot's entries.
   */
  ghost predicate IsMerged(before: Room, snapshot: StateSnapshot, after: Room) {
    && (forall k :: k in after.entries <==> k in before.entries || SnapshotHas(snapshot, k))
    && (forall k :: k in after.entries ==>
          || (k in before.entries && after.entries[k] == before.entries[k])
          || (exists i :: i in snapshot.entries && snapshot.entries[i].key == k && snapshot.entries[i] == after.entries[k]))
    && IsLub(after.clock, {before.clock} + set i | i in snapshot.entries :: snapshot.entries[i].clock)
  }

  ghost predicate SnapshotHas(snapshot: StateSnapshot, k: Key) {
    exists i :: i in snapshot.entries && snapshot.entries[i].key == k
  }

  /** In a snapshot whose entries sit under their own keys, each is resolved against the entry held. */
  ghost predicate IsResolved(before: Room, snapshot: StateSnapshot, after: Room, updated: seq<Key>) {
    forall k :: k in snapshot.entries ==>
      var e := snapshot.entries[k];
      && k in after.entries
      && (k in updated <==> (k in before.entries ==> Beats(e, before.entries[k])))
      && after.entries[k] == if k in updated then e else before.entries[k]
  }

  lemma EntriesVisited(m: map<Key, Entry>, visited: seq<Key>, e: Entry)
    requires Visits(visited, m)
    ensures e in EntriesAt(m, visited) <==> exists i :: i in m && m[i] == e
  {
    var s := EntriesAt(m, visited);
    if e in s {
      var n :| 0 <= n < |s| && s[n] == e;
      assert visited[n] in m && m[visited[n]] == e;
    }
    if i :| i in m && m[i] == e {
      var n :| 0 <= n < |visited| && visited[n] == i;
      assert s[n] == e;
    }
  }

  lemma MergedKey(before: Room, snapshot: StateSnapshot, visited: seq<Key>, k: Key)
    requires WellFormed(before) && Visits(visited, snapshot.entries)
    ensures var after := ApplyAll(before, EntriesAt(snapshot.entries, visited));
      && (k in after.entries <==> k in before.entries || SnapshotHas(snapshot, k))
      && (k in after.entries ==>
            || (k in before.entries && after.entries[k] == before.entries[k])
            || (exists i :: i in snapshot.entries && snapshot.entries[i].key == k && snapshot.entries[i] == after.entries[k]))
  {
    var s := EntriesAt(snapshot.entries, visited);
    var after := ApplyAll(before, s);
    Survivor(before, s, k);
    hide ApplyAll, EntriesAt, Visits, WellFormed;
    if i :| i in snapshot.entries && snapshot.entries[i].key == k {
      EntriesVisited(snapshot.entries, visited, snapshot.entries[i]);
      assert snapshot.entries[i] in Contenders(before, s, k);
    }
    if k in after.entries && after.entries[k] in s {
      EntriesVisited(snapshot.entries, visited, after.entries[k]);
    }
    if y :| y in Contenders(before, s, k) && y in s {
      EntriesVisited(snapshot.entries, visited, y);
    }
  }

  lemma MergedClock(before: Room, snapshot: StateSnapshot, visited: seq<Key>)
    requires WellFormed(before) && Visits(visited, snapshot.entries)
    ensures IsLub(ApplyAll(before, EntriesAt(snapshot.entries, visited)).clock,
                  {before.clock} + set i | i in snapshot.entries :: snapshot.entries[i].clock)
  {
    var s := EntriesAt(snapshot.entries, visited);
    AggregateClockLaw(before, s);
    hide ApplyAll, WellFormed, IsLub;
    assert ReceivedClocks(before, s) == {before.clock} + set i | i in snapshot.entries :: snapshot.entries[i].clock by {
      hide EntriesAt, Visits;
      forall i | i in snapshot.entries ensures snapshot.entries[i].clock in ReceivedClocks(before, s) {
        EntriesVisited(snapshot.entries, visited, snapshot.entries[i]);
      }
      forall e | e in s ensures exists i :: i in snapshot.entries && snapshot.entries[i] == e {
        EntriesVisited(snapshot.entries, visited, e);
      }
    }
  }

  lemma MergedRoom(before: Room, snapshot: StateSnapshot, visited: seq<Key>)
    requires WellFormed(before) && Visits(visited, snapshot.entries)
    ensures IsMerged(before, snapshot, ApplyAll(before, EntriesAt(snapshot.entries, visited)))
  {
    hide ApplyAll, EntriesAt, WellFormed, IsLub, SnapshotHas;
    var after := ApplyAll(before, EntriesAt(snapshot.entries, visited));
    MergedClock(before, snapshot, visited);
    forall k
      ensures k in after.entries <==> k in before.entries || SnapshotHas(snapshot, k)
      ensures k in after.entries ==>
        || (k in before.entries && after.entries[k] == before.entries[k])
        || (exists i :: i in snapshot.entries && snapshot.entries[i].key == k && snapshot.entries[i] == after.entries[k])
    {
      MergedKey(before, snapshot, visited, k);
    }
  }

  lemma ResolvedRoom(before: Room, snapshot: StateSnapshot, visited: seq<Key>)
    requires WellFormed(before) && Visits(visited, snapshot.entries)
    requires forall i :: i in snapshot.entries ==> snapshot.entries[i].key == i
    ensures var s := EntriesAt(snapshot.entries, visited);
      IsResolved(before, snapshot, ApplyAll(before, s), Updated(before, s))
  {
    hide ApplyAll, Updated, EntriesAt, WellFormed, Beats;
    var s := EntriesAt(snapshot.entries, visited);
    forall k | k in snapshot.entries
      ensures k in ApplyAll(before, s).entries
      ensures k in Updated(before, s) <==> (k in before.entries ==> Beats(snapshot.entries[k], before.entries[k]))
      ensures ApplyAll(before, s).entries[k] == if k in Updated(before, s) then snapshot.entries[k] else before.entries[k]
    {
      ResolvedKey(before, snapshot, visited, k);
    }
  }

  lemma ResolvedKey(before: Room, snapshot: StateSnapshot, visited: seq<Key>, k: Key)
    requires WellFormed(before) && Visits(visited, snapshot.entries) && k in snapshot.entries
    requires forall i :: i in snapshot.entries ==> snapshot.entries[i].key == i
    ensures var s, e := EntriesAt(snapshot.entries, visited), snapshot.entries[k];
      && k in ApplyAll(before, s).entries
      && (k in Updated(before, s) <==> (k in before.entries ==> Beats(e, before.entries[k])))
      && ApplyAll(before, s).entries[k] == if k in Updated(before, s) then e else before.entries[k]
  {
    var s := EntriesAt(snapshot.entries, visited);
    VisitLists(snapshot.entries, visited);
    hide ApplyAll, Updated, EntriesAt, WellFormed, Beats;
    assert snapshot.entries[k] in s;
    DistinctKeys(before, s, k);
  }

  ghost function RoomOrNew(views: map<RoomId, Room>, id: RoomId): Room {
    if id in views then views[id] else EMPTY_ROOM
  }

  /** What replaying a snapshot means for all the rooms. */
  lemma RestoredViews(
      before: map<RoomId, Room>, snapshot: StateSnapshot, visited: seq<Key>, after: map<RoomId, Room>, updated: seq<Key>)
    requires (forall id :: id in before ==> WellFormed(before[id])) && Visits(visited, snapshot.entries)
    requires var s := EntriesAt(snapshot.entries, visited);
      && after == before[snapshot.roomId := ApplyAll(RoomOrNew(before, snapshot.roomId), s)]
      && updated == Updated(RoomOrNew(before, snapshot.roomId), s)
    ensures WellFormed(Pictured(snapshot)) && snapshot.roomId !in before ==>
      IsRestored(snapshot, after[snapshot.roomId], updated)
    ensures after.Keys == before.Keys + {snapshot.roomId}
    ensures forall id :: id in before && id != snapshot.roomId ==> after[id] == before[id]
    ensures snapshot.roomId in before ==> IsMerged(before[snapshot.roomId], snapshot, after[snapshot.roomId])
    ensures snapshot.roomId in before && (forall i :: i in snapshot.entries ==> snapshot.entries[i].key == i) ==>
      IsResolved(before[snapshot.roomId], snapshot, after[snapshot.roomId], updated)
  {
    hide ApplyAll, Updated, WellFormed, IsRestored, IsMerged, IsResolved, EntriesAt;
    if WellFormed(Pictured(snapshot)) {
      RestoredRoom(snapshot, visited);
    }
    if snapshot.roomId in before {
      MergedRoom(before[snapshot.roomId], snapshot, visited);
      if forall i :: i in snapshot.entries ==> snapshot.entries[i].key == i {
        ResolvedRoom(before[snapshot.roomId], snapshot, visited);
      }
    }
  }

  class RoomStateSync {
    var rooms: map<RoomId, RoomState>

    /** Rooms do not share state, and each is well formed. */
    ghost predicate Valid()
      reads this, rooms.Values
    {
      && (forall id :: id in rooms ==> rooms[id].roomId == id && WellFormed(rooms[id].View()))
      && (forall a, b :: a in rooms && b in rooms && a != b ==> rooms[a] != rooms[b])
    }

    ghost function Views(): map<RoomId, Room>
      reads this, rooms.Values
    {
      map id | id in rooms :: rooms[id].View()
    }

    lemma ViewsWellFormed()
      requires Valid()
      ensures forall id :: id in Views() ==> WellFormed(Views()[id])
    {
    }

    /** Changing one room keeps the others. */
    twostate lemma OneRoomChanged(id: RoomId)
      requires old(Valid()) && rooms == old(rooms) && id in rooms
      requires WellFormed(rooms[id].View())
      requires forall other :: other in rooms && other != id ==> unchanged(rooms[other])
      ensures Valid()
      ensures Views() == old(Views())[id := rooms[id].View()]
    {
    }

    /** Adding a room keeps the others. */
    twostate lemma RoomAdded(id: RoomId)
      requires old(Valid()) && id !in old(rooms) && id in rooms
      requires fresh(rooms[id]) && rooms[id].roomId == id && WellFormed(rooms[id].View())
      requires rooms == old(rooms)[id := rooms[id]]
      requires forall other :: other in old(rooms) ==> unchanged(old(rooms)[other])
      ensures Valid() && fresh(rooms.Values - old(rooms.Values))
      ensures Views() == old(Views())[id := rooms[id].View()]
    {
    }

    constructor ()
      ensures Valid() && Views() == map[]
    {
      rooms := map[];
    }

    /** Idempotent. */
    method InitRoom(roomId: RoomId)
      requires Valid()
      modifies this
      ensures Valid() && fresh(rooms.Values - old(rooms.Values))
      ensures Views() == old(Views())[roomId := RoomOrNew(old(Views()), roomId)]
      ensures roomId in old(rooms) ==> rooms == old(rooms) && Views() == old(Views())
      ensures roomId !in old(rooms) ==>
        && Views().Keys == old(Views()).Keys + {roomId}
        && (forall id :: id in old(Views()) ==> Views()[id] == old(Views())[id])
        && Views()[roomId].entries == map[] && forall a :: Clocks.Get(Views()[roomId].clock, a) == 0
    {
      if roomId !in rooms {
        var room := new RoomState(roomId);
        rooms := rooms[roomId := room];
        RoomAdded(roomId);
      }
    }

    method RemoveRoom(roomId: RoomId) returns (removed: bool)
      requires Valid()
      modifies this
      ensures Valid()
      ensures removed <==> roomId in old(Views())
      ensures Views() == old(Views()) - {roomId}
    {
      removed := roomId in rooms;
      rooms := rooms - {roomId};
    }

    /** Builds the entry of a local write: a clone of the room's clock, ticked. */
    method NewEntry(clock: Clock, agent: Agent, key: Key, value: Value, now: Time) returns (entry: Entry)
      ensures entry == Entry(key, value, agent, Ticked(clock, agent), now)
    {
      var entryClock := new VectorClock.From(clock);
      var tick := entryClock.Tick(agent);
      entry := Entry(key, value, agent, entryClock.clocks, now);
    }

    /** A local write is always accepted: reading the key back yields the entry returned. */
    method Set(roomId: RoomId, agent: Agent, key: Key, value: Value, now: Time) returns (r: Result<Entry>)
      requires Valid()
      modifies rooms.Values
      ensures Valid() && rooms == old(rooms)
      ensures roomId !in rooms ==> r == Err(RoomNotFound(roomId)) && Views() == old(Views())
      ensures roomId in rooms ==> r == Ok(Written(old(Views())[roomId], agent, key, value, now))
      ensures roomId in rooms ==> Views() == old(Views())[roomId := Apply(old(Views())[roomId], r.value)]
      ensures roomId in rooms ==> Views()[roomId].entries == old(Views())[roomId].entries[key := r.value]
      ensures roomId in rooms ==> Same(Views()[roomId].clock, r.value.clock)
      ensures roomId in rooms ==>
        && r.value.key == key && r.value.value == value && r.value.author == agent && r.value.updatedAt == now
        && forall a :: Clocks.Get(r.value.clock, a) ==
             Clocks.Get(old(Views())[roomId].clock, a) + if a == agent then 1 else 0
    {
      if roomId !in rooms {
        return Err(RoomNotFound(roomId));
      }
      var room := rooms[roomId];
      ghost var views := Views();
      var entry := NewEntry(room.clock, agent, key, value, now);
      LocalWriteWins(views[roomId], agent, key, value, now);
      ApplyKeepsWellFormed(views[roomId], entry);
      var accepted := room.ApplyEntry(entry);
      OneRoomChanged(roomId);
      r := Ok(entry);
    }

    method Get(roomId: RoomId, key: Key) returns (r: Result<Entry>)
      requires Valid()
      ensures r ==
        if roomId !in Views() then Err(RoomNotFound(roomId))
        else if key !in Views()[roomId].entries then Err(KeyNotFound(key))
        else Ok(Views()[roomId].entries[key])
    {
      if roomId !in rooms {
        return Err(RoomNotFound(roomId));
      }
      var room := rooms[roomId];
      r := if key in room.entries then Ok(room.entries[key]) else Err(KeyNotFound(key));
    }

    method RoomClock(roomId: RoomId) returns (r: Result<Clock>)
      requires Valid()
      ensures r == if roomId in Views() then Ok(Views()[roomId].clock) else Err(RoomNotFound(roomId))
    {
      r := if roomId in rooms then Ok(rooms[roomId].clock) else Err(RoomNotFound(roomId));
    }

    /** The entries the given clock does not cover, once each, in the map's iteration order. */
    method BuildDelta(roomId: RoomId, agent: Agent, since: Clock) returns (r: Result<StateDelta>)
      requires Valid()
      ensures r.Ok? <==> roomId in Views()
      ensures r.Err? ==> r.error == RoomNotFound(roomId)
      ensures r.Ok? ==>
        && r.value.roomId == roomId && r.value.from == agent
        && Lists(r.value.entries, Rooms.Delta(Views()[roomId], since))
    {
      if roomId !in rooms {
        return Err(RoomNotFound(roomId));
      }
      var held := rooms[roomId].entries;
      var entries: seq<Entry> := [];
      var rest := held.Keys;
      while rest != {}
        invariant rest <= held.Keys
        invariant Lists(entries, DeltaOf(held - rest, since))
        decreases rest
      {
        var k :| k in rest;
        var clock := new VectorClock.From(held[k].clock);
        var verdict := clock.PartialCmp(since);
        DeltaGrows(held, rest, k, since);
        if verdict == After || verdict == Concurrent {
          ListsExtended(entries, DeltaOf(held - rest, since), k, held[k]);
          entries := entries + [held[k]];
        }
        rest := rest - {k};
      }
      assert held - {} == held;
      r := Ok(StateDelta(roomId, agent, entries));
    }

    /** Applies the entries in order and reports the keys of those accepted. */
    method ApplyDelta(delta: StateDelta) returns (r: Result<seq<Key>>)
      requires Valid()
      modifies rooms.Values
      ensures Valid() && rooms == old(rooms)
      ensures delta.roomId !in rooms ==> r == Err(RoomNotFound(delta.roomId)) && Views() == old(Views())
      ensures delta.roomId in rooms ==>
        && r == Ok(Updated(old(Views())[delta.roomId], delta.entries))
        && Views() == old(Views())[delta.roomId := ApplyAll(old(Views())[delta.roomId], delta.entries)]
    {
      if delta.roomId !in rooms {
        return Err(RoomNotFound(delta.roomId));
      }
      var room := rooms[delta.roomId];
      ghost var views := Views();
      StaysWellFormed(views[delta.roomId], delta.entries);
      var updated := room.ApplyEntries(delta.entries);
      OneRoomChanged(delta.roomId);
      r := Ok(updated);
    }

    method Snapshot(roomId: RoomId, now: Time) returns (r: Result<StateSnapshot>)
      requires Valid()
      ensures r ==
        if roomId in Views() then Ok(StateSnapshot(roomId, Views()[roomId].clock, Views()[roomId].entries, now))
        else Err(RoomNotFound(roomId))
      ensures r.Ok? ==> WellFormed(Pictured(r.value))
    {
      if roomId !in rooms {
        return Err(RoomNotFound(roomId));
      }
      var room := rooms[roomId];
      r := Ok(StateSnapshot(roomId, room.clock, room.entries, now));
    }

    method ReplaySnapshot(snapshot: StateSnapshot) returns (updated: seq<Key>, ghost visited: seq<Key>)
      requires Valid()
      modifies this, rooms.Values
      ensures Valid() && fresh(rooms.Values - old(rooms.Values))
      ensures Visits(visited, snapshot.entries)
      ensures updated == Updated(RoomOrNew(old(Views()), snapshot.roomId), EntriesAt(snapshot.entries, visited))
      ensures Views() == old(Views())[snapshot.roomId :=
        ApplyAll(RoomOrNew(old(Views()), snapshot.roomId), EntriesAt(snapshot.entries, visited))]
    {
      hide ApplyAll, Updated, WellFormed, EntriesAt, Visits;
      var id := snapshot.roomId;
      InitRoom(id);
      ghost var views := Views();
      assert views[id] == RoomOrNew(old(Views()), id);
      var room := rooms[id];
      label created:
      updated, visited := room.ReplayEntries(snapshot.entries);
      StaysWellFormed(views[id], EntriesAt(snapshot.entries, visited));
      OneRoomChanged@created(id);
    }

    /**
     Replays the snapshot's entries in the order its map happens to give, creating the room if
     need be; the snapshot's own clock is not used.  A new room is then restored, as `IsRestored` says.
     */
    method RestoreSnapshot(snapshot: StateSnapshot) returns (updated: seq<Key>, ghost visited: seq<Key>)
      requires Valid()
      modifies this, rooms.Values
      ensures Valid() && fresh(rooms.Values - old(rooms.Values))
      ensures Visits(visited, snapshot.entries)
      ensures updated == Updated(RoomOrNew(old(Views()), snapshot.roomId), EntriesAt(snapshot.entries, visited))
      ensures Views() == old(Views())[snapshot.roomId :=
        ApplyAll(RoomOrNew(old(Views()), snapshot.roomId), EntriesAt(snapshot.entries, visited))]
      ensures WellFormed(Pictured(snapshot)) && snapshot.roomId !in old(Views()) ==>
        IsRestored(snapshot, Views()[snapshot.roomId], updated)
      ensures Views().Keys == old(Views()).Keys + {snapshot.roomId}
      ensures forall id :: id in old(Views()) && id != snapshot.roomId ==> Views()[id] == old(Views())[id]
      ensures snapshot.roomId in old(Views()) ==>
        IsMerged(old(Views())[snapshot.roomId], snapshot, Views()[snapshot.roomId])
      ensures snapshot.roomId in old(Views()) && (forall i :: i in snapshot.entries ==> snapshot.entries[i].key == i) ==>
        IsResolved(old(Views())[snapshot.roomId], snapshot, Views()[snapshot.roomId], updated)
    {
      ghost var views := Views();
      ViewsWellFormed();
      hide Valid, ApplyAll, Updated, WellFormed, IsRestored, IsMerged, IsResolved, EntriesAt, Visits;
      updated, visited := ReplaySnapshot(snapshot);
      RestoredViews(views, snapshot, visited, Views(), updated);
    }
  }
}
