/**
 One room's replicated state (`p2p/src/room_state.rs`): last-writer-wins entries under an
 aggregate vector clock.  The functions here are the branches of `apply_entry` on values;
 the classes of `StateSync` update the same state in place.
 */
module Rooms {
  import opened Clocks
  import opened Times
  import Text

  type Key = string
  /** A JSON-encoded value, opaque to the sync layer. */
  type Value = string

  datatype Entry = Entry(key: Key, value: Value, author: Agent, clock: Clock, updatedAt: Time)

  datatype Room = Room(entries: map<Key, Entry>, clock: Clock)

  const EMPTY_ROOM := Room(map[], map[])

  // ---------------------------------------------------------------------------
  // Resolution of two entries for one key
  // ---------------------------------------------------------------------------

  /** The tiebreak: later wall clock, then greater author. */
  predicate Newer(e: Entry, x: Entry) {
    e.updatedAt > x.updatedAt || (e.updatedAt == x.updatedAt && Text.Less(x.author, e.author))
  }

  /** `e` replaces `x`: it is causally later, or concurrent and newer. */
  ghost predicate Beats(e: Entry, x: Entry) {
    match Compare(e.clock, x.clock)
    case After => true
    case Concurrent => Newer(e, x)
    case Before => false
    case Equal => false
  }

  lemma NewerIsStrictOrder(a: Entry, b: Entry, c: Entry)
    ensures !(Newer(a, b) && Newer(b, a))
    ensures Newer(a, b) && Newer(b, c) ==> Newer(a, c)
    ensures Newer(a, b) || Newer(b, a) || (a.updatedAt == b.updatedAt && a.author == b.author)
  {
    Text.LessAsymmetric(a.author, b.author);
    Text.LessTotal(a.author, b.author);
    if Text.Less(c.author, b.author) && Text.Less(b.author, a.author) {
      Text.LessTransitive(c.author, b.author, a.author);
    }
  }

  lemma BeatsIsAsymmetric(a: Entry, b: Entry)
    requires Beats(a, b)
    ensures !Beats(b, a)
  {
    CompareIsPartialOrder(a.clock, b.clock, a.clock);
    NewerIsStrictOrder(a, b, a);
  }

  // ---------------------------------------------------------------------------
  // Applying entries
  // ---------------------------------------------------------------------------

  ghost function Apply(r: Room, e: Entry): Room {
    if e.key !in r.entries then
      Room(r.entries[e.key := e], Join(r.clock, e.clock))
    else
      match Compare(e.clock, r.entries[e.key].clock)
      case After => Room(r.entries[e.key := e], Join(r.clock, e.clock))
      case Concurrent =>
        if Newer(e, r.entries[e.key]) then Room(r.entries[e.key := e], Join(r.clock, e.clock))
        else Room(r.entries, Join(r.clock, e.clock))
      case Before => r
      case Equal => r
  }

  ghost predicate Accepts(r: Room, e: Entry) {
    e.key in r.entries ==> Beats(e, r.entries[e.key])
  }

  ghost function ApplyAll(r: Room, s: seq<Entry>): Room {
    if s == [] then r else Apply(ApplyAll(r, s[..|s| - 1]), s[|s| - 1])
  }

  /** The keys `apply_delta` and `restore_snapshot` report: those of the accepted entries, in order. */
  ghost function Updated(r: Room, s: seq<Entry>): seq<Key> {
    if s == [] then [] else
      var before := s[..|s| - 1];
      var last := s[|s| - 1];
      Updated(r, before) + if Accepts(ApplyAll(r, before), last) then [last.key] else []
  }

  /** The invariant of every room: entries sit under their own key and the room clock bounds them. */
  ghost predicate WellFormed(r: Room) {
    forall k :: k in r.entries ==> r.entries[k].key == k && Leq(r.entries[k].clock, r.clock)
  }

  /** What `build_delta` keeps: entries whose clock the given clock does not already cover. */
  ghost predicate NewFor(e: Entry, since: Clock) {
    Compare(e.clock, since) in {After, Concurrent}
  }

  lemma NewForMeaning(e: Entry, since: Clock)
    ensures NewFor(e, since) <==> !Leq(e.clock, since)
  {
  }

  /** `s` lists the values of `m` once each, in some order. */
  ghost predicate Lists(s: seq<Entry>, m: map<Key, Entry>) {
    && (forall i :: 0 <= i < |s| ==> s[i].key in m && m[s[i].key] == s[i])
    && (forall k :: k in m ==> m[k] in s)
    && (forall i, j :: 0 <= i < j < |s| ==> s[i].key != s[j].key)
  }

  ghost function Delta(r: Room, since: Clock): map<Key, Entry> {
    map k | k in r.entries && NewFor(r.entries[k], since) :: r.entries[k]
  }

  /**
   How two concurrent writes to a key are resolved, in times and authors alone: the later time wins,
   and between equal times the author that comes after the other.
   */
  lemma LastWriterWins(r: Room, e: Entry)
    requires e.key in r.entries && Compare(e.clock, r.entries[e.key].clock) == Concurrent
    ensures var x := r.entries[e.key];
      && (e.updatedAt > x.updatedAt ==> Apply(r, e).entries == r.entries[e.key := e])
      && (e.updatedAt < x.updatedAt ==> Apply(r, e).entries == r.entries)
      && (e.updatedAt == x.updatedAt && Text.Less(x.author, e.author) ==> Apply(r, e).entries == r.entries[e.key := e])
      && (e.updatedAt == x.updatedAt && !Text.Less(x.author, e.author) ==> Apply(r, e).entries == r.entries)
  {
  }

  lemma ApplyKeepsWellFormed(r: Room, e: Entry)
    requires WellFormed(r)
    ensures WellFormed(Apply(r, e))
    ensures Same(Apply(r, e).clock, Join(r.clock, e.clock))
    ensures Leq(r.clock, Apply(r, e).clock) && Leq(e.clock, Apply(r, e).clock)
    ensures Apply(r, e).entries == if Accepts(r, e) then r.entries[e.key := e] else r.entries
  {
    var r' := Apply(r, e);
    JoinIsLub(r.clock, e.clock);
    if e.key in r.entries && Leq(e.clock, r.entries[e.key].clock) {
      LeqTransitive(e.clock, r.entries[e.key].clock, r.clock);
      JoinLaws(e.clock, r.clock, r.clock);
      JoinLaws(r.clock, e.clock, r.clock);
      assert r' == r;
    }
    forall k | k in r'.entries ensures Leq(r'.entries[k].clock, r'.clock) {
      if k in r.entries && r'.entries[k] == r.entries[k] {
        LeqTransitive(r.entries[k].clock, r.clock, r'.clock);
      }
    }
  }
}
