/**
 The in-memory social store of the gateway (`gateway/src/main.rs`): accounts, communities with
 their members, events, broadcasts and feeds.  Each request is a function from store to store
 and answer; the class at the end performs the same requests on its fields.
 */
module Social {
  import opened Slug
  import opened Times
  import opened Wrappers

  type UserId = nat
  type CommunityId = nat

  datatype Visibility = Open | InviteOnly

  datatype User = User(id: UserId, username: string, displayName: string, createdAt: Time)

  datatype Community = Community(
    id: CommunityId, slug: string, name: string, owner: UserId, visibility: Visibility, createdAt: Time)

  datatype MeshEvent = MeshEvent(
    id: nat, community: CommunityId, creator: UserId, title: string, startsAt: Time, description: Option<string>,
    createdAt: Time)

  datatype Broadcast = Broadcast(
    id: nat, sender: UserId, communities: seq<CommunityId>, message: string, createdAt: Time)

  datatype Feed = Feed(communities: set<Community>, events: seq<MeshEvent>, broadcasts: seq<Broadcast>)

  datatype Error =
    | InvalidUsername | UsernameTaken | UserNotFound
    | InvalidSlug | SlugTaken | CommunityNotFound(id: CommunityId) | InviteRequired
    | NotMember(id: CommunityId) | InvalidTargets

  type Result<+T> = Wrappers.Result<T, Error>

  datatype Store = Store(
    nextUserId: nat, nextCommunityId: nat, nextEventId: nat, nextBroadcastId: nat,
    users: map<UserId, User>,
    usersByUsername: map<string, UserId>,
    communities: map<CommunityId, Community>,
    memberships: map<CommunityId, set<UserId>>,
    events: seq<MeshEvent>,
    broadcasts: seq<Broadcast>)

  const EMPTY_STORE := Store(0, 0, 0, 0, map[], map[], map[], map[], [], [])

  // ---------------------------------------------------------------------------
  // Requests
  // ---------------------------------------------------------------------------

  /** The length of a text in UTF-8 bytes. */
  function Utf8Length(s: string): nat {
    if s == [] then 0
    else
      var c := s[0] as int;
      (if c < 0x80 then 1 else if c < 0x800 then 2 else if c < 0x1_0000 then 3 else 4) + Utf8Length(s[1..])
  }

  function Username(u: Unicode, raw: string): string {
    u.lower(Trim(u, raw))
  }

  function RegisterAccount(u: Unicode, s: Store, raw: string, displayName: Option<string>, now: Time): (Store, Result<User>) {
    var username := Username(u, raw);
    if Utf8Length(username) < 3 then (s, Err(InvalidUsername))
    else if username in s.usersByUsername then (s, Err(UsernameTaken))
    else
      var id := s.nextUserId + 1;
      var shown := Trim(u, if displayName.Some? then displayName.value else username);
      var user := User(id, username, shown, now);
      (s.(nextUserId := id, usersByUsername := s.usersByUsername[username := id], users := s.users[id := user]), Ok(user))
  }

  predicate SlugIsTaken(s: Store, slug: string) {
    exists c :: c in s.communities && s.communities[c].slug == slug
  }

  function AddCommunity(s: Store, community: Community): Store {
    s.(nextCommunityId := community.id,
       communities := s.communities[community.id := community],
       memberships := s.memberships[community.id := MembersOf(s, community.id) + {community.owner}])
  }

  function CreateCommunity(u: Unicode, s: Store, owner: UserId, name: string, slug: Option<string>, visibility: Visibility, now: Time)
    : (Store, Result<Community>)
  {
    if owner !in s.users then (s, Err(UserNotFound))
    else
      var chosen := Slugify(u, if slug.Some? then slug.value else name);
      if chosen == [] then (s, Err(InvalidSlug))
      else if SlugIsTaken(s, chosen) then (s, Err(SlugTaken))
      else
        var community := Community(s.nextCommunityId + 1, chosen, name, owner, visibility, now);
        (AddCommunity(s, community), Ok(community))
  }

  function MembersOf(s: Store, c: CommunityId): set<UserId> {
    if c in s.memberships then s.memberships[c] else {}
  }

  function JoinCommunity(s: Store, id: CommunityId, user: UserId): (Store, Result<()>) {
    if user !in s.users then (s, Err(UserNotFound))
    else if id !in s.communities then (s, Err(CommunityNotFound(id)))
    else if s.communities[id].visibility == InviteOnly && user != s.communities[id].owner then (s, Err(InviteRequired))
    else (Admit(s, id, user), Ok(()))
  }

  function CreateEvent(s: Store, id: CommunityId, creator: UserId, title: string, startsAt: Time, description: Option<string>, now: Time)
    : (Store, Result<MeshEvent>)
  {
    if id !in s.memberships then (s, Err(CommunityNotFound(id)))
    else if creator !in s.memberships[id] then (s, Err(NotMember(id)))
    else
      var event := MeshEvent(s.nextEventId + 1, id, creator, title, startsAt, description, now);
      (s.(nextEventId := event.id, events := s.events + [event]), Ok(event))
  }

  /** The first target, in order, that a sender may not broadcast to. */
  function FirstBadTarget(s: Store, sender: UserId, targets: seq<CommunityId>): Option<Error> {
    if targets == [] then None
    else if targets[0] !in s.memberships then Some(CommunityNotFound(targets[0]))
    else if sender !in s.memberships[targets[0]] then Some(NotMember(targets[0]))
    else FirstBadTarget(s, sender, targets[1..])
  }

  function CreateBroadcast(s: Store, sender: UserId, targets: seq<CommunityId>, message: string, now: Time)
    : (Store, Result<Broadcast>)
  {
    if sender !in s.users then (s, Err(UserNotFound))
    else if targets == [] then (s, Err(InvalidTargets))
    else
      match FirstBadTarget(s, sender, targets)
      case Some(error) => (s, Err(error))
      case None =>
        var broadcast := Broadcast(s.nextBroadcastId + 1, sender, targets, message, now);
        (s.(nextBroadcastId := broadcast.id, broadcasts := s.broadcasts + [broadcast]), Ok(broadcast))
  }

  function Joined(s: Store, user: UserId): set<CommunityId> {
    set c | c in s.memberships && user in s.memberships[c]
  }

  function EventsIn(events: seq<MeshEvent>, joined: set<CommunityId>): seq<MeshEvent> {
    if events == [] then []
    else (if events[0].community in joined then [events[0]] else []) + EventsIn(events[1..], joined)
  }

  predicate Reaches(b: Broadcast, joined: set<CommunityId>) {
    exists c :: c in b.communities && c in joined
  }

  function BroadcastsIn(broadcasts: seq<Broadcast>, joined: set<CommunityId>): seq<Broadcast> {
    if broadcasts == [] then []
    else (if Reaches(broadcasts[0], joined) then [broadcasts[0]] else []) + BroadcastsIn(broadcasts[1..], joined)
  }

  function GetFeed(s: Store, user: UserId): Result<Feed> {
    if user !in s.users then Err(UserNotFound)
    else
      var joined := Joined(s, user);
      Ok(Feed(
        set c | c in joined && c in s.communities :: s.communities[c],
        EventsIn(s.events, joined),
        BroadcastsIn(s.broadcasts, joined)))
  }

  // ---------------------------------------------------------------------------
  // The invariant
  // ---------------------------------------------------------------------------

  /** Usernames and users index each other. */
  ghost predicate AccountsOk(s: Store) {
    && (forall n :: n in s.usersByUsername ==>
          s.usersByUsername[n] in s.users && s.users[s.usersByUsername[n]].username == n)
    && (forall id :: id in s.users ==>
          && s.users[id].id == id && 1 <= id <= s.nextUserId
          && s.users[id].username in s.usersByUsername && s.usersByUsername[s.users[id].username] == id)
  }

  /** Memberships cover exactly the communities; owners are members, and the only ones if by invitation. */
  ghost predicate CommunitiesOk(s: Store) {
    && s.memberships.Keys == s.communities.Keys
    && (forall c :: c in s.communities ==>
          && s.communities[c].id == c && 1 <= c <= s.nextCommunityId
          && s.communities[c].owner in s.memberships[c]
          && s.memberships[c] <= s.users.Keys
          && (s.communities[c].visibility == InviteOnly ==> s.memberships[c] == {s.communities[c].owner}))
  }

  /** Stored slugs are nonempty slugs, and no two communities share one. */
  ghost predicate SlugsOk(s: Store) {
    && (forall c :: c in s.communities ==> s.communities[c].slug != [] && IsSlug(s.communities[c].slug))
    && (forall c, d :: c in s.communities && d in s.communities && c != d ==>
          s.communities[c].slug != s.communities[d].slug)
  }

  ghost predicate EventOk(s: Store, e: MeshEvent) {
    e.community in s.communities && e.community in s.memberships && e.creator in s.memberships[e.community]
  }

  ghost predicate BroadcastOk(s: Store, b: Broadcast) {
    && b.sender in s.users && b.communities != []
    && forall c :: c in b.communities ==> c in s.communities && c in s.memberships && b.sender in s.memberships[c]
  }

  /** Creators and senders are still members, and items are numbered in order. */
  ghost predicate ItemsOk(s: Store) {
    && |s.events| == s.nextEventId && |s.broadcasts| == s.nextBroadcastId
    && (forall i :: 0 <= i < |s.events| ==> s.events[i].id == i + 1 && EventOk(s, s.events[i]))
    && (forall i :: 0 <= i < |s.broadcasts| ==> s.broadcasts[i].id == i + 1 && BroadcastOk(s, s.broadcasts[i]))
  }

  ghost predicate Inv(s: Store) {
    AccountsOk(s) && CommunitiesOk(s) && SlugsOk(s) && ItemsOk(s)
  }

  datatype Request =
    | Register(username: string, displayName: Option<string>)
    | Create(owner: UserId, name: string, slug: Option<string>, visibility: Visibility)
    | Join(community: CommunityId, user: UserId)
    | Schedule(community: CommunityId, creator: UserId, title: string, startsAt: Time, description: Option<string>)
    | Announce(sender: UserId, targets: seq<CommunityId>, message: string)

  function Handle(u: Unicode, s: Store, r: Request, now: Time): Store {
    match r
    case Register(username, displayName) => RegisterAccount(u, s, username, displayName, now).0
    case Create(owner, name, slug, visibility) => CreateCommunity(u, s, owner, name, slug, visibility, now).0
    case Join(community, user) => JoinCommunity(s, community, user).0
    case Schedule(community, creator, title, startsAt, description) =>
      CreateEvent(s, community, creator, title, startsAt, description, now).0
    case Announce(sender, targets, message) => CreateBroadcast(s, sender, targets, message, now).0
  }

  /** The store after any sequence of requests, each with the time it arrived. */
  function After(u: Unicode, requests: seq<(Request, Time)>): Store {
    if requests == [] then EMPTY_STORE
    else
      var last := requests[|requests| - 1];
      Handle(u, After(u, requests[..|requests| - 1]), last.0, last.1)
  }

  // ---------------------------------------------------------------------------
  // Every request keeps it
  // ---------------------------------------------------------------------------

  lemma RegisterKeepsInv(u: Unicode, s: Store, raw: string, displayName: Option<string>, now: Time)
    requires Inv(s)
    ensures Inv(RegisterAccount(u, s, raw, displayName, now).0)
  {
    var s' := RegisterAccount(u, s, raw, displayName, now).0;
    forall i | 0 <= i < |s.broadcasts| ensures BroadcastOk(s', s'.broadcasts[i]) {
      assert BroadcastOk(s, s.broadcasts[i]);
    }
    forall i | 0 <= i < |s.events| ensures EventOk(s', s'.events[i]) {
      assert EventOk(s, s.events[i]);
    }
  }

  /** Members are never removed, so items stay in order. */
  lemma MoreMembersKeepItems(s: Store, s': Store)
    requires ItemsOk(s) && s'.events == s.events && s'.broadcasts == s.broadcasts && s'.users == s.users
    requires s'.nextEventId == s.nextEventId && s'.nextBroadcastId == s.nextBroadcastId
    requires s.communities.Keys <= s'.communities.Keys
    requires forall c :: c in s.memberships ==> c in s'.memberships && s.memberships[c] <= s'.memberships[c]
    ensures ItemsOk(s')
  {
    forall i | 0 <= i < |s.broadcasts| ensures BroadcastOk(s', s'.broadcasts[i]) {
      assert BroadcastOk(s, s.broadcasts[i]);
    }
    forall i | 0 <= i < |s.events| ensures EventOk(s', s'.events[i]) {
      assert EventOk(s, s.events[i]);
    }
  }

  lemma AddKeepsCommunities(s: Store, c: Community)
    requires CommunitiesOk(s) && c.id == s.nextCommunityId + 1 && c.owner in s.users
    ensures CommunitiesOk(AddCommunity(s, c))
  {
  }

  lemma AddKeepsSlugs(s: Store, c: Community)
    requires CommunitiesOk(s) && SlugsOk(s) && c.id == s.nextCommunityId + 1
    requires c.slug != [] && IsSlug(c.slug) && !SlugIsTaken(s, c.slug)
    ensures SlugsOk(AddCommunity(s, c))
  {
  }

  lemma CreateCommunityKeepsInv(u: Unicode, s: Store, owner: UserId, name: string, slug: Option<string>, visibility: Visibility, now: Time)
    requires Inv(s)
    ensures Inv(CreateCommunity(u, s, owner, name, slug, visibility, now).0)
  {
    hide CommunitiesOk, SlugsOk, ItemsOk, IsSlug, Slugify, SlugIsTaken;
    var (s', r) := CreateCommunity(u, s, owner, name, slug, visibility, now);
    if r.Ok? {
      OutputIsSlug(u, if slug.Some? then slug.value else name);
      AddKeepsCommunities(s, r.value);
      AddKeepsSlugs(s, r.value);
      MoreMembersKeepItems(s, s');
    }
  }

  function Admit(s: Store, id: CommunityId, user: UserId): Store {
    s.(memberships := s.memberships[id := MembersOf(s, id) + {user}])
  }

  lemma AdmitKeepsCommunities(s: Store, id: CommunityId, user: UserId)
    requires CommunitiesOk(s) && id in s.communities && user in s.users
    requires s.communities[id].visibility == InviteOnly ==> user == s.communities[id].owner
    ensures CommunitiesOk(Admit(s, id, user))
  {
  }

  lemma JoinKeepsInv(s: Store, id: CommunityId, user: UserId)
    requires Inv(s)
    ensures Inv(JoinCommunity(s, id, user).0)
  {
    var (s', r) := JoinCommunity(s, id, user);
    if r.Ok? {
      AdmitKeepsCommunities(s, id, user);
      MoreMembersKeepItems(s, s');
    }
  }

  lemma EventKeepsInv(s: Store, id: CommunityId, creator: UserId, title: string, startsAt: Time, description: Option<string>, now: Time)
    requires Inv(s)
    ensures Inv(CreateEvent(s, id, creator, title, startsAt, description, now).0)
  {
    var s' := CreateEvent(s, id, creator, title, startsAt, description, now).0;
    forall i | 0 <= i < |s'.broadcasts| ensures s'.broadcasts[i].id == i + 1 && BroadcastOk(s', s'.broadcasts[i]) {
      assert BroadcastOk(s, s.broadcasts[i]);
    }
    forall i | 0 <= i < |s'.events| ensures s'.events[i].id == i + 1 && EventOk(s', s'.events[i]) {
      if i < |s.events| {
        assert EventOk(s, s.events[i]);
      }
    }
  }

  /** A broadcast is allowed exactly when the sender is a member of every target. */
  lemma {:induction false} NoBadTargetMeans(s: Store, sender: UserId, targets: seq<CommunityId>)
    ensures FirstBadTarget(s, sender, targets).None? <==>
      forall c :: c in targets ==> c in s.memberships && sender in s.memberships[c]
  {
    if targets != [] {
      NoBadTargetMeans(s, sender, targets[1..]);
      assert targets[0] in targets;
      assert forall c :: c in targets <==> c == targets[0] || c in targets[1..];
    }
  }

  /** The sender may broadcast to a target. */
  predicate MayTarget(s: Store, sender: UserId, c: CommunityId) {
    c in s.memberships && sender in s.memberships[c]
  }

  /** What is reported is the first target that is not allowed: missing, or not joined. */
  lemma {:induction false} ReportsFirstBadTarget(s: Store, sender: UserId, targets: seq<CommunityId>) returns (n: nat)
    requires FirstBadTarget(s, sender, targets).Some?
    ensures n < |targets| && !MayTarget(s, sender, targets[n])
    ensures forall i :: 0 <= i < n ==> MayTarget(s, sender, targets[i])
    ensures FirstBadTarget(s, sender, targets).value ==
      if targets[n] !in s.memberships then CommunityNotFound(targets[n]) else NotMember(targets[n])
  {
    n := 0;
    if MayTarget(s, sender, targets[0]) {
      var m := ReportsFirstBadTarget(s, sender, targets[1..]);
      n := m + 1;
      forall i | 0 <= i < n ensures MayTarget(s, sender, targets[i]) {
        assert i > 0 ==> targets[i] == targets[1..][i - 1];
      }
    }
  }

  lemma BroadcastKeepsInv(s: Store, sender: UserId, targets: seq<CommunityId>, message: string, now: Time)
    requires Inv(s)
    ensures Inv(CreateBroadcast(s, sender, targets, message, now).0)
  {
    var s' := CreateBroadcast(s, sender, targets, message, now).0;
    NoBadTargetMeans(s, sender, targets);
    forall i | 0 <= i < |s'.events| ensures EventOk(s', s'.events[i]) {
      assert EventOk(s, s.events[i]);
    }
    forall i | 0 <= i < |s'.broadcasts| ensures s'.broadcasts[i].id == i + 1 && BroadcastOk(s', s'.broadcasts[i]) {
      if i < |s.broadcasts| {
        assert BroadcastOk(s, s.broadcasts[i]);
      }
    }
  }

  lemma HandleKeepsInv(u: Unicode, s: Store, r: Request, now: Time)
    requires Inv(s)
    ensures Inv(Handle(u, s, r, now))
  {
    match r
    case Register(username, displayName) => RegisterKeepsInv(u, s, username, displayName, now);
    case Create(owner, name, slug, visibility) => CreateCommunityKeepsInv(u, s, owner, name, slug, visibility, now);
    case Join(community, user) => JoinKeepsInv(s, community, user);
    case Schedule(community, creator, title, startsAt, description) =>
      EventKeepsInv(s, community, creator, title, startsAt, description, now);
    case Announce(sender, targets, message) => BroadcastKeepsInv(s, sender, targets, message, now);
  }

  /** The invariant holds after every sequence of requests, valid or not. */
  lemma {:induction false} IntegrityHolds(u: Unicode, requests: seq<(Request, Time)>)
    ensures Inv(After(u, requests))
  {
    if requests != [] {
      IntegrityHolds(u, requests[..|requests| - 1]);
      var last := requests[|requests| - 1];
      HandleKeepsInv(u, After(u, requests[..|requests| - 1]), last.0, last.1);
    }
  }

  // ---------------------------------------------------------------------------
  // Nothing is forgotten
  // ---------------------------------------------------------------------------

  /** `t` holds all that `s` holds, unaltered; items keep their places. */
  ghost predicate Extends(t: Store, s: Store) {
    && (forall id :: id in s.users ==> id in t.users && t.users[id] == s.users[id])
    && (forall n :: n in s.usersByUsername ==> n in t.usersByUsername && t.usersByUsername[n] == s.usersByUsername[n])
    && (forall c :: c in s.communities ==> c in t.communities && t.communities[c] == s.communities[c])
    && (forall c :: c in s.memberships ==> c in t.memberships && s.memberships[c] <= t.memberships[c])
    && s.events <= t.events && s.broadcasts <= t.broadcasts
  }

  lemma RegisterExtends(u: Unicode, s: Store, raw: string, displayName: Option<string>, now: Time)
    requires AccountsOk(s)
    ensures Extends(RegisterAccount(u, s, raw, displayName, now).0, s)
  {
  }

  lemma CreateExtends(u: Unicode, s: Store, owner: UserId, name: string, slug: Option<string>, visibility: Visibility, now: Time)
    requires CommunitiesOk(s)
    ensures Extends(CreateCommunity(u, s, owner, name, slug, visibility, now).0, s)
  {
    hide Slugify, SlugIsTaken;
  }

  lemma HandleExtends(u: Unicode, s: Store, r: Request, now: Time)
    requires Inv(s)
    ensures Extends(Handle(u, s, r, now), s)
  {
    hide AccountsOk, CommunitiesOk, SlugsOk, ItemsOk, RegisterAccount, CreateCommunity, FirstBadTarget;
    match r
    case Register(username, displayName) => RegisterExtends(u, s, username, displayName, now);
    case Create(owner, name, slug, visibility) => CreateExtends(u, s, owner, name, slug, visibility, now);
    case Join(_, _) =>
    case Schedule(_, _, _, _, _) =>
    case Announce(_, _, _) =>
  }

  lemma ExtendsTransitive(a: Store, b: Store, c: Store)
    requires Extends(a, b) && Extends(b, c)
    ensures Extends(a, c)
  {
  }

  /** Whatever was stored at any point of a run is still there, unaltered, at every later point. */
  lemma {:induction false} NothingIsForgotten(u: Unicode, requests: seq<(Request, Time)>, n: nat)
    requires n <= |requests|
    ensures Extends(After(u, requests), After(u, requests[..n]))
  {
    if n == |requests| {
      assert requests[..n] == requests;
    } else {
      var before, last := requests[..|requests| - 1], requests[|requests| - 1];
      assert before[..n] == requests[..n];
      NothingIsForgotten(u, before, n);
      IntegrityHolds(u, before);
      HandleExtends(u, After(u, before), last.0, last.1);
      hide Extends, Handle, Inv;
      ExtendsTransitive(After(u, requests), After(u, before), After(u, requests[..n]));
    }
  }

  // ---------------------------------------------------------------------------
  // What it gives
  // ---------------------------------------------------------------------------

  /** A username lookup that finds an id finds its user: the lookup's `expect` never fires. */
  lemma LookupNeverDangles(u: Unicode, requests: seq<(Request, Time)>, name: string)
    ensures var s := After(u, requests);
      name in s.usersByUsername ==> s.usersByUsername[name] in s.users && s.users[s.usersByUsername[name]].username == name
  {
    IntegrityHolds(u, requests);
  }

  /** No one but the owner is ever a member of an invite-only community. */
  lemma InviteOnlyHasOwnerAlone(u: Unicode, requests: seq<(Request, Time)>, c: CommunityId)
    ensures var s := After(u, requests);
      c in s.communities && s.communities[c].visibility == InviteOnly ==>
        c in s.memberships && s.memberships[c] == {s.communities[c].owner}
  {
    IntegrityHolds(u, requests);
  }

  /** All slugs ever stored are nonempty, well formed and pairwise distinct. */
  lemma SlugsStayDistinct(u: Unicode, requests: seq<(Request, Time)>, c: CommunityId, d: CommunityId)
    ensures var s := After(u, requests);
      c in s.communities && d in s.communities ==>
        && IsSlug(s.communities[c].slug) && s.communities[c].slug != []
        && (s.communities[c].slug == s.communities[d].slug ==> c == d)
  {
    IntegrityHolds(u, requests);
  }

  lemma {:induction false} EventsInMeans(events: seq<MeshEvent>, joined: set<CommunityId>, e: MeshEvent)
    ensures e in EventsIn(events, joined) <==> e in events && e.community in joined
  {
    if events != [] {
      EventsInMeans(events[1..], joined, e);
    }
  }

  lemma {:induction false} BroadcastsInMeans(broadcasts: seq<Broadcast>, joined: set<CommunityId>, b: Broadcast)
    ensures b in BroadcastsIn(broadcasts, joined) <==> b in broadcasts && Reaches(b, joined)
  {
    if broadcasts != [] {
      BroadcastsInMeans(broadcasts[1..], joined, b);
    }
  }

  /**
   A feed is exactly the communities the user is a member of, the events in them and the
   broadcasts to at least one of them.
   */
  lemma FeedIsExact(u: Unicode, requests: seq<(Request, Time)>, user: UserId, c: Community, e: MeshEvent, b: Broadcast)
    requires user in After(u, requests).users
    ensures var s := After(u, requests);
      var r := GetFeed(s, user);
      && r.Ok?
      && (c in r.value.communities <==> c.id in s.communities && s.communities[c.id] == c && user in MembersOf(s, c.id))
      && (e in r.value.events <==> e in s.events && user in MembersOf(s, e.community))
      && (b in r.value.broadcasts <==> b in s.broadcasts && exists t :: t in b.communities && user in MembersOf(s, t))
  {
    IntegrityHolds(u, requests);
    var s := After(u, requests);
    EventsInMeans(s.events, Joined(s, user), e);
    BroadcastsInMeans(s.broadcasts, Joined(s, user), b);
    assert forall t :: t in Joined(s, user) <==> user in MembersOf(s, t);
  }

  lemma {:induction false} EventsInOrder(events: seq<MeshEvent>, joined: set<CommunityId>)
    requires forall i, j :: 0 <= i < j < |events| ==> events[i].id < events[j].id
    ensures forall i, j :: 0 <= i < j < |EventsIn(events, joined)| ==>
      EventsIn(events, joined)[i].id < EventsIn(events, joined)[j].id
  {
    if events != [] {
      EventsInOrder(events[1..], joined);
      forall e | e in EventsIn(events[1..], joined) ensures events[0].id < e.id {
        EventsInMeans(events[1..], joined, e);
      }
    }
  }

  lemma {:induction false} BroadcastsInOrder(broadcasts: seq<Broadcast>, joined: set<CommunityId>)
    requires forall i, j :: 0 <= i < j < |broadcasts| ==> broadcasts[i].id < broadcasts[j].id
    ensures forall i, j :: 0 <= i < j < |BroadcastsIn(broadcasts, joined)| ==>
      BroadcastsIn(broadcasts, joined)[i].id < BroadcastsIn(broadcasts, joined)[j].id
  {
    if broadcasts != [] {
      BroadcastsInOrder(broadcasts[1..], joined);
      forall b | b in BroadcastsIn(broadcasts[1..], joined) ensures broadcasts[0].id < b.id {
        BroadcastsInMeans(broadcasts[1..], joined, b);
      }
    }
  }

  /** It lists each item once, in the order the items were made. */
  lemma FeedIsInOrder(u: Unicode, requests: seq<(Request, Time)>, user: UserId)
    requires user in After(u, requests).users
    ensures var r := GetFeed(After(u, requests), user);
      && r.Ok?
      && (forall i, j :: 0 <= i < j < |r.value.events| ==> r.value.events[i].id < r.value.events[j].id)
      && (forall i, j :: 0 <= i < j < |r.value.broadcasts| ==> r.value.broadcasts[i].id < r.value.broadcasts[j].id)
  {
    IntegrityHolds(u, requests);
    var s := After(u, requests);
    EventsInOrder(s.events, Joined(s, user));
    BroadcastsInOrder(s.broadcasts, Joined(s, user));
  }

  /** Hence it always includes what the user owns, created and sent. */
  lemma FeedIncludesOwn(u: Unicode, requests: seq<(Request, Time)>, user: UserId)
    requires user in After(u, requests).users
    ensures var s := After(u, requests);
      var r := GetFeed(s, user);
      && r.Ok?
      && (forall c :: c in s.communities && s.communities[c].owner == user ==> s.communities[c] in r.value.communities)
      && (forall e :: e in s.events && e.creator == user ==> e in r.value.events)
      && (forall b :: b in s.broadcasts && b.sender == user ==> b in r.value.broadcasts)
  {
    IntegrityHolds(u, requests);
    var s := After(u, requests);
    forall e | e in s.events && e.creator == user ensures e in GetFeed(s, user).value.events {
      EventsInMeans(s.events, Joined(s, user), e);
      var i :| 0 <= i < |s.events| && s.events[i] == e;
      assert EventOk(s, s.events[i]);
    }
    forall b | b in s.broadcasts && b.sender == user ensures b in GetFeed(s, user).value.broadcasts {
      BroadcastsInMeans(s.broadcasts, Joined(s, user), b);
      var i :| 0 <= i < |s.broadcasts| && s.broadcasts[i] == b;
      assert BroadcastOk(s, s.broadcasts[i]);
      assert b.communities[0] in b.communities && b.communities[0] in Joined(s, user);
    }
  }

  // ---------------------------------------------------------------------------
  // What each request does
  // ---------------------------------------------------------------------------

  /** A feed can be asked for by exactly the known users. */
  lemma FeedNeedsUser(s: Store, user: UserId)
    ensures GetFeed(s, user).Ok? <==> user in s.users
    ensures user !in s.users ==> GetFeed(s, user) == Err(UserNotFound)
  {
  }

  lemma AfterOneMore(u: Unicode, requests: seq<(Request, Time)>, r: Request, now: Time)
    ensures After(u, requests + [(r, now)]) == Handle(u, After(u, requests), r, now)
  {
    var all := requests + [(r, now)];
    assert all[..|all| - 1] == requests;
  }

  /** The bytes of a text: one for each character below 128, two below 2048, three below 65536, else four. */
  lemma {:induction false} Utf8LengthMeans(s: string, t: string)
    ensures Utf8Length(s + t) == Utf8Length(s) + Utf8Length(t)
    ensures |s| <= Utf8Length(s) <= 4 * |s|
    ensures (forall i :: 0 <= i < |s| ==> s[i] as int < 128) <==> Utf8Length(s) == |s|
    ensures |s| == 1 ==> (Utf8Length(s) <= 2 <==> s[0] as int < 2048) && (Utf8Length(s) <= 3 <==> s[0] as int < 65536)
  {
    if s == [] {
      assert s + t == t;
    } else {
      Utf8LengthMeans(s[1..], t);
      assert (s + t)[1..] == s[1..] + t;
    }
  }

  /**
   A username of three characters or more is never too short, but a shorter one passes too, since bytes
   are counted: exactly one character from 2048 up, or two that are not both below 128.
   */
  lemma ShortNamesThatPass(s: string)
    ensures |s| >= 3 ==> Utf8Length(s) >= 3
    ensures |s| < 3 && Utf8Length(s) >= 3 <==>
      (|s| == 1 && s[0] as int >= 2048) || (|s| == 2 && (s[0] as int >= 128 || s[1] as int >= 128))
  {
    Utf8LengthMeans(s, []);
    if |s| == 2 {
      assert s[1..] == [s[1]] && s[1..][1..] == [];
    }
  }

  /** What a registration does: exactly one user under a new id, or nothing. */
  lemma RegisterMeans(u: Unicode, requests: seq<(Request, Time)>, raw: string, displayName: Option<string>, now: Time)
    ensures var s := After(u, requests);
      var s' := After(u, requests + [(Register(raw, displayName), now)]);
      var name := u.lower(Trim(u, raw));
      var id := s.nextUserId + 1;
      var shown := match displayName case Some(text) => Trim(u, text) case None => Trim(u, name);
      if Utf8Length(name) >= 3 && forall other :: other in s.users ==> s.users[other].username != name
      then
        && id !in s.users
        && s' == s.(nextUserId := id, users := s.users[id := User(id, name, shown, now)],
                    usersByUsername := s.usersByUsername[name := id])
      else s' == s
  {
    AfterOneMore(u, requests, Register(raw, displayName), now);
    IntegrityHolds(u, requests);
    hide CommunitiesOk, SlugsOk, ItemsOk, Utf8Length, Trim, After;
  }

  /** What creating a community does: the given slug is used if there is one, and the owner is the first member. */
  lemma CreateMeans(
      u: Unicode, requests: seq<(Request, Time)>, owner: UserId, name: string, slug: Option<string>,
      visibility: Visibility, now: Time)
    ensures var s := After(u, requests);
      var s' := After(u, requests + [(Create(owner, name, slug, visibility), now)]);
      var chosen := match slug case Some(text) => Slugify(u, text) case None => Slugify(u, name);
      var id := s.nextCommunityId + 1;
      if owner in s.users && chosen != [] && forall c :: c in s.communities ==> s.communities[c].slug != chosen
      then
        && id !in s.communities
        && s' == s.(nextCommunityId := id,
                    communities := s.communities[id := Community(id, chosen, name, owner, visibility, now)],
                    memberships := s.memberships[id := {owner}])
      else s' == s
  {
    AfterOneMore(u, requests, Create(owner, name, slug, visibility), now);
    IntegrityHolds(u, requests);
    hide AccountsOk, SlugsOk, ItemsOk, Slugify, After;
    var s := After(u, requests);
    assert s.nextCommunityId + 1 !in s.memberships;
    assert {} + {owner} == {owner};
  }

  /** Who may join: any known user an open community, and only its owner one by invitation. */
  predicate MayJoin(s: Store, c: CommunityId, user: UserId) {
    && user in s.users && c in s.communities
    && (s.communities[c].visibility == Open || s.communities[c].owner == user)
  }

  /** What joining does: that user becomes a member of that community, and nothing else changes. */
  lemma JoinMeans(u: Unicode, requests: seq<(Request, Time)>, c: CommunityId, user: UserId, now: Time)
    ensures var s := After(u, requests);
      var s' := After(u, requests + [(Join(c, user), now)]);
      if MayJoin(s, c, user)
      then c in s.memberships && s' == s.(memberships := s.memberships[c := s.memberships[c] + {user}])
      else s' == s
  {
    AfterOneMore(u, requests, Join(c, user), now);
    IntegrityHolds(u, requests);
    hide AccountsOk, SlugsOk, ItemsOk, After;
  }

  /** What scheduling an event does: a member's event is appended, and nothing else changes. */
  lemma ScheduleMeans(
      u: Unicode, requests: seq<(Request, Time)>, c: CommunityId, creator: UserId, title: string, startsAt: Time,
      description: Option<string>, now: Time)
    ensures var s := After(u, requests);
      var s' := After(u, requests + [(Schedule(c, creator, title, startsAt, description), now)]);
      var id := s.nextEventId + 1;
      if c in s.communities && c in s.memberships && creator in s.memberships[c]
      then s' == s.(nextEventId := id, events := s.events + [MeshEvent(id, c, creator, title, startsAt, description, now)])
      else s' == s
  {
    AfterOneMore(u, requests, Schedule(c, creator, title, startsAt, description), now);
    IntegrityHolds(u, requests);
    hide AccountsOk, SlugsOk, ItemsOk, After;
  }

  /** What a broadcast does: it is appended if the sender is a member of every target, and nothing else changes. */
  lemma AnnounceMeans(
      u: Unicode, requests: seq<(Request, Time)>, sender: UserId, targets: seq<CommunityId>, message: string, now: Time)
    ensures var s := After(u, requests);
      var s' := After(u, requests + [(Announce(sender, targets, message), now)]);
      var id := s.nextBroadcastId + 1;
      if sender in s.users && targets != [] && forall c :: c in targets ==> c in s.memberships && sender in s.memberships[c]
      then s' == s.(nextBroadcastId := id, broadcasts := s.broadcasts + [Broadcast(id, sender, targets, message, now)])
      else s' == s
  {
    AfterOneMore(u, requests, Announce(sender, targets, message), now);
    NoBadTargetMeans(After(u, requests), sender, targets);
    hide After, FirstBadTarget;
  }

  /**
   Whoever may join and does takes part from then on: the feed holds the community and all its
   events, and an event by the new member is accepted and is in the feed too.
   */
  lemma JoinerTakesPart(
      u: Unicode, requests: seq<(Request, Time)>, c: CommunityId, user: UserId, now: Time,
      title: string, startsAt: Time, description: Option<string>, later: Time)
    requires MayJoin(After(u, requests), c, user)
    ensures var s' := After(u, requests + [(Join(c, user), now)]);
      var r := GetFeed(s', user);
      && r.Ok?
      && (c in s'.communities && s'.communities[c] in r.value.communities)
      && (forall e :: e in s'.events && e.community == c ==> e in r.value.events)
    ensures var s' := After(u, requests + [(Join(c, user), now)]);
      var s'' := After(u, requests + [(Join(c, user), now)] + [(Schedule(c, user, title, startsAt, description), later)]);
      var e := MeshEvent(s'.nextEventId + 1, c, user, title, startsAt, description, later);
      var r := GetFeed(s'', user);
      && s''.events == s'.events + [e]
      && r.Ok? && e in r.value.events
  {
    var joined := requests + [(Join(c, user), now)];
    var s, s' := After(u, requests), After(u, joined);
    var s'' := After(u, joined + [(Schedule(c, user, title, startsAt, description), later)]);
    JoinMeans(u, requests, c, user, now);
    ScheduleMeans(u, joined, c, user, title, startsAt, description, later);
    IntegrityHolds(u, joined);
    hide After, AccountsOk, SlugsOk, ItemsOk, EventsIn, BroadcastsIn;
    assert s'.communities[c].id == c;
    assert c in Joined(s', user) && c in Joined(s'', user);
    forall e | e in s'.events && e.community == c ensures e in GetFeed(s', user).value.events {
      EventsInMeans(s'.events, Joined(s', user), e);
    }
    var e := MeshEvent(s'.nextEventId + 1, c, user, title, startsAt, description, later);
    assert e in s''.events;
    EventsInMeans(s''.events, Joined(s'', user), e);
  }

  // ---------------------------------------------------------------------------
  // The store, updated in place
  // ---------------------------------------------------------------------------

  class SocialStore {
    const unicode: Unicode
    var nextUserId: nat
    var nextCommunityId: nat
    var nextEventId: nat
    var nextBroadcastId: nat
    var users: map<UserId, User>
    var usersByUsername: map<string, UserId>
    var communities: map<CommunityId, Community>
    var memberships: map<CommunityId, set<UserId>>
    var events: seq<MeshEvent>
    var broadcasts: seq<Broadcast>

    function View(): Store
      reads this
    {
      Store(nextUserId, nextCommunityId, nextEventId, nextBroadcastId, users, usersByUsername, communities,
            memberships, events, broadcasts)
    }

    constructor (unicode: Unicode)
      ensures this.unicode == unicode && View() == EMPTY_STORE
    {
      this.unicode := unicode;
      nextUserId, nextCommunityId, nextEventId, nextBroadcastId := 0, 0, 0, 0;
      users, usersByUsername, communities, memberships := map[], map[], map[], map[];
      events, broadcasts := [], [];
    }

    method Register(raw: string, displayName: Option<string>, now: Time) returns (r: Result<User>)
      modifies this
      ensures (View(), r) == RegisterAccount(unicode, old(View()), raw, displayName, now)
      ensures var name := unicode.lower(Trim(unicode, raw));
        var shown := match displayName case Some(text) => Trim(unicode, text) case None => Trim(unicode, name);
        r == if Utf8Length(name) < 3 then Err(InvalidUsername)
             else if name in old(usersByUsername) then Err(UsernameTaken)
             else Ok(User(old(nextUserId) + 1, name, shown, now))
      ensures r.Ok? ==>
        && users == old(users)[r.value.id := r.value]
        && usersByUsername == old(usersByUsername)[r.value.username := r.value.id]
      ensures r.Err? ==> View() == old(View())
    {
      var username := unicode.lower(Trim(unicode, raw));
      if Utf8Length(username) < 3 {
        return Err(InvalidUsername);
      }
      if username in usersByUsername {
        return Err(UsernameTaken);
      }
      nextUserId := nextUserId + 1;
      var shown := Trim(unicode, if displayName.Some? then displayName.value else username);
      var user := User(nextUserId, username, shown, now);
      usersByUsername := usersByUsername[username := user.id];
      users := users[user.id := user];
      r := Ok(user);
    }

    /** The stored index is trusted: under the invariant, the user it names is there. */
    method GetUserByUsername(name: string) returns (r: Result<User>)
      requires AccountsOk(View())
      ensures r == if unicode.lower(name) in usersByUsername
                   then Ok(users[usersByUsername[unicode.lower(name)]]) else Err(UserNotFound)
      ensures r.Ok? ==> r.value.username == unicode.lower(name)
    {
      var key := unicode.lower(name);
      if key !in usersByUsername {
        return Err(UserNotFound);
      }
      r := Ok(users[usersByUsername[key]]);
    }

    method Create(owner: UserId, name: string, slug: Option<string>, visibility: Visibility, now: Time)
      returns (r: Result<Community>)
      modifies this
      ensures (View(), r) == CreateCommunity(unicode, old(View()), owner, name, slug, visibility, now)
      ensures var chosen := match slug case Some(text) => Slugify(unicode, text) case None => Slugify(unicode, name);
        r == if owner !in old(users) then Err(UserNotFound)
             else if chosen == [] then Err(InvalidSlug)
             else if exists c :: c in old(communities) && old(communities)[c].slug == chosen then Err(SlugTaken)
             else Ok(Community(old(nextCommunityId) + 1, chosen, name, owner, visibility, now))
      ensures r.Ok? ==> communities == old(communities)[r.value.id := r.value]
      ensures r.Ok? ==> r.value.id in memberships && owner in memberships[r.value.id]
      ensures r.Err? ==> View() == old(View())
    {
      hide Slugify;
      if owner !in users {
        return Err(UserNotFound);
      }
      var chosen := match slug case Some(s) => Slugify(unicode, s) case None => Slugify(unicode, name);
      if chosen == [] {
        return Err(InvalidSlug);
      }
      if exists c :: c in communities && communities[c].slug == chosen {
        return Err(SlugTaken);
      }
      assert !SlugIsTaken(View(), chosen);
      hide SlugIsTaken;
      nextCommunityId := nextCommunityId + 1;
      var community := Community(nextCommunityId, chosen, name, owner, visibility, now);
      communities := communities[community.id := community];
      AddMember(community.id, owner);
      r := Ok(community);
    }

    method AddMember(id: CommunityId, user: UserId)
      modifies this`memberships
      ensures memberships == old(memberships)[id := MembersOf(old(View()), id) + {user}]
    {
      if id !in memberships {
        memberships := memberships[id := {}];
      }
      memberships := memberships[id := memberships[id] + {user}];
    }

    method Join(id: CommunityId, user: UserId) returns (r: Result<()>)
      modifies this
      ensures (View(), r) == JoinCommunity(old(View()), id, user)
      ensures r ==
        if user !in old(users) then Err(UserNotFound)
        else if id !in old(communities) then Err(CommunityNotFound(id))
        else if old(communities)[id].visibility == InviteOnly && user != old(communities)[id].owner then Err(InviteRequired)
        else Ok(())
      ensures r.Ok? ==>
        View() == old(View()).(memberships := old(memberships)[
          id := (if id in old(memberships) then old(memberships)[id] else {}) + {user}])
      ensures r.Err? ==> View() == old(View())
    {
      if user !in users {
        return Err(UserNotFound);
      }
      if id !in communities {
        return Err(CommunityNotFound(id));
      }
      if communities[id].visibility == InviteOnly && user != communities[id].owner {
        return Err(InviteRequired);
      }
      AddMember(id, user);
      r := Ok(());
    }

    method Schedule(id: CommunityId, creator: UserId, title: string, startsAt: Time, description: Option<string>, now: Time)
      returns (r: Result<MeshEvent>)
      modifies this
      ensures (View(), r) == CreateEvent(old(View()), id, creator, title, startsAt, description, now)
      ensures r ==
        if id !in old(memberships) then Err(CommunityNotFound(id))
        else if creator !in old(memberships)[id] then Err(NotMember(id))
        else Ok(MeshEvent(old(nextEventId) + 1, id, creator, title, startsAt, description, now))
      ensures r.Ok? ==> View() == old(View()).(nextEventId := r.value.id, events := old(events) + [r.value])
      ensures r.Err? ==> View() == old(View())
    {
      if id !in memberships {
        return Err(CommunityNotFound(id));
      }
      if creator !in memberships[id] {
        return Err(NotMember(id));
      }
      nextEventId := nextEventId + 1;
      var event := MeshEvent(nextEventId, id, creator, title, startsAt, description, now);
      events := events + [event];
      r := Ok(event);
    }

    /** Checks the targets one by one and stops at the first that is not allowed. */
    method Announce(sender: UserId, targets: seq<CommunityId>, message: string, now: Time) returns (r: Result<Broadcast>)
      modifies this
      ensures (View(), r) == CreateBroadcast(old(View()), sender, targets, message, now)
      ensures r.Ok? <==>
        && sender in old(users) && targets != []
        && forall c :: c in targets ==> c in old(memberships) && sender in old(memberships)[c]
      ensures r.Err? ==>
        r.error == if sender !in old(users) then UserNotFound
                   else if targets == [] then InvalidTargets
                   else FirstBadTarget(old(View()), sender, targets).value
      ensures r.Ok? ==> r.value == Broadcast(old(nextBroadcastId) + 1, sender, targets, message, now)
      ensures r.Ok? ==> View() == old(View()).(nextBroadcastId := r.value.id, broadcasts := old(broadcasts) + [r.value])
      ensures r.Err? ==> View() == old(View())
    {
      NoBadTargetMeans(View(), sender, targets);
      if sender !in users {
        return Err(UserNotFound);
      }
      if targets == [] {
        return Err(InvalidTargets);
      }
      for i := 0 to |targets|
        invariant View() == old(View())
        invariant FirstBadTarget(View(), sender, targets) == FirstBadTarget(View(), sender, targets[i..])
      {
        if targets[i] !in memberships {
          return Err(CommunityNotFound(targets[i]));
        }
        if sender !in memberships[targets[i]] {
          return Err(NotMember(targets[i]));
        }
      }
      nextBroadcastId := nextBroadcastId + 1;
      var broadcast := Broadcast(nextBroadcastId, sender, targets, message, now);
      broadcasts := broadcasts + [broadcast];
      r := Ok(broadcast);
    }
  }
}
