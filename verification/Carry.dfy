/**
 The bounded event carry of the background driver (crates/ffi-core/src/driver.rs).

 Events sit in a map keyed by a 64-bit arrival number, payload numbers in a deque.  The list
 of a carry is the map read in key order, and every operation is specified on that list.
 Numbers wrap; `OrderKeptIff` says when the list is still in arrival order.
 */
module Carry {
  import opened Bytes

  const MAX_CARRY: nat := 4096

  /** The events the carry tells apart; `body` stands for the remaining fields. */
  datatype Event =
    | Message(body: nat)
    | StreamData(body: nat)
    | PathEstablished(connectId: nat, relayed: bool, body: nat)
    | PathUpgraded(connectId: nat, body: nat)
    | HolePunchFailed(connectId: nat, body: nat)
    | FellBackToRelay(connectId: nat, body: nat)
    | ConnectFailed(connectId: nat, body: nat)
    | EventsDropped(dropped: nat, total: nat)
    | DriverFailed(body: nat)
    | Other(body: nat)

  predicate IsPayload(e: Event) {
    e.Message? || e.StreamData?
  }

  /** `p2p_connect_id`. */
  function ConnectIdOf(e: Event): Option<nat> {
    match e
    case PathEstablished(id, _, _) => Some(id)
    case PathUpgraded(id, _) => Some(id)
    case HolePunchFailed(id, _) => Some(id)
    case FellBackToRelay(id, _) => Some(id)
    case ConnectFailed(id, _) => Some(id)
    case _ => None
  }

  /** `terminal_connect_id`: the attempt is over; a relayed path may still be upgraded. */
  function TerminalConnectId(e: Event): Option<nat> {
    match e
    case PathEstablished(id, relayed, _) => if relayed then None else Some(id)
    case PathUpgraded(id, _) => Some(id)
    case FellBackToRelay(id, _) => Some(id)
    case ConnectFailed(id, _) => Some(id)
    case _ => None
  }

  // ---- the list the carry stands for ----

  /** The oldest payload event, or the oldest event of all when there is no payload. */
  function Victim(l: seq<Event>): (i: nat)
    requires l != []
    ensures i < |l|
    ensures IsPayload(l[i]) ==> forall j | 0 <= j < i :: !IsPayload(l[j])
    ensures !IsPayload(l[i]) ==> i == 0 && forall e | e in l :: !IsPayload(e)
  {
    var i := FirstPayload(l);
    if i < |l| then i else 0
  }

  function FirstPayload(l: seq<Event>): (i: nat)
    ensures i <= |l| && (forall j | 0 <= j < i :: !IsPayload(l[j])) && (i < |l| ==> IsPayload(l[i]))
  {
    if l == [] || IsPayload(l[0]) then 0 else 1 + FirstPayload(l[1..])
  }

  function Without(l: seq<Event>, i: nat): seq<Event>
    requires i < |l|
  {
    l[..i] + l[i + 1..]
  }

  /** Appends; over the cap the victim is dropped. */
  function PushList(l: seq<Event>, e: Event): seq<Event> {
    if |l| < MAX_CARRY then l + [e] else Without(l + [e], Victim(l + [e]))
  }

  /** The event a push drops, if it drops one. */
  function Dropped(l: seq<Event>, e: Event): Option<Event> {
    if |l| < MAX_CARRY then None else Some((l + [e])[Victim(l + [e])])
  }

  predicate Keeps(e: Event, cancelled: set<nat>) {
    ConnectIdOf(e).None? || ConnectIdOf(e).value !in cancelled
  }

  function Suppress(l: seq<Event>, cancelled: set<nat>): (r: seq<Event>)
    ensures |r| <= |l| && forall e | e in r :: e in l && Keeps(e, cancelled)
  {
    if l == [] then []
    else Suppress(l[..|l| - 1], cancelled) + (if Keeps(l[|l| - 1], cancelled) then [l[|l| - 1]] else [])
  }

  // ---- reading the map in key order ----

  ghost function Listing(m: map<nat, Event>, n: nat): seq<Event> {
    if n == 0 then [] else Listing(m, n - 1) + (if n - 1 in m then [m[n - 1]] else [])
  }

  ghost predicate Below(m: map<nat, Event>, n: nat) {
    forall k | k in m :: k < n
  }

  lemma {:induction false} ListingAgree(m: map<nat, Event>, m': map<nat, Event>, n: nat)
    requires forall k | 0 <= k < n :: (k in m <==> k in m') && (k in m ==> m[k] == m'[k])
    ensures Listing(m, n) == Listing(m', n)
  {
    if n > 0 {
      ListingAgree(m, m', n - 1);
    }
  }

  lemma ListingPush(m: map<nat, Event>, n: nat, e: Event)
    requires Below(m, n)
    ensures Listing(m[n := e], n + 1) == Listing(m, n) + [e]
  {
    ListingAgree(m[n := e], m, n);
  }

  lemma RemovedSize(m: map<nat, Event>, k: nat)
    requires k in m
    ensures |m - {k}| == |m| - 1
  {
    assert m.Keys == (m - {k}).Keys + {k};
  }

  /** The keys below `n`. */
  ghost function KeysBelow(keys: set<nat>, n: nat): set<nat> {
    set k | k in keys && k < n
  }

  lemma {:induction false} ListingCounts(m: map<nat, Event>, n: nat)
    ensures |Listing(m, n)| == |KeysBelow(m.Keys, n)|
  {
    if n > 0 {
      ListingCounts(m, n - 1);
      KeysStep(m.Keys, n);
    } else {
      assert KeysBelow(m.Keys, 0) == {};
    }
  }

  lemma KeysStep(keys: set<nat>, n: nat)
    requires n > 0
    ensures |KeysBelow(keys, n)| == |KeysBelow(keys, n - 1)| + if n - 1 in keys then 1 else 0
  {
    if n - 1 in keys {
      assert KeysBelow(keys, n) == KeysBelow(keys, n - 1) + {n - 1};
    } else {
      assert KeysBelow(keys, n) == KeysBelow(keys, n - 1);
    }
  }

  lemma ListingSize(m: map<nat, Event>, n: nat)
    requires Below(m, n)
    ensures |Listing(m, n)| == |m|
  {
    hide Listing;
    ListingCounts(m, n);
    assert KeysBelow(m.Keys, n) == m.Keys;
    assert |m| == |m.Keys|;
  }

  lemma {:induction false} ListingOver(m: map<nat, Event>, n: nat, n': nat)
    requires Below(m, n) && n <= n'
    ensures Listing(m, n') == Listing(m, n)
    decreases n'
  {
    if n < n' {
      ListingOver(m, n, n' - 1);
    }
  }

  lemma {:induction false} ListingMember(m: map<nat, Event>, n: nat, e: Event)
    requires e in Listing(m, n)
    ensures exists k :: k in m && k < n && m[k] == e
    decreases n
  {
    if e in Listing(m, n - 1) {
      ListingMember(m, n - 1, e);
    }
  }

  /** Taking a key out of the map takes out the one entry at its rank. */
  lemma {:induction false} ListingRemove(m: map<nat, Event>, k: nat, n: nat)
    requires k in m && k < n
    ensures var l, r := Listing(m, n), |Listing(m, k)|;
            r < |l| && l[..r] == Listing(m, k) && l[r] == m[k] && Listing(m - {k}, n) == Without(l, r)
    decreases n
  {
    var r := |Listing(m, k)|;
    if k == n - 1 {
      ListingAgree(m - {k}, m, k);
    } else {
      ListingRemove(m, k, n - 1);
      var init := Listing(m, n - 1);
      var last := if n - 1 in m then [m[n - 1]] else [];
      assert (init + last)[..r] == init[..r];
      assert Without(init + last, r) == Without(init, r) + last;
    }
  }

  lemma {:induction false} ListingSuppress(m: map<nat, Event>, m': map<nat, Event>, cancelled: set<nat>, n: nat)
    requires m' == map k | k in m && Keeps(m[k], cancelled) :: m[k]
    ensures Listing(m', n) == Suppress(Listing(m, n), cancelled)
    decreases n
  {
    hide Keeps, Suppress;
    if n == 0 {
      SuppressSnoc([], cancelled, Other(0));
    } else {
      ListingSuppress(m, m', cancelled, n - 1);
      var init := Listing(m, n - 1);
      if n - 1 in m {
        SuppressSnoc(init, cancelled, m[n - 1]);
      } else {
        assert init + [] == init;
      }
      assert Listing(m', n - 1) + [] == Listing(m', n - 1);
    }
  }

  lemma SuppressSnoc(l: seq<Event>, cancelled: set<nat>, e: Event)
    ensures Suppress([], cancelled) == []
    ensures Suppress(l + [e], cancelled) == Suppress(l, cancelled) + if Keeps(e, cancelled) then [e] else []
  {
    hide Keeps;
    assert (l + [e])[..|l|] == l;
  }

  lemma MinExists(s: set<nat>, bound: nat)
    requires exists k :: k in s && k <= bound
    ensures exists k :: k in s && forall j | j in s :: k <= j
    decreases bound
  {
    if exists k :: k in s && k < bound {
      var k :| k in s && k < bound;
      MinExists(s, bound - 1);
    } else {
      var k :| k in s && k <= bound;
      assert forall j | j in s :: k <= j;
    }
  }

  /** The first key of a `BTreeMap`. */
  ghost function LeastKey(keys: set<nat>): (k: nat)
    requires keys != {}
    ensures k in keys && forall j | j in keys :: k <= j
  {
    var some :| some in keys;
    MinExists(keys, some);
    var k :| k in keys && forall j | j in keys :: k <= j;
    k
  }

  method MinKey(keys: set<nat>) returns (k: nat)
    requires keys != {}
    ensures k == LeastKey(keys)
  {
    ghost var least := LeastKey(keys);
    k :| k in keys && forall j | j in keys :: k <= j;
  }

  /** The listing starts with the smallest key. */
  lemma {:induction false} ListingFirst(m: map<nat, Event>, k: nat, n: nat)
    requires k in m && k < n && forall j | j in m :: k <= j
    ensures Listing(m, n) != [] && Listing(m, n)[0] == m[k] && Listing(m - {k}, n) == Listing(m, n)[1..]
  {
    ListingBefore(m, k);
    ListingRemove(m, k, n);
  }

  lemma {:induction false} ListingBefore(m: map<nat, Event>, k: nat)
    requires forall j | j in m :: k <= j
    ensures Listing(m, k) == []
  {
    if k > 0 {
      ListingBefore(m, k - 1);
    }
  }

  // ---- arrival numbers ----

  const WRAP: nat := U64_MAX + 1

  function NextId(id: nat): nat {
    (id + 1) % WRAP
  }

  lemma NextIdCases(id: nat)
    requires id < WRAP
    ensures NextId(id) == if id == U64_MAX then 0 else id + 1
  {
  }

  /** Arrival order of live numbers, seen from the next one: those from before a wrap come first. */
  function Age(k: nat, next: nat): nat {
    if k < next then k + WRAP else k
  }

  /** How many pushes it takes to reach the number again. */
  function Distance(k: nat, next: nat): int {
    Age(k, next) - next
  }

  /** None of the next `n` numbers is live. */
  ghost predicate Spaced(m: map<nat, Event>, next: nat, n: nat) {
    n <= WRAP && forall k | k in m :: Distance(k, next) >= n
  }

  // ---- payload numbers ----

  ghost predicate ByArrival(ids: seq<nat>, next: nat) {
    forall i, j | 0 <= i < j < |ids| :: Age(ids[i], next) < Age(ids[j], next)
  }

  /** The deque lists the payload events' numbers, oldest first. */
  ghost predicate PayloadIndex(m: map<nat, Event>, ids: seq<nat>, next: nat) {
    && ByArrival(ids, next)
    && (forall i | 0 <= i < |ids| :: ids[i] in m && IsPayload(m[ids[i]]))
    && (forall k | k in m && IsPayload(m[k]) :: k in ids)
  }

  /** The first payload number is the rank the list would drop. */
  lemma VictimIsFirstId(m: map<nat, Event>, ids: seq<nat>, n: nat)
    requires Below(m, n) && PayloadIndex(m, ids, 0) && ids != []
    ensures var l, r := Listing(m, n), |Listing(m, ids[0])|;
            l != [] && Victim(l) == r && Listing(m - {ids[0]}, n) == Without(l, r) && l[r] == m[ids[0]]
  {
    var l, r := Listing(m, n), |Listing(m, ids[0])|;
    ListingRemove(m, ids[0], n);
    forall j | 0 <= j < r
      ensures !IsPayload(l[j])
    {
      assert l[j] in Listing(m, ids[0]);
      ListingMember(m, ids[0], l[j]);
    }
    var v := Victim(l);
    assert IsPayload(l[r]);
    assert l[r] in l;
  }

  /** Without payload numbers the list drops its head. */
  lemma VictimIsFirst(m: map<nat, Event>, ids: seq<nat>, n: nat)
    requires Below(m, n) && PayloadIndex(m, ids, 0) && ids == [] && m != map[]
    ensures var l := Listing(m, n); l != [] && Victim(l) == 0 && Without(l, 0) == l[1..]
  {
    ListingSize(m, n);
    var l := Listing(m, n);
    var v := Victim(l);
    if IsPayload(l[v]) {
      ListingMember(m, n, l[v]);
    }
  }

  function RetainIn(ids: seq<nat>, keys: set<nat>): (r: seq<nat>)
    ensures forall k :: k in r <==> k in ids && k in keys
  {
    if ids == [] then []
    else RetainIn(ids[..|ids| - 1], keys) + (if ids[|ids| - 1] in keys then [ids[|ids| - 1]] else [])
  }

  lemma {:induction false} RetainSorted(ids: seq<nat>, keys: set<nat>, next: nat)
    requires ByArrival(ids, next)
    ensures ByArrival(RetainIn(ids, keys), next)
  {
    hide Age;
    if ids != [] {
      var init, last := ids[..|ids| - 1], ids[|ids| - 1];
      RetainSorted(init, keys, next);
      var r := RetainIn(init, keys);
      forall i | 0 <= i < |r|
        ensures Age(r[i], next) < Age(last, next)
      {
        assert r[i] in init;
      }
    }
  }

  lemma PrunedIndex(m: map<nat, Event>, m': map<nat, Event>, ids: seq<nat>, next: nat)
    requires PayloadIndex(m, ids, next) && m'.Keys <= m.Keys && forall k | k in m' :: m'[k] == m[k]
    ensures PayloadIndex(m', RetainIn(ids, m'.Keys), next)
  {
    RetainSorted(ids, m'.Keys, next);
    hide ByArrival;
    var r := RetainIn(ids, m'.Keys);
    assert forall i | 0 <= i < |r| :: r[i] in r;
  }

  /** Passing an unused number moves no live one in the order of arrival. */
  lemma OrderCarriesOver(ids: seq<nat>, id: nat)
    requires id < WRAP && ByArrival(ids, id) && forall i | 0 <= i < |ids| :: ids[i] < WRAP && ids[i] != id
    ensures ByArrival(ids + [id], NextId(id))
  {
    NextIdCases(id);
    hide NextId;
    var next := NextId(id);
    forall i | 0 <= i < |ids|
      ensures Age(ids[i], next) < Age(id, next)
    {
    }
  }

  lemma PushedIndex(m: map<nat, Event>, ids: seq<nat>, id: nat, e: Event)
    requires id < WRAP && Below(m, WRAP) && id !in m && PayloadIndex(m, ids, id)
    ensures |m[id := e]| == |m| + 1
    ensures PayloadIndex(m[id := e], if IsPayload(e) then ids + [id] else ids, NextId(id))
  {
    hide NextId, Age;
    RemovedSize(m[id := e], id);
    assert m[id := e] - {id} == m;
    OrderCarriesOver(ids, id);
    PrefixByArrival(ids, id, NextId(id));
    hide ByArrival;
    var ids' := if IsPayload(e) then ids + [id] else ids;
    assert forall k | k in ids :: k in ids';
    assert IsPayload(e) ==> ids'[|ids|] == id;
  }

  lemma PrefixByArrival(ids: seq<nat>, k: nat, next: nat)
    requires ByArrival(ids + [k], next)
    ensures ByArrival(ids, next)
  {
    hide Age;
    assert forall i | 0 <= i < |ids| :: (ids + [k])[i] == ids[i];
  }

  lemma DroppedIndex(m: map<nat, Event>, ids: seq<nat>, k: nat, next: nat)
    requires PayloadIndex(m, ids, next) && k in m && (ids == [] || k == ids[0])
    ensures PayloadIndex(m - {k}, if ids == [] then [] else ids[1..], next)
  {
    hide Age;
    if ids != [] {
      forall j | j in m - {k} && IsPayload(m[j])
        ensures j in ids[1..]
      {
        assert j in ids;
      }
    }
  }

  /** While no live number is ahead of the last one, arrival order is key order. */
  lemma ArrivalIsKeyOrder(m: map<nat, Event>, ids: seq<nat>, id: nat)
    requires id < WRAP && PayloadIndex(m, ids, NextId(id)) && forall k | k in m :: k <= id
    ensures PayloadIndex(m, ids, 0)
  {
    NextIdCases(id);
    hide NextId;
    forall i, j | 0 <= i < j < |ids|
      ensures Age(ids[i], 0) < Age(ids[j], 0)
    {
      assert ids[i] in m && ids[j] in m;
      assert Age(ids[i], NextId(id)) < Age(ids[j], NextId(id));
    }
  }

  // ---- the carry as a value ----

  datatype Store = Store(events: map<nat, Event>, payloadIds: seq<nat>, droppedTerminal: set<nat>, nextId: nat)

  /** Numbers are 64 bits wide. */
  ghost predicate Keyed(s: Store) {
    s.nextId < WRAP && Below(s.events, WRAP)
  }

  /** The deque is exact and the cap is kept. */
  ghost predicate Indexed(s: Store) {
    PayloadIndex(s.events, s.payloadIds, s.nextId) && |s.events| <= MAX_CARRY
  }

  ghost function ListOf(s: Store): seq<Event> {
    Listing(s.events, WRAP)
  }

  function Insert(s: Store, e: Event): Store {
    Store(s.events[s.nextId := e], if IsPayload(e) then s.payloadIds + [s.nextId] else s.payloadIds,
          s.droppedTerminal, NextId(s.nextId))
  }

  /** The number whose entry goes: the first payload number, else the smallest key. */
  ghost function Doomed(s: Store): nat
    requires s.payloadIds != [] || s.events.Keys != {}
  {
    if s.payloadIds != [] then s.payloadIds[0] else LeastKey(s.events.Keys)
  }

  ghost function DropFront(s: Store): (Store, Option<Event>) {
    if s.payloadIds == [] && s.events.Keys == {} then (s, None)
    else
      var k := Doomed(s);
      (s.(events := s.events - {k}, payloadIds := if s.payloadIds == [] then [] else s.payloadIds[1..]),
       if k in s.events then Some(s.events[k]) else None)
  }

  /** `push`, for every state of the carry. */
  ghost function PushStore(s: Store, e: Event): Store {
    var t := Insert(s, e);
    if |t.events| <= MAX_CARRY then t
    else
      var d := DropFront(t);
      d.0.(droppedTerminal := t.droppedTerminal + Retired(d.1))
  }

  lemma PushKeyed(s: Store, e: Event)
    requires Keyed(s)
    ensures Keyed(PushStore(s, e)) && PushStore(s, e).nextId == NextId(s.nextId)
  {
    NextIdCases(s.nextId);
    hide NextId, Retired;
  }

  /** What the drop does to an exact deque. */
  lemma DropIndexed(t: Store)
    requires PayloadIndex(t.events, t.payloadIds, t.nextId) && |t.events| == MAX_CARRY + 1
    ensures Indexed(DropFront(t).0) && |DropFront(t).0.events| == MAX_CARRY && DropFront(t).1.Some?
  {
    hide Age, ByArrival;
    assert t.events.Keys != {} by {
      assert |t.events.Keys| == |t.events|;
    }
    var k := Doomed(t);
    RemovedSize(t.events, k);
    DroppedIndex(t.events, t.payloadIds, k, t.nextId);
  }

  /** An unused number keeps the deque exact and the count right, wrapped or not. */
  lemma PushIndexed(s: Store, e: Event)
    requires Keyed(s) && Indexed(s) && s.nextId !in s.events
    ensures Indexed(PushStore(s, e))
    ensures |PushStore(s, e).events| == if |s.events| < MAX_CARRY then |s.events| + 1 else |s.events|
    ensures |Insert(s, e).events| > MAX_CARRY <==> |s.events| == MAX_CARRY
  {
    hide PayloadIndex, NextId, Doomed, Below, Retired;
    PushedIndex(s.events, s.payloadIds, s.nextId, e);
    if |s.events| == MAX_CARRY {
      DropIndexed(Insert(s, e));
    }
  }

  /** Below every live number the new event is listed last. */
  lemma InsertLast(s: Store, e: Event)
    requires Keyed(s) && Below(s.events, s.nextId)
    ensures ListOf(Insert(s, e)) == ListOf(s) + [e]
  {
    hide Listing, NextId;
    ListingOver(s.events, s.nextId, WRAP);
    ListingPush(s.events, s.nextId, e);
    ListingOver(s.events[s.nextId := e], s.nextId + 1, WRAP);
  }

  lemma DropIsVictim(t: Store)
    requires Below(t.events, WRAP) && PayloadIndex(t.events, t.payloadIds, 0) && t.events.Keys != {}
    ensures var l := ListOf(t);
            l != [] && DropFront(t).1 == Some(l[Victim(l)]) && ListOf(DropFront(t).0) == Without(l, Victim(l))
  {
    hide Listing, Victim, ByArrival, Below;
    var m := t.events;
    if t.payloadIds != [] {
      VictimIsFirstId(m, t.payloadIds, WRAP);
    } else {
      assert m != map[];
      VictimIsFirst(m, t.payloadIds, WRAP);
      KeyBelow(m, LeastKey(m.Keys), WRAP);
      ListingFirst(m, LeastKey(m.Keys), WRAP);
    }
  }

  lemma KeyBelow(m: map<nat, Event>, k: nat, n: nat)
    requires Below(m, n) && k in m
    ensures k < n
  {
  }

  lemma ListSize(s: Store)
    requires Keyed(s)
    ensures |ListOf(s)| == |s.events|
  {
    hide Listing;
    ListingSize(s.events, WRAP);
  }

  /** As long as no live number is at or above the next one, a push is a push on the list. */
  lemma PushInOrder(s: Store, e: Event)
    requires Keyed(s) && Indexed(s) && Below(s.events, s.nextId)
    ensures ListOf(PushStore(s, e)) == PushList(ListOf(s), e)
    ensures PushStore(s, e).droppedTerminal == s.droppedTerminal + Retired(Dropped(ListOf(s), e))
    ensures |Insert(s, e).events| > MAX_CARRY <==> Dropped(ListOf(s), e).Some?
  {
    hide ListOf, DropFront, Retired, Victim, Without, NextId, PayloadIndex;
    var t := Insert(s, e);
    PushIndexed(s, e);
    PushedIndex(s.events, s.payloadIds, s.nextId, e);
    InsertLast(s, e);
    ListSize(s);
    assert s.droppedTerminal + Retired(None) == s.droppedTerminal by {
      NothingRetired(s.droppedTerminal);
    }
    if |s.events| == MAX_CARRY {
      ArrivalIsKeyOrder(t.events, t.payloadIds, s.nextId);
      InsertKeyed(s, e);
      DropIsVictim(t);
      SameList(DropFront(t).0, PushStore(s, e));
    }
  }

  lemma NothingRetired(ids: set<nat>)
    ensures ids + Retired(None) == ids
  {
  }

  lemma InsertKeyed(s: Store, e: Event)
    requires Keyed(s)
    ensures Below(Insert(s, e).events, WRAP) && s.nextId in Insert(s, e).events.Keys
  {
  }

  lemma SameList(s: Store, t: Store)
    requires s.events == t.events
    ensures ListOf(s) == ListOf(t)
  {
  }

  // ---- when arrival order is kept ----

  lemma MaxKey(keys: set<nat>, k: nat) returns (top: nat)
    requires k in keys
    ensures top in keys && top >= k && forall j | j in keys :: j <= top
    decreases |keys|
  {
    top := k;
    if j :| j in keys && j > k {
      top := MaxKey(keys - {k}, j);
      assert forall i | i in keys :: i == k || i in keys - {k};
    }
  }

  /** The largest number is listed last. */
  lemma ListingTop(m: map<nat, Event>, top: nat, n: nat)
    requires top in m && top < n && forall j | j in m :: j <= top
    ensures Listing(m, n) != [] && Listing(m, n)[|Listing(m, n)| - 1] == m[top]
  {
    ListingOver(m, top + 1, n);
  }

  /** An event different from the given one. */
  function OtherThan(e: Event): (r: Event)
    ensures r != e
  {
    if e == Other(0) then Other(1) else Other(0)
  }

  /**
   A push lists its event last, whatever the event, if and only if no live number is at or
   above the next arrival number.
   */
  lemma OrderKeptIff(s: Store)
    requires Keyed(s)
    ensures (forall e :: ListOf(Insert(s, e)) == ListOf(s) + [e]) <==> Below(s.events, s.nextId)
  {
    if Below(s.events, s.nextId) {
      forall e
        ensures ListOf(Insert(s, e)) == ListOf(s) + [e]
      {
        InsertLast(s, e);
      }
    } else {
      var k :| k in s.events && k >= s.nextId;
      var e := NotListedLast(s, k);
      assert ListOf(Insert(s, e)) != ListOf(s) + [e];
    }
  }

  /** With a live number ahead, some event is not listed last. */
  lemma NotListedLast(s: Store, k: nat) returns (e: Event)
    requires Keyed(s) && k in s.events && k >= s.nextId
    ensures ListOf(Insert(s, e)) != ListOf(s) + [e]
  {
    hide Listing, NextId;
    var top := MaxKey(s.events.Keys, k);
    e := OtherThan(s.events[top]);
    var m := s.events[s.nextId := e];
    if top == s.nextId {
      ListingSize(s.events, WRAP);
      assert m.Keys == s.events.Keys;
      ListingSize(m, WRAP);
      assert |m| == |m.Keys| && |s.events| == |s.events.Keys|;
    } else {
      assert forall j | j in m :: j <= top;
      ListingTop(m, top, WRAP);
    }
  }

  /** The carry that is about to take the last number, as 2^64 - 1 pushes and drains leave it. */
  const LAST := Store(map[], [], {}, U64_MAX)

  /** The event with the last number is still in order; the next one is listed before it. */
  lemma WrapReorders(a: Event, b: Event)
    ensures ListOf(PushStore(LAST, a)) == [a]
    ensures ListOf(PushStore(PushStore(LAST, a), b)) == [b, a]
  {
    hide Listing, NextId, DropFront, Retired;
    NextIdCases(U64_MAX);
    ListingNothing(WRAP);
    InsertLast(LAST, a);
    assert [] + [a] == [a];
    OneEntry(U64_MAX, a);
    var m := map[U64_MAX := a][0 := b];
    TwoEntries(a, b);
  }

  lemma ListingNothing(n: nat)
    ensures Listing(map[], n) == []
  {
    ListingOver(map[], 0, n);
  }

  lemma OneEntry(k: nat, a: Event)
    ensures map[][k := a] == map[k := a] && |map[k := a]| == 1
  {
    assert map[k := a].Keys == {k};
    assert |map[k := a]| == |map[k := a].Keys|;
  }

  lemma TwoEntries(a: Event, b: Event)
    ensures |map[U64_MAX := a][0 := b]| == 2
    ensures Listing(map[U64_MAX := a][0 := b], WRAP) == [b, a]
  {
    var m := map[U64_MAX := a][0 := b];
    assert m.Keys == {U64_MAX, 0};
    assert |m| == |m.Keys|;
    var m' := m - {U64_MAX};
    assert m' == map[0 := b];
    assert Listing(m', 1) == Listing(m', 0) + [b];
    ListingOver(m', 1, U64_MAX);
    ListingAgree(m, m', U64_MAX);
  }

  /** Once emptied, the carry is in order again whatever its next number. */
  lemma EmptiedIsInOrder(s: Store)
    requires Keyed(s) && ListOf(s) == []
    ensures Below(s.events, s.nextId)
  {
    hide Listing;
    ListSize(s);
    assert s.events.Keys == {} by {
      assert |s.events.Keys| == |s.events|;
    }
  }

  // ---- the carry, updated in place ----

  class Carry {
    var events: map<nat, Event>
    var payloadIds: seq<nat>
    var droppedTerminal: set<nat>
    var nextId: nat

    ghost function State(): Store
      reads this
    {
      Store(events, payloadIds, droppedTerminal, nextId)
    }

    /** The width of the numbers; nothing else is asked of a carry. */
    ghost predicate Valid()
      reads this
    {
      Keyed(State())
    }

    /** The events in the order they will be taken. */
    ghost function List(): (l: seq<Event>)
      reads this
    {
      Listing(events, WRAP)
    }

    constructor ()
      ensures Valid() && Indexed(State()) && List() == [] && droppedTerminal == {} && nextId == 0
    {
      events, payloadIds, droppedTerminal, nextId := map[], [], {}, 0;
      new;
      hide Listing;
      ListingNothing(WRAP);
    }

    method Len() returns (n: nat)
      requires Valid()
      ensures n == |List()|
      ensures Indexed(State()) ==> n <= MAX_CARRY
    {
      ListSize(State());
      return |events|;
    }

    method IsEmpty() returns (b: bool)
      requires Valid()
      ensures b <==> List() == []
    {
      ListSize(State());
      return |events| == 0;
    }

    /**
     Inserts under the next number, and over the cap drops the oldest payload event or else
     the first event.  On a carry in order this is a push on the list.
     */
    method Push(e: Event) returns (dropped: bool)
      requires Valid()
      modifies this
      ensures Valid() && State() == PushStore(old(State()), e)
      ensures dropped <==> |Insert(old(State()), e).events| > MAX_CARRY
      ensures old(Indexed(State()) && nextId !in events) ==>
                Indexed(State()) && (dropped <==> |old(List())| == MAX_CARRY) && |List()| == |old(List())| + (if dropped then 0 else 1)
      ensures old(Indexed(State()) && Below(events, nextId)) ==>
                && List() == PushList(old(List()), e)
                && dropped == Dropped(old(List()), e).Some?
                && droppedTerminal == old(droppedTerminal) + Retired(Dropped(old(List()), e))
    {
      hide Listing, Indexed, NextId, Below, Doomed, PushList, Dropped, Retired;
      ghost var s := State();
      PushKeyed(s, e);
      PushLists(s, e);
      var id := nextId;
      nextId := NextId(nextId);
      if IsPayload(e) {
        payloadIds := payloadIds + [id];
      }
      events := events[id := e];
      if |events| <= MAX_CARRY {
        return false;
      }
      var gone := DropOne();
      RetireGone(gone);
      return true;
    }

    /** Removes the first payload number's event, or the first event when there is none. */
    method DropOne() returns (gone: Option<Event>)
      modifies this`events, this`payloadIds
      ensures (State(), gone) == DropFront(old(State()))
    {
      var k: nat;
      if payloadIds != [] {
        k := payloadIds[0];
        payloadIds := payloadIds[1..];
      } else if events.Keys != {} {
        k := MinKey(events.Keys);
      } else {
        return None;
      }
      gone := if k in events then Some(events[k]) else None;
      events := events - {k};
    }

    method RetireGone(gone: Option<Event>)
      modifies this`droppedTerminal
      ensures droppedTerminal == old(droppedTerminal) + Retired(gone)
    {
      hide TerminalConnectId;
      if gone.Some? && TerminalConnectId(gone.value).Some? {
        droppedTerminal := droppedTerminal + {TerminalConnectId(gone.value).value};
      }
    }

    /** Removes and returns the first events, at most `limit` of them. */
    method Take(limit: nat) returns (batch: seq<Event>)
      requires Valid()
      modifies this`events, this`payloadIds
      ensures Valid() && events.Keys <= old(events).Keys
      ensures batch == old(List())[..Min(limit, |old(List())|)]
      ensures List() == old(List())[|batch|..]
      ensures old(Indexed(State())) ==> Indexed(State())
    {
      hide Listing, PayloadIndex;
      batch := [];
      ghost var all, start := List(), events;
      while |batch| < limit && |events| > 0
        invariant |batch| <= limit && |batch| <= |all|
        invariant batch == all[..|batch|] && List() == all[|batch|..]
        invariant Below(events, WRAP) && |events| <= |start|
        invariant events.Keys <= start.Keys && forall k | k in events :: events[k] == start[k]
        invariant payloadIds == old(payloadIds)
        decreases |events|
      {
        var e := PopFirst();
        batch := batch + [e];
      }
      ListSize(State());
      if PayloadIndex(start, payloadIds, nextId) {
        PrunedIndex(start, events, payloadIds, nextId);
      }
      payloadIds := RetainIn(payloadIds, events.Keys);
    }

    /** Removes the entry with the smallest number. */
    method PopFirst() returns (e: Event)
      requires Below(events, WRAP) && |events| > 0
      modifies this`events
      ensures old(List()) != [] && e == old(List())[0] && List() == old(List())[1..]
      ensures |events| == old(|events|) - 1 && events.Keys <= old(events).Keys
      ensures forall k | k in events :: events[k] == old(events)[k]
    {
      hide Listing;
      assert events.Keys != {} by {
        assert |events.Keys| == |events|;
      }
      var k := MinKey(events.Keys);
      ListingFirst(events, k, WRAP);
      RemovedSize(events, k);
      e := events[k];
      events := events - {k};
    }

    /** Drops every queued event of a cancelled attempt and counts them. */
    method SuppressCancelled(cancelled: set<nat>) returns (count: nat)
      requires Valid()
      modifies this`events, this`payloadIds
      ensures Valid() && events.Keys <= old(events).Keys
      ensures List() == Suppress(old(List()), cancelled)
      ensures count == |old(List())| - |List()|
      ensures old(Indexed(State())) ==> Indexed(State())
    {
      hide Listing, PayloadIndex, Suppress, Keeps;
      ghost var start := events;
      var before := |events|;
      ListSize(State());
      events := map k | k in events && Keeps(events[k], cancelled) :: events[k];
      ListingSuppress(start, events, cancelled, WRAP);
      ListSize(State());
      SubmapSize(start, events);
      if PayloadIndex(start, payloadIds, nextId) {
        PrunedIndex(start, events, payloadIds, nextId);
      }
      payloadIds := RetainIn(payloadIds, events.Keys);
      count := before - |events|;
    }

    method TakeDroppedTerminal() returns (ids: set<nat>)
      modifies this`droppedTerminal
      ensures ids == old(droppedTerminal) && droppedTerminal == {}
    {
      ids := droppedTerminal;
      droppedTerminal := {};
    }
  }

  lemma SubmapSize(m: map<nat, Event>, m': map<nat, Event>)
    requires m'.Keys <= m.Keys
    ensures |m'| <= |m|
  {
    assert m.Keys == m'.Keys + (m.Keys - m'.Keys);
    assert |m| == |m.Keys| && |m'| == |m'.Keys|;
  }

  /** What a push means for the list, by the state it starts from. */
  lemma PushLists(s: Store, e: Event)
    requires Keyed(s)
    ensures Indexed(s) && s.nextId !in s.events ==>
              var t := PushStore(s, e);
              && Indexed(t)
              && (|Insert(s, e).events| > MAX_CARRY <==> |ListOf(s)| == MAX_CARRY)
              && |ListOf(t)| == |ListOf(s)| + if |ListOf(s)| == MAX_CARRY then 0 else 1
    ensures Indexed(s) && Below(s.events, s.nextId) ==>
              && ListOf(PushStore(s, e)) == PushList(ListOf(s), e)
              && (|Insert(s, e).events| > MAX_CARRY <==> Dropped(ListOf(s), e).Some?)
              && PushStore(s, e).droppedTerminal == s.droppedTerminal + Retired(Dropped(ListOf(s), e))
  {
    hide PushStore, Insert, Retired, PushList, Dropped, ListOf, PayloadIndex, Below;
    PushKeyed(s, e);
    ListSize(s);
    ListSize(PushStore(s, e));
    if Indexed(s) && s.nextId !in s.events {
      IndexedSize(s);
      PushIndexed(s, e);
    }
    if Indexed(s) && Below(s.events, s.nextId) {
      PushInOrder(s, e);
    }
  }

  lemma IndexedSize(s: Store)
    requires Indexed(s)
    ensures |s.events| <= MAX_CARRY
  {
  }

  /** The connection attempts a dropped event ends. */
  function Retired(gone: Option<Event>): set<nat> {
    if gone.None? || TerminalConnectId(gone.value).None? then {} else {TerminalConnectId(gone.value).value}
  }
}
