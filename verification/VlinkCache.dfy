/**
 The cache of virtual links: each end is kept with its pair. Links are made by the driver, which
 also reports when an end is deleted; the cache has to follow.
 */
module VlinkCache {
  import opened Wrappers

  type Links = map<string, string>

  // ----- What happens -----

  datatype Event =
    | Connected(a: string, b: string)
    | Deleted(name: string)
    | Attached(name: string)
    | Detached(name: string)
    | Blacklisted(name: string)
    | Whitelisted(name: string)

  /** The cache as the port manager holds it; `failed` if a link could not be added. */
  datatype Cache = Cache(vlinks: Links, blacklisted: set<string>, failed: bool)

  function AfterEvent(c: Cache, e: Event): Cache {
    match e
    case Connected(a, b) =>
      if a in c.vlinks || b in c.vlinks then c.(failed := true) else c.(vlinks := c.vlinks[a := b][b := a])
    case Deleted(name) =>
      if name in c.blacklisted then c else c.(vlinks := c.vlinks - {name})
    case Attached(_) => c
    case Detached(_) => c
    case Blacklisted(name) => c.(blacklisted := c.blacklisted + {name})
    case Whitelisted(name) => c.(blacklisted := c.blacklisted - {name})
  }

  // ----- The links that exist -----

  /** The links in the driver of which at least one end exists, the ends that do not, and the
      ports attached to a switch. */
  datatype World = World(pairs: Links, gone: set<string>, attached: set<string>)

  ghost predicate Paired(pairs: Links, a: string) {
    a in pairs ==> pairs[a] != a && pairs[a] in pairs && pairs[pairs[a]] == a
  }

  /** Every end has a pair, whose pair it is. One end of a link at most is gone. */
  ghost predicate Symmetric(w: World) {
    && (forall a {:trigger Paired(w.pairs, a)} :: Paired(w.pairs, a))
    && (forall a | a in w.gone :: a in w.pairs && w.pairs[a] !in w.gone)
  }

  /** The driver makes a link between two names of which neither is in use: a name is used again
      only when both ends of its link are deleted. It deletes an end once. A blacklisted port is
      not attached, and only an existing port that is not attached is blacklisted. */
  ghost predicate Allowed(c: Cache, w: World, e: Event) {
    match e
    case Connected(a, b) => a != b && a !in w.pairs && b !in w.pairs
    case Deleted(name) => name !in w.gone
    case Attached(name) => name !in w.gone && name !in c.blacklisted
    case Blacklisted(name) => name !in w.gone && name !in w.attached
    case _ => true
  }

  /** The ends of a new link are attached. */
  function WorldAfter(w: World, e: Event): World {
    match e
    case Connected(a, b) => w.(pairs := w.pairs[a := b][b := a], attached := w.attached + {a, b})
    case Deleted(name) =>
      var w' := w.(attached := w.attached - {name});
      if name !in w.pairs then w'
      else if w.pairs[name] in w.gone then
        w'.(pairs := w.pairs - {name, w.pairs[name]}, gone := w.gone - {w.pairs[name]})
      else w'.(gone := w.gone + {name})
    case Attached(name) => w.(attached := w.attached + {name})
    case Detached(name) => w.(attached := w.attached - {name})
    case _ => w
  }

  /** The cache holds exactly the ends that exist, each with its pair. */
  ghost predicate Follows(c: Cache, w: World) {
    !c.failed && c.vlinks == map a | a in w.pairs && a !in w.gone :: w.pairs[a]
  }

  lemma WorldStaysSymmetric(c: Cache, w: World, e: Event)
    requires Symmetric(w) && Allowed(c, w, e)
    ensures Symmetric(WorldAfter(w, e))
  {
    var w' := WorldAfter(w, e);
    forall a ensures Paired(w'.pairs, a) {
      assert Paired(w.pairs, a);
      if e.Deleted? { assert Paired(w.pairs, e.name); }
      if e.Connected? && a in w.pairs { assert Paired(w.pairs, w.pairs[a]); }
    }
    forall a | a in w'.gone ensures a in w'.pairs && w'.pairs[a] !in w'.gone {
      assert Paired(w.pairs, a);
      if e.Deleted? { assert Paired(w.pairs, e.name); }
    }
  }

  /** The one event after which the cache no longer follows: the end of a link is deleted while it
      is blacklisted, and its deletion ignored. */
  ghost predicate Ignored(c: Cache, w: World, e: Event) {
    e.Deleted? && e.name in c.blacklisted && e.name in w.pairs
  }

  lemma StepFollows(c: Cache, w: World, e: Event)
    requires Symmetric(w) && Allowed(c, w, e) && Follows(c, w)
    ensures Follows(AfterEvent(c, e), WorldAfter(w, e)) <==> !Ignored(c, w, e)
  {
    var c', w' := AfterEvent(c, e), WorldAfter(w, e);
    if e.Deleted? { assert Paired(w.pairs, e.name); }
    if Ignored(c, w, e) {
      assert e.name in c'.vlinks && !(e.name in w'.pairs && e.name !in w'.gone);
    }
  }

  /** Allowed events, none of which is an ignored deletion. */
  ghost predicate FollowedRun(c: Cache, w: World, events: seq<Event>)
    decreases |events|
  {
    events == []
    || (Allowed(c, w, events[0]) && !Ignored(c, w, events[0])
        && FollowedRun(AfterEvent(c, events[0]), WorldAfter(w, events[0]), events[1..]))
  }

  function CacheAfter(c: Cache, events: seq<Event>): Cache
    decreases |events|
  {
    if events == [] then c else CacheAfter(AfterEvent(c, events[0]), events[1..])
  }

  function WorldAfterAll(w: World, events: seq<Event>): World
    decreases |events|
  {
    if events == [] then w else WorldAfterAll(WorldAfter(w, events[0]), events[1..])
  }

  lemma {:induction false} RunFollows(c: Cache, w: World, events: seq<Event>)
    requires Symmetric(w) && Follows(c, w) && FollowedRun(c, w, events)
    ensures Symmetric(WorldAfterAll(w, events)) && Follows(CacheAfter(c, events), WorldAfterAll(w, events))
    decreases |events|
  {
    if events != [] {
      StepFollows(c, w, events[0]);
      WorldStaysSymmetric(c, w, events[0]);
      RunFollows(AfterEvent(c, events[0]), WorldAfter(w, events[0]), events[1..]);
    }
  }

  const EMPTY: Cache := Cache(map[], {}, false)
  const NO_LINKS: World := World(map[], {}, {})

  /** After every run of allowed events in which no blacklisted end is deleted: no end is its own pair,
      the pair of an end is cached with that end as its pair or was deleted before, and of a link of
      which both ends are deleted nothing is left. No link failed to be added. */
  lemma CachedPairs(events: seq<Event>, a: string)
    requires FollowedRun(EMPTY, NO_LINKS, events)
    ensures var c, w := CacheAfter(EMPTY, events), WorldAfterAll(NO_LINKS, events);
            && !c.failed
            && (a in c.vlinks ==>
                  var b := c.vlinks[a];
                  a != b && if b in c.vlinks then c.vlinks[b] == a else b in w.gone)
            && (a !in w.pairs ==> a !in c.vlinks)
  {
    RunFollows(EMPTY, NO_LINKS, events);
    assert Paired(WorldAfterAll(NO_LINKS, events).pairs, a);
  }

  /** The last event that puts a port on the list or takes it off puts it on. */
  ghost predicate LastBlacklisted(events: seq<Event>, name: string) {
    exists i :: 0 <= i < |events| && events[i] == Blacklisted(name) && forall j | i < j < |events| :: events[j] != Whitelisted(name)
  }

  lemma LaterBlacklisted(events: seq<Event>, name: string)
    requires events != []
    ensures LastBlacklisted(events, name)
            <==> LastBlacklisted(events[1..], name)
                 || (events[0] == Blacklisted(name) && forall j | 0 < j < |events| :: events[j] != Whitelisted(name))
  {
    var rest := events[1..];
    assert forall j | 0 < j < |events| :: events[j] == rest[j - 1];
    if i :| 0 <= i < |rest| && rest[i] == Blacklisted(name) && forall j | i < j < |rest| :: rest[j] != Whitelisted(name) {
      assert events[i + 1] == Blacklisted(name);
    }
    if i :| 0 < i < |events| && events[i] == Blacklisted(name) && forall j | i < j < |events| :: events[j] != Whitelisted(name) {
      assert rest[i - 1] == Blacklisted(name);
    }
  }

  lemma {:induction false} ListAfter(c: Cache, events: seq<Event>, name: string)
    ensures name in CacheAfter(c, events).blacklisted
            <==> LastBlacklisted(events, name)
                 || (name in c.blacklisted && forall j | 0 <= j < |events| :: events[j] != Whitelisted(name))
    decreases |events|
  {
    if events != [] {
      ListAfter(AfterEvent(c, events[0]), events[1..], name);
      LaterBlacklisted(events, name);
      assert forall j | 0 < j < |events| :: events[j] == events[1..][j - 1];
    }
  }

  /** After every run exactly the ports are on the list that were put on it and not taken off since;
      and only for those a deletion is ignored. */
  lemma BlacklistedWhen(events: seq<Event>, name: string)
    ensures var c := CacheAfter(EMPTY, events);
            && (name in c.blacklisted <==> LastBlacklisted(events, name))
            && CacheAfter(c, [Deleted(name)]).vlinks == if LastBlacklisted(events, name) then c.vlinks else c.vlinks - {name}
  {
    ListAfter(EMPTY, events, name);
    var last := [Deleted(name)];
    assert last[1..] == [];
  }

  /** Events that may happen one after the other, and what they lead to. */
  ghost predicate Happens(c: Cache, w: World, events: seq<Event>, c': Cache, w': World)
    decreases |events|
  {
    if events == [] then c == c' && w == w'
    else Allowed(c, w, events[0]) && Happens(AfterEvent(c, events[0]), WorldAfter(w, events[0]), events[1..], c', w')
  }

  lemma FirstHappens(c: Cache, w: World, e: Event, more: seq<Event>, c': Cache, w': World)
    requires Allowed(c, w, e) && Happens(AfterEvent(c, e), WorldAfter(w, e), more, c', w')
    ensures Happens(c, w, [e] + more, c', w')
  {
    assert ([e] + more)[1..] == more;
  }

  /** The last two steps of the run below: with a stale entry, a link of that name, which the driver
      may make, cannot be added. */
  lemma StaleFails(a: string, b: string, d: string)
    requires a != b && d != a
    ensures var c, w := Cache(map[a := b], {a}, false), NO_LINKS;
            Happens(c, w, [Connected(a, d)], c.(failed := true), WorldAfter(w, Connected(a, d)))
  {
    var c, w := Cache(map[a := b], {a}, false), NO_LINKS;
    var last: seq<Event> := [Connected(a, d)];
    assert last[1..] == [] && last[0] == Connected(a, d);
  }

  /** Both ends of a link are deleted, one of them while it is blacklisted. */
  lemma StaleRemains(a: string, b: string)
    requires a != b
    ensures var c := Cache(map[a := b, b := a], {a}, false);
            var w := World(map[a := b, b := a], {}, {b});
            && Allowed(c, w, Deleted(a)) && AfterEvent(c, Deleted(a)) == c
            && var w1 := WorldAfter(w, Deleted(a));
            && Allowed(c, w1, Deleted(b)) && AfterEvent(c, Deleted(b)) == Cache(map[a := b], {a}, false)
            && WorldAfter(w1, Deleted(b)) == NO_LINKS
  {
    var w := World(map[a := b, b := a], {}, {b});
    assert {b} - {a} == {b} && {b} - {b} == {};
    assert map[a := b, b := a] - {b} == map[a := b] && map[a := b, b := a] - {b, a} == map[];
    assert {} + {a} == {a} && {a} - {a} == {};
  }

  /** An ignored deletion leaves an entry behind, and then the next link of that name fails to be
      added: a link is made, one end is detached, blacklisted and deleted, then the other end is
      deleted, and its name used again. */
  lemma StaleEntryFails(a: string, b: string, d: string)
    requires a != b && d != a
    ensures exists c: Cache, w: World ::
              c.failed
              && Happens(EMPTY, NO_LINKS,
                         [Connected(a, b)] + ([Detached(a)] + ([Blacklisted(a)]
                         + ([Deleted(a)] + ([Deleted(b)] + [Connected(a, d)])))), c, w)
  {
    var full, stale := map[a := b, b := a], Cache(map[a := b], {a}, false);
    var c1, w1 := Cache(full, {}, false), World(full, {}, {a, b});
    var c3, w2 := Cache(full, {a}, false), World(full, {}, {b});
    assert AfterEvent(EMPTY, Connected(a, b)) == c1 && WorldAfter(NO_LINKS, Connected(a, b)) == w1 by {
      assert {} + {a, b} == {a, b};
    }
    assert WorldAfter(w1, Detached(a)) == w2 by { assert {a, b} - {a} == {b}; }
    assert AfterEvent(c1, Blacklisted(a)) == c3 by { assert {} + {a} == {a}; }
    StaleRemains(a, b);
    StaleFails(a, b, d);
    var c', w' := stale.(failed := true), WorldAfter(NO_LINKS, Connected(a, d));
    var last := [Connected(a, d)];
    FirstHappens(c3, WorldAfter(w2, Deleted(a)), Deleted(b), last, c', w');
    FirstHappens(c3, w2, Deleted(a), [Deleted(b)] + last, c', w');
    FirstHappens(c1, w2, Blacklisted(a), [Deleted(a)] + ([Deleted(b)] + last), c', w');
    FirstHappens(c1, w1, Detached(a), [Blacklisted(a)] + ([Deleted(a)] + ([Deleted(b)] + last)), c', w');
    FirstHappens(EMPTY, NO_LINKS, Connected(a, b),
                 [Detached(a)] + ([Blacklisted(a)] + ([Deleted(a)] + ([Deleted(b)] + last))), c', w');
  }

  // ----- The port manager -----

  class PortManager {
    var vlinks: Links
    var blacklisted: set<string>
    /** Whether the port mutex is held. */
    var locked: bool

    constructor ()
      ensures vlinks == map[] && blacklisted == {} && !locked
    {
      vlinks := map[];
      blacklisted := {};
      locked := false;
    }

    /** Both ends are added, or none. */
    method AddVlink(port1: string, port2: string) returns (ok: bool)
      modifies this`vlinks
      ensures Cache(vlinks, blacklisted, !ok)
              == AfterEvent(Cache(old(vlinks), blacklisted, false), Connected(port1, port2))
      ensures ok <==> port1 !in old(vlinks) && port2 !in old(vlinks)
      ensures vlinks == if ok then old(vlinks)[port1 := port2][port2 := port1] else old(vlinks)
    {
      if port1 in vlinks || port2 in vlinks {
        return false;
      }
      vlinks := vlinks[port1 := port2];
      vlinks := vlinks[port2 := port1];
      return true;
    }

    method NotifyPortDeleted(name: string)
      modifies this`vlinks
      ensures Cache(vlinks, blacklisted, false) == AfterEvent(Cache(old(vlinks), blacklisted, false), Deleted(name))
      ensures vlinks == if name in blacklisted then old(vlinks) else old(vlinks) - {name}
    {
      if name in blacklisted {
        return;
      }
      if name in vlinks {
        vlinks := vlinks - {name};
      }
    }

    /** Only an existing port that is not attached can be blacklisted. For an attached port the
        exception leaves the mutex locked. */
    method Blacklist(name: string, known: bool, attached: bool) returns (ok: bool)
      requires !locked
      modifies this`blacklisted, this`locked
      ensures ok <==> known && (name in old(blacklisted) || !attached)
      ensures locked <==> known && name !in old(blacklisted) && attached
      ensures Cache(vlinks, blacklisted, false)
              == if ok then AfterEvent(Cache(vlinks, old(blacklisted), false), Blacklisted(name))
                 else Cache(vlinks, old(blacklisted), false)
      ensures blacklisted == old(blacklisted) + if ok then {name} else {}
    {
      if !known {
        return false;
      }
      if name in blacklisted {
        return true;
      }
      locked := true;
      if attached {
        return false;
      }
      blacklisted := blacklisted + {name};
      locked := false;
      return true;
    }

    method Whitelist(name: string, known: bool) returns (ok: bool)
      requires !locked
      modifies this`blacklisted, this`locked
      ensures !locked && (ok <==> known)
      ensures Cache(vlinks, blacklisted, false)
              == if ok then AfterEvent(Cache(vlinks, old(blacklisted), false), Whitelisted(name))
                 else Cache(vlinks, old(blacklisted), false)
      ensures blacklisted == old(blacklisted) - if known then {name} else {}
    {
      if known && name in blacklisted {
        locked := true;
        blacklisted := blacklisted - {name};
        locked := false;
      }
      return known;
    }

    /** When the cache follows the driver, a pair is found exactly for the ends that exist, and
        the pair of the pair is the port itself as long as both do. */
    method GetVlinkPair(name: string) returns (pair: Option<string>)
      ensures pair == if name in vlinks then Some(vlinks[name]) else None
      ensures forall w: World | Symmetric(w) && Follows(Cache(vlinks, blacklisted, false), w) ::
                && (pair.Some? <==> name in w.pairs && name !in w.gone)
                && (pair.Some? ==> PairsBack(vlinks, w, name, pair.value))
    {
      forall w: World | Symmetric(w) && Follows(Cache(vlinks, blacklisted, false), w) && name in vlinks
        ensures PairsBack(vlinks, w, name, vlinks[name])
      {
        assert Paired(w.pairs, name);
      }
      if name !in vlinks {
        return None;
      }
      return Some(vlinks[name]);
    }
  }

  ghost predicate PairsBack(vlinks: Links, w: World, name: string, pair: string) {
    pair != name && if pair in w.gone then pair !in vlinks else pair in vlinks && vlinks[pair] == name
  }
}
