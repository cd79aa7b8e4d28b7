/** The entries both routing-table generations store, the list operations
    their methods are built from, and one loop method per list walk the two
    generations share. Python lists of dicts become sequences of datatypes. */
module TableCommon {
  import opened Wrappers

  /** A routing-table entry: reach `destination` by sending to `nextNode`. */
  datatype Route = Route(destination: string, nextNode: string, hops: int)

  /** A peer registered at the node with address `address`. */
  datatype Peer = Peer(peerId: string, address: string)

  /** An entry of a processed-request list: an address and the time it was
      stored. */
  datatype Stamp = Stamp(address: string, time: int)

  datatype TableError = UnknownDestination(destination: string)

  // ---------------------------------------------------------------------------
  // Sequences

  predicate Distinct<T(==)>(s: seq<T>) {
    forall i, j :: 0 <= i < j < |s| ==> s[i] != s[j]
  }

  /** `n` copies of `x`. */
  function Repeat<T>(x: T, n: nat): seq<T> {
    if n == 0 then [] else [x] + Repeat(x, n - 1)
  }

  /** The elements of `s` satisfying `p`, in their original order (the
      `new_list` every filtering loop of the tables builds). */
  function Filter<T>(s: seq<T>, p: T -> bool): (r: seq<T>)
    ensures |r| <= |s|
    decreases |s|
  {
    if |s| == 0 then [] else Filter(s[..|s| - 1], p) + (if p(s[|s| - 1]) then [s[|s| - 1]] else [])
  }

  lemma {:induction false} FilterMembers<T>(s: seq<T>, p: T -> bool, x: T)
    ensures x in Filter(s, p) <==> x in s && p(x)
    decreases |s|
  {
    if |s| > 0 {
      FilterMembers(s[..|s| - 1], p, x);
      assert s == s[..|s| - 1] + [s[|s| - 1]];
    }
  }

  /** Filtering keeps a list free of duplicates. */
  lemma {:induction false} FilterDistinct<T>(s: seq<T>, p: T -> bool)
    requires Distinct(s)
    ensures Distinct(Filter(s, p))
    decreases |s|
  {
    if |s| > 0 {
      var front := s[..|s| - 1];
      FilterDistinct(front, p);
      FilterMembers(front, p, s[|s| - 1]);
      assert s[|s| - 1] !in front by {
        forall k | 0 <= k < |front| ensures front[k] != s[|s| - 1] {
          assert front[k] == s[k];
        }
      }
    }
  }

  /** Filtering twice with the same test is filtering once. */
  lemma {:induction false} FilterIdempotent<T>(s: seq<T>, p: T -> bool)
    ensures Filter(Filter(s, p), p) == Filter(s, p)
    decreases |s|
  {
    if |s| > 0 {
      var front := s[..|s| - 1];
      FilterIdempotent(front, p);
      var f := Filter(front, p);
      if p(s[|s| - 1]) {
        var g := f + [s[|s| - 1]];
        assert Filter(s, p) == g;
        assert g[..|g| - 1] == f;
        assert Filter(g, p) == Filter(f, p) + [s[|s| - 1]];
      } else {
        assert Filter(s, p) == f + [];
        assert f + [] == f;
      }
    }
  }

  /** `lst.remove(x)`: drops the first occurrence of `x`. */
  function RemoveFirst<T(==)>(s: seq<T>, x: T): seq<T> {
    if |s| == 0 then []
    else if s[0] == x then s[1..]
    else [s[0]] + RemoveFirst(s[1..], x)
  }

  /** In a duplicate-free list, removing the first occurrence removes the
      element altogether and keeps everything else. */
  lemma {:induction false} RemoveFirstDistinct<T>(s: seq<T>, x: T)
    requires Distinct(s)
    ensures Distinct(RemoveFirst(s, x))
    ensures forall y :: y in RemoveFirst(s, x) <==> y in s && y != x
    decreases |s|
  {
    if |s| > 0 {
      assert forall k :: 0 < k < |s| ==> s[k] != s[0];
      assert Distinct(s[1..]) by {
        forall i, j | 0 <= i < j < |s[1..]| ensures s[1..][i] != s[1..][j] {
          assert s[1..][i] == s[i + 1] && s[1..][j] == s[j + 1];
        }
      }
      if s[0] != x {
        RemoveFirstDistinct(s[1..], x);
        var r := [s[0]] + RemoveFirst(s[1..], x);
        assert Distinct(r) by {
          forall i, j | 0 <= i < j < |r| ensures r[i] != r[j] {
            if i == 0 {
              assert r[j] in RemoveFirst(s[1..], x);
            } else {
              assert r[i] == RemoveFirst(s[1..], x)[i - 1];
              assert r[j] == RemoveFirst(s[1..], x)[j - 1];
            }
          }
        }
        assert s == [s[0]] + s[1..];
      }
    }
  }

  /** `lst.remove(x)` inside `try/except ValueError`: nothing happens when
      `x` is absent. */
  function RemoveIfPresent<T(==)>(s: seq<T>, x: T): seq<T> {
    if x in s then RemoveFirst(s, x) else s
  }

  lemma RemoveIfPresentDistinct<T>(s: seq<T>, x: T)
    requires Distinct(s)
    ensures Distinct(RemoveIfPresent(s, x))
    ensures forall y :: y in RemoveIfPresent(s, x) <==> y in s && y != x
  {
    RemoveFirstDistinct(s, x);
  }

  /** `lst.remove(x)` takes away one copy of `x` if there is one, and
      nothing else. */
  lemma {:induction false} RemoveIfPresentMultiset<T>(s: seq<T>, x: T)
    ensures multiset(RemoveIfPresent(s, x)) == multiset(s) - multiset{x}
    decreases |s|
  {
    if x in s {
      assert s == [s[0]] + s[1..];
      if s[0] != x {
        RemoveIfPresentMultiset(s[1..], x);
        assert RemoveIfPresent(s, x) == [s[0]] + RemoveIfPresent(s[1..], x);
      }
    }
  }

  /** The same, counted element by element. */
  lemma RemoveIfPresentCounts<T>(s: seq<T>, x: T)
    ensures forall y :: y != x ==> multiset(RemoveIfPresent(s, x))[y] == multiset(s)[y]
    ensures multiset(RemoveIfPresent(s, x))[x] <= multiset(s)[x]
    ensures x in s ==> multiset(RemoveIfPresent(s, x))[x] == multiset(s)[x] - 1
  {
    RemoveIfPresentMultiset(s, x);
  }

  // ---------------------------------------------------------------------------
  // Routes

  /** The entries whose destination is `d`, in table order. */
  function RoutesTo(routes: seq<Route>, d: string): seq<Route> {
    Filter(routes, (r: Route) => r.destination == d)
  }

  /** `sorted(routes, key=hops)[0]`: Python's sort is stable, so this is the
      first entry with the fewest hops. */
  function FirstMinimum(rs: seq<Route>): (i: nat)
    requires |rs| > 0
    ensures i < |rs|
    ensures forall j :: 0 <= j < |rs| ==> rs[i].hops <= rs[j].hops
    ensures forall j :: 0 <= j < i ==> rs[j].hops > rs[i].hops
    decreases |rs|
  {
    if |rs| == 1 then 0
    else
      var k := FirstMinimum(rs[1..]) + 1;
      if rs[0].hops <= rs[k].hops then 0 else k
  }

  /** The route `get_best_route_for_destination` returns, `None` for `{}`. */
  function BestRoute(routes: seq<Route>, d: string): Option<Route> {
    var rs := RoutesTo(routes, d);
    if |rs| == 0 then None else Some(rs[FirstMinimum(rs)])
  }

  /** The best route is a route to `d` with no more hops than any other
      route to `d`; there is none exactly when no entry leads to `d`. */
  lemma BestRouteIsShortest(routes: seq<Route>, d: string)
    ensures BestRoute(routes, d).None? <==> forall r :: r in routes ==> r.destination != d
    ensures BestRoute(routes, d).Some? ==>
              && BestRoute(routes, d).value in routes
              && BestRoute(routes, d).value.destination == d
              && forall r :: r in routes && r.destination == d ==> BestRoute(routes, d).value.hops <= r.hops
  {
    var rs := RoutesTo(routes, d);
    forall r | true
      ensures r in rs <==> r in routes && r.destination == d
    {
      FilterMembers(routes, (r: Route) => r.destination == d, r);
    }
    if |rs| > 0 {
      var b := rs[FirstMinimum(rs)];
      assert b in rs;
      forall r | r in routes && r.destination == d ensures b.hops <= r.hops {
        assert r in rs;
        var j :| 0 <= j < |rs| && rs[j] == r;
      }
    } else {
      assert forall r :: r in routes ==> r.destination != d;
    }
  }

  /** The distinct destinations of the table, in order of first appearance. */
  function Destinations(routes: seq<Route>): seq<string>
    decreases |routes|
  {
    if |routes| == 0 then []
    else
      var ds := Destinations(routes[..|routes| - 1]);
      var d := routes[|routes| - 1].destination;
      if d in ds then ds else ds + [d]
  }

  /** Every destination is listed once, and exactly the destinations of the
      table are listed. */
  lemma {:induction false} DestinationsSpec(routes: seq<Route>)
    ensures Distinct(Destinations(routes))
    ensures forall d :: d in Destinations(routes) <==> exists r :: r in routes && r.destination == d
    decreases |routes|
  {
    if |routes| > 0 {
      var front := routes[..|routes| - 1];
      var last := routes[|routes| - 1];
      DestinationsSpec(front);
      assert routes == front + [last];
      forall d ensures d in Destinations(routes) <==> exists r :: r in routes && r.destination == d {
        if d in Destinations(routes) {
          if d in Destinations(front) {
            var r :| r in front && r.destination == d;
            assert r in routes;
          } else {
            assert last in routes;
          }
        }
      }
    }
  }

  /** `destination not in entry.values()`: an entry mentions a node as its
      destination or as its next hop (the hop count is an integer and never
      equals an address). */
  function WithoutNode(routes: seq<Route>, node: string): seq<Route> {
    Filter(routes, (r: Route) => r.destination != node && r.nextNode != node)
  }

  lemma WithoutNodeSpec(routes: seq<Route>, node: string, r: Route)
    ensures r in WithoutNode(routes, node) <==> r in routes && r.destination != node && r.nextNode != node
  {
    FilterMembers(routes, (r: Route) => r.destination != node && r.nextNode != node, r);
  }

  // ---------------------------------------------------------------------------
  // Peers

  /** `delete_peer` keeps an entry only when it differs from the arguments in
      BOTH fields, so it also drops other peers of the same node and the same
      peer registered elsewhere. */
  function WithoutPeer(peers: seq<Peer>, peerId: string, address: string): seq<Peer> {
    Filter(peers, (p: Peer) => p.peerId != peerId && p.address != address)
  }

  lemma WithoutPeerSpec(peers: seq<Peer>, peerId: string, address: string, p: Peer)
    ensures p in WithoutPeer(peers, peerId, address) <==> p in peers && p.peerId != peerId && p.address != address
  {
    FilterMembers(peers, (p: Peer) => p.peerId != peerId && p.address != address, p);
  }

  predicate Registered(peers: seq<Peer>, peerId: string) {
    exists k :: 0 <= k < |peers| && peers[k].peerId == peerId
  }

  /** `get_address_of_peer`: the address of the first entry of the peer,
      `None` when it is not registered. */
  function AddressOf(peers: seq<Peer>, peerId: string): (a: Option<string>)
    ensures a.None? <==> !Registered(peers, peerId)
    ensures a.Some? ==> Peer(peerId, a.value) in peers
    decreases |peers|
  {
    if |peers| == 0 then None
    else if peers[0].peerId == peerId then Some(peers[0].address)
    else
      var rest := AddressOf(peers[1..], peerId);
      assert rest.Some? ==> Peer(peerId, rest.value) in peers by {
        if rest.Some? {
          assert Peer(peerId, rest.value) in peers[1..];
        }
      }
      assert Registered(peers, peerId) ==> Registered(peers[1..], peerId) by {
        if Registered(peers, peerId) {
          var k :| 0 <= k < |peers| && peers[k].peerId == peerId;
          assert peers[1..][k - 1] == peers[k];
        }
      }
      assert Registered(peers[1..], peerId) ==> Registered(peers, peerId) by {
        if Registered(peers[1..], peerId) {
          var k :| 0 <= k < |peers[1..]| && peers[1..][k].peerId == peerId;
          assert peers[k + 1] == peers[1..][k];
        }
      }
      rest
  }

  // ---------------------------------------------------------------------------
  // Processed-request lists

  /** `clean_already_processed_requests_list`: the entries younger than
      `timeout` seconds at time `now`. */
  function Fresh(stamps: seq<Stamp>, now: int, timeout: int): seq<Stamp> {
    Filter(stamps, (s: Stamp) => now - s.time < timeout)
  }

  lemma FreshSpec(stamps: seq<Stamp>, now: int, timeout: int, s: Stamp)
    ensures s in Fresh(stamps, now, timeout) <==> s in stamps && now - s.time < timeout
  {
    FilterMembers(stamps, (s: Stamp) => now - s.time < timeout, s);
  }

  predicate HasAddress(stamps: seq<Stamp>, address: string) {
    exists k :: 0 <= k < |stamps| && stamps[k].address == address
  }

  /** No address is stored twice. */
  predicate DistinctAddresses(stamps: seq<Stamp>) {
    forall i, j :: 0 <= i < j < |stamps| ==> stamps[i].address != stamps[j].address
  }

  /** `check_message_already_processed`: a younger-than-`timeout` entry for the
      address exists. */
  predicate Processed(stamps: seq<Stamp>, address: string, now: int, timeout: int) {
    HasAddress(Fresh(stamps, now, timeout), address)
  }

  lemma ProcessedSpec(stamps: seq<Stamp>, address: string, now: int, timeout: int)
    ensures Processed(stamps, address, now, timeout) <==>
              exists s :: s in stamps && s.address == address && now - s.time < timeout
  {
    var f := Fresh(stamps, now, timeout);
    if Processed(stamps, address, now, timeout) {
      var k :| 0 <= k < |f| && f[k].address == address;
      FreshSpec(stamps, now, timeout, f[k]);
    }
    if s :| s in stamps && s.address == address && now - s.time < timeout {
      FreshSpec(stamps, now, timeout, s);
      var k :| 0 <= k < |f| && f[k] == s;
    }
  }

  lemma {:induction false} FilterDistinctAddresses(stamps: seq<Stamp>, p: Stamp -> bool)
    requires DistinctAddresses(stamps)
    ensures DistinctAddresses(Filter(stamps, p))
    ensures forall s :: s in Filter(stamps, p) ==> s in stamps
    decreases |stamps|
  {
    if |stamps| > 0 {
      var front := stamps[..|stamps| - 1];
      var last := stamps[|stamps| - 1];
      FilterDistinctAddresses(front, p);
      forall s | s in Filter(stamps, p) ensures s in stamps {
        FilterMembers(stamps, p, s);
      }
      forall s | s in Filter(front, p) ensures s.address != last.address {
        var k :| 0 <= k < |front| && front[k] == s;
        assert stamps[k] == s;
      }
    }
  }

  // ---------------------------------------------------------------------------
  // The list walks both tables share

  /** The list walk of `check_routing_table_entry_exists` and
      `check_entry_for_peer_exists`: membership by equality. */
  method Contains<T(==)>(s: seq<T>, x: T) returns (found: bool)
    ensures found <==> x in s
  {
    var i := 0;
    while i < |s|
      invariant 0 <= i <= |s|
      invariant x !in s[..i]
    {
      if s[i] == x {
        return true;
      }
      assert s[..i + 1] == s[..i] + [s[i]];
      i := i + 1;
    }
    assert s[..i] == s;
    return false;
  }

  /** The loop of `get_best_route_for_destination` that collects the routes
      to one destination. */
  method CollectRoutesTo(routes: seq<Route>, d: string) returns (rs: seq<Route>)
    ensures rs == RoutesTo(routes, d)
  {
    rs := [];
    var i := 0;
    while i < |routes|
      invariant 0 <= i <= |routes|
      invariant rs == RoutesTo(routes[..i], d)
    {
      assert routes[..i + 1][..i] == routes[..i];
      if routes[i].destination == d {
        rs := rs + [routes[i]];
      }
      i := i + 1;
    }
    assert routes[..i] == routes;
  }

  /** `get_best_route_for_destination`: the first route with the fewest hops
      among those to `d`, an error for a destination outside the configured
      node addresses. */
  method BestRouteTo(routes: seq<Route>, d: string, nodes: set<string>) returns (r: Result<Option<Route>, TableError>)
    ensures d !in nodes ==> r == Failure(UnknownDestination(d))
    ensures d in nodes ==> r == Success(BestRoute(routes, d))
  {
    if d !in nodes {
      return Failure(UnknownDestination(d));
    }
    var rs := CollectRoutesTo(routes, d);
    if |rs| == 0 {
      return Success(None);
    }
    return Success(Some(rs[FirstMinimum(rs)]));
  }

  /** `get_list_of_all_available_destinations`. */
  method CollectDestinations(routes: seq<Route>) returns (ds: seq<string>)
    ensures ds == Destinations(routes)
  {
    ds := [];
    var i := 0;
    while i < |routes|
      invariant 0 <= i <= |routes|
      invariant ds == Destinations(routes[..i])
    {
      assert routes[..i + 1][..i] == routes[..i];
      if routes[i].destination !in ds {
        ds := ds + [routes[i].destination];
      }
      i := i + 1;
    }
    assert routes[..i] == routes;
  }

  /** The loop of `delete_all_entries_of_destination`. */
  method DropNode(routes: seq<Route>, node: string) returns (kept: seq<Route>)
    ensures kept == WithoutNode(routes, node)
  {
    kept := [];
    var i := 0;
    while i < |routes|
      invariant 0 <= i <= |routes|
      invariant kept == WithoutNode(routes[..i], node)
    {
      assert routes[..i + 1][..i] == routes[..i];
      if routes[i].destination != node && routes[i].nextNode != node {
        kept := kept + [routes[i]];
      }
      i := i + 1;
    }
    assert routes[..i] == routes;
  }

  /** `check_peer_is_already_registered`. */
  method PeerRegistered(peers: seq<Peer>, peerId: string) returns (found: bool)
    ensures found <==> Registered(peers, peerId)
  {
    var i := 0;
    while i < |peers|
      invariant 0 <= i <= |peers|
      invariant forall k :: 0 <= k < i ==> peers[k].peerId != peerId
    {
      if peers[i].peerId == peerId {
        return true;
      }
      i := i + 1;
    }
    return false;
  }

  /** The loop of `get_address_of_peer`. */
  method FindAddressOf(peers: seq<Peer>, peerId: string) returns (a: Option<string>)
    ensures a == AddressOf(peers, peerId)
  {
    var i := 0;
    while i < |peers|
      invariant 0 <= i <= |peers|
      invariant AddressOf(peers[i..], peerId) == AddressOf(peers, peerId)
    {
      if peers[i].peerId == peerId {
        return Some(peers[i].address);
      }
      assert peers[i..][1..] == peers[i + 1..];
      i := i + 1;
    }
    return None;
  }

  /** The loop of `delete_peer`. */
  method DropPeer(peers: seq<Peer>, peerId: string, address: string) returns (kept: seq<Peer>)
    ensures kept == WithoutPeer(peers, peerId, address)
  {
    kept := [];
    var i := 0;
    while i < |peers|
      invariant 0 <= i <= |peers|
      invariant kept == WithoutPeer(peers[..i], peerId, address)
    {
      assert peers[..i + 1][..i] == peers[..i];
      if peers[i].peerId != peerId && peers[i].address != address {
        kept := kept + [peers[i]];
      }
      i := i + 1;
    }
    assert peers[..i] == peers;
  }

  /** `clean_already_processed_requests_list`. */
  method CleanStamps(stamps: seq<Stamp>, now: int, timeout: int) returns (young: seq<Stamp>)
    ensures young == Fresh(stamps, now, timeout)
  {
    young := [];
    var i := 0;
    while i < |stamps|
      invariant 0 <= i <= |stamps|
      invariant young == Fresh(stamps[..i], now, timeout)
    {
      assert stamps[..i + 1][..i] == stamps[..i];
      if now - stamps[i].time < timeout {
        young := young + [stamps[i]];
      }
      i := i + 1;
    }
    assert stamps[..i] == stamps;
  }

  /** The search for an address in a processed-request list. */
  method FindAddress(stamps: seq<Stamp>, address: string) returns (found: bool)
    ensures found <==> HasAddress(stamps, address)
  {
    var i := 0;
    while i < |stamps|
      invariant 0 <= i <= |stamps|
      invariant forall k :: 0 <= k < i ==> stamps[k].address != address
    {
      if stamps[i].address == address {
        return true;
      }
      i := i + 1;
    }
    return false;
  }

  /** `check_message_already_processed`: clean a copy, then search it. */
  method AlreadyProcessed(stamps: seq<Stamp>, address: string, now: int, timeout: int) returns (found: bool)
    ensures found <==> Processed(stamps, address, now, timeout)
  {
    var young := CleanStamps(stamps, now, timeout);
    found := FindAddress(young, address);
  }
}
