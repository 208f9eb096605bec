/**
 Requests handed to servers in rotation. The idle set and the heap of busy servers are
 compared with a naive simulation that scans the servers one by one.
 */
module BusiestServers {
  import opened Containers
  import opened Wrappers

  // ----- the naive simulation -----

  /** Until when each server is busy, and which server took each request so far. */
  datatype Log = Log(busyUntil: map<nat, int>, served: seq<Option<nat>>)

  predicate IsFree(busyUntil: map<nat, int>, server: nat, time: int) {
    server !in busyUntil || busyUntil[server] <= time
  }

  /** The i-th server round the ring of k from `start`. */
  function Ring(k: nat, start: nat, i: nat): nat
    requires 0 < k
  {
    (start + i) % k
  }

  /** The first free server among start + j, start + j + 1, ..., start + k - 1, round the ring of k. */
  function Scan(busyUntil: map<nat, int>, k: nat, start: nat, j: nat, time: int): Option<nat>
    requires 0 < k && j <= k
    decreases k - j
  {
    if j == k then None
    else if IsFree(busyUntil, Ring(k, start, j), time) then Some(Ring(k, start, j))
    else Scan(busyUntil, k, start, j + 1, time)
  }

  function Naive(k: nat, arrival: seq<int>, load: seq<int>, n: nat): Log
    requires 0 < k && n <= |arrival| == |load|
  {
    if n == 0 then Log(map[], [])
    else
      var log := Naive(k, arrival, load, n - 1);
      var server := Scan(log.busyUntil, k, (n - 1) % k, 0, arrival[n - 1]);
      if server.None? then Log(log.busyUntil, log.served + [None])
      else Log(log.busyUntil[server.value := arrival[n - 1] + load[n - 1]], log.served + [server])
  }

  /** Requests a server took. */
  function Taken(served: seq<Option<nat>>, server: nat): nat {
    if served == [] then 0
    else Taken(served[..|served| - 1], server) + if served[|served| - 1] == Some(server) then 1 else 0
  }

  // ----- what the naive simulation means -----

  lemma {:induction false} TakenCounts(served: seq<Option<nat>>, server: nat)
    ensures Taken(served, server) == |set i | 0 <= i < |served| && served[i] == Some(server)|
    decreases |served|
  {
    var all := set i | 0 <= i < |served| && served[i] == Some(server);
    if served == [] {
      assert all == {};
    } else {
      var n := |served| - 1;
      TakenCounts(served[..n], server);
      var fewer := set i | 0 <= i < n && served[..n][i] == Some(server);
      assert all == fewer + if served[n] == Some(server) then {n} else {};
    }
  }

  ghost predicate Sorted(arrival: seq<int>) {
    forall i, j :: 0 <= i < j < |arrival| ==> arrival[i] <= arrival[j]
  }

  lemma {:induction false} NaivePrefix(k: nat, arrival: seq<int>, load: seq<int>, m: nat, n: nat)
    requires 0 < k && m <= n <= |arrival| == |load|
    ensures |Naive(k, arrival, load, n).served| == n && |Naive(k, arrival, load, m).served| == m
    ensures Naive(k, arrival, load, n).served[..m] == Naive(k, arrival, load, m).served
    decreases n
  {
    if m < n {
      NaivePrefix(k, arrival, load, m, n - 1);
    } else if n > 0 {
      NaivePrefix(k, arrival, load, n - 1, n - 1);
    }
  }

  /** A server is free when everything it took has ended. */
  lemma {:induction false} FreeMeans(k: nat, arrival: seq<int>, load: seq<int>, n: nat, s: nat, time: int)
    requires 0 < k && n <= |arrival| == |load| && Sorted(arrival) && (n > 0 ==> arrival[n - 1] <= time)
    ensures var log := Naive(k, arrival, load, n);
      && |log.served| == n
      && (IsFree(log.busyUntil, s, time) <==>
          forall j :: 0 <= j < n && log.served[j] == Some(s) ==> arrival[j] + load[j] <= time)
    decreases n
  {
    if n > 0 {
      var m := n - 1;
      var log, before := Naive(k, arrival, load, n), Naive(k, arrival, load, m);
      NaivePrefix(k, arrival, load, m, m);
      FreeMeans(k, arrival, load, m, s, time);
      FreeMeans(k, arrival, load, m, s, arrival[m]);
      assert log.served[..m] == before.served;
      assert forall j :: 0 <= j < m ==> log.served[j] == before.served[j];
      if log.served[m] == Some(s) {
        ScanMeans(before.busyUntil, k, m % k, 0, arrival[m]);
      }
    }
  }

  /** A scan stops at the first free server, or finds all of them busy. */
  lemma {:induction false} ScanMeans(busyUntil: map<nat, int>, k: nat, start: nat, j: nat, time: int)
    requires 0 < k && j <= k
    ensures var r := Scan(busyUntil, k, start, j, time);
      && (r.None? ==> forall e: nat :: j <= e < k ==> !IsFree(busyUntil, Ring(k, start, e), time))
      && (r.Some? ==> IsFree(busyUntil, r.value, time) && exists d: nat ::
            j <= d < k && r.value == Ring(k, start, d)
            && forall e: nat :: j <= e < d ==> !IsFree(busyUntil, Ring(k, start, e), time))
    decreases k - j
  {
    if j < k && !IsFree(busyUntil, Ring(k, start, j), time) {
      ScanMeans(busyUntil, k, start, j + 1, time);
    }
  }

  /** A server with a request among the first `i` that ends after the next one arrives. */
  ghost predicate BusyFor(arrival: seq<int>, load: seq<int>, served: seq<Option<nat>>, s: nat, i: nat)
    requires i < |arrival| == |load| == |served|
  {
    exists j :: 0 <= j < i && served[j] == Some(s) && arrival[i] < arrival[j] + load[j]
  }

  lemma BusyExactlyWhen(k: nat, arrival: seq<int>, load: seq<int>, i: nat, s: nat)
    requires 0 < k && i < |arrival| == |load| && Sorted(arrival)
    ensures |Naive(k, arrival, load, |arrival|).served| == |arrival|
    ensures BusyFor(arrival, load, Naive(k, arrival, load, |arrival|).served, s, i) <==>
            !IsFree(Naive(k, arrival, load, i).busyUntil, s, arrival[i])
  {
    NaivePrefix(k, arrival, load, i, |arrival|);
    FreeMeans(k, arrival, load, i, s, arrival[i]);
    var all, log := Naive(k, arrival, load, |arrival|).served, Naive(k, arrival, load, i);
    assert forall j :: 0 <= j < i ==> all[j] == all[..i][j] == log.served[j];
  }

  /**
   Request i goes to the first server from i mod k on, round the ring, all of whose earlier
   requests have ended: every server passed over is busy. It is dropped exactly when all are.
   */
  lemma RequestGoesTo(k: nat, arrival: seq<int>, load: seq<int>, i: nat)
    requires 0 < k && i < |arrival| == |load| && Sorted(arrival)
    ensures var served := Naive(k, arrival, load, |arrival|).served;
      && |served| == |arrival|
      && (served[i].None? <==> forall t: nat :: t < k ==> BusyFor(arrival, load, served, t, i))
      && (served[i].Some? ==>
            && var s := served[i].value;
            && s < k && (forall j :: 0 <= j < i && served[j] == Some(s) ==> arrival[j] + load[j] <= arrival[i])
            && forall t: nat :: t < k && (if i % k <= s then i % k <= t < s else t < s || i % k <= t) ==>
                 BusyFor(arrival, load, served, t, i))
  {
    hide Naive, Scan, IsFree, Sorted;
    var served, busyUntil := Naive(k, arrival, load, |arrival|).served, Naive(k, arrival, load, i).busyUntil;
    ServedByScan(k, arrival, load, i);
    ScanInPlaces(busyUntil, k, i % k, arrival[i]);
    forall t: nat ensures BusyFor(arrival, load, served, t, i) <==> !IsFree(busyUntil, t, arrival[i]) {
      BusyExactlyWhen(k, arrival, load, i, t);
    }
  }

  lemma ServedByScan(k: nat, arrival: seq<int>, load: seq<int>, i: nat)
    requires 0 < k && i < |arrival| == |load|
    ensures |Naive(k, arrival, load, |arrival|).served| == |arrival|
    ensures Naive(k, arrival, load, |arrival|).served[i] ==
            Scan(Naive(k, arrival, load, i).busyUntil, k, i % k, 0, arrival[i])
  {
    var served := Naive(k, arrival, load, |arrival|).served;
    NaivePrefix(k, arrival, load, i + 1, |arrival|);
    NaivePrefix(k, arrival, load, i, i);
    assert served[i] == served[..i + 1][i];
  }

  /** The scan by places on the ring instead of steps round it. */
  lemma ScanInPlaces(busyUntil: map<nat, int>, k: nat, start: nat, time: int)
    requires start < k
    ensures var r := Scan(busyUntil, k, start, 0, time);
      && (r.None? <==> forall t: nat :: t < k ==> !IsFree(busyUntil, t, time))
      && (r.Some? ==>
            && var s := r.value;
            && s < k && IsFree(busyUntil, s, time)
            && forall t: nat :: t < k && (if start <= s then start <= t < s else t < s || start <= t) ==>
                 !IsFree(busyUntil, t, time))
  {
    hide Scan, IsFree;
    ScanMeans(busyUntil, k, start, 0, time);
    var r := Scan(busyUntil, k, start, 0, time);
    forall e: nat | e < k ensures Ring(k, start, e) == if start + e < k then start + e else start + e - k {
      RingStep(k, start, e);
    }
    hide Ring;
    if r.None? {
      forall t: nat | t < k ensures !IsFree(busyUntil, t, time) {
        var e := if start <= t then t - start else t + k - start;
        assert !IsFree(busyUntil, Ring(k, start, e), time);
      }
    } else {
      var d: nat :| d < k && r.value == Ring(k, start, d)
                    && forall e: nat :: e < d ==> !IsFree(busyUntil, Ring(k, start, e), time);
      var s := r.value;
      forall t: nat | t < k && (if start <= s then start <= t < s else t < s || start <= t)
        ensures !IsFree(busyUntil, t, time)
      {
        var e := if start <= t then t - start else t + k - start;
        assert e < d && Ring(k, start, e) == t;
      }
    }
  }

  /** A server whose request ends just when the next one arrives takes that one too. */
  lemma BackToBack(arrival: int, first: nat, second: int)
    ensures Naive(1, [arrival, arrival + first], [first, second], 2).served == [Some(0), Some(0)]
  {
    var log := Naive(1, [arrival, arrival + first], [first, second], 1);
    assert Naive(1, [arrival, arrival + first], [first, second], 0) == Log(map[], []);
    RingStep(1, 0, 0);
    assert log == Log(map[0 := arrival + first], [Some(0)]);
  }

  // ----- cyclic scan and ordered set -----

  /** A scan finds the free server that comes first round the ring from `start`. */
  lemma {:induction false} ScanFinds(busyUntil: map<nat, int>, k: nat, start: nat, j: nat, time: int, target: nat)
    requires 0 < k && j <= target < k
    requires IsFree(busyUntil, Ring(k, start, target), time)
    requires forall i :: j <= i < target ==> !IsFree(busyUntil, Ring(k, start, i), time)
    ensures Scan(busyUntil, k, start, j, time) == Some(Ring(k, start, target))
    decreases target - j
  {
    if j < target {
      ScanFinds(busyUntil, k, start, j + 1, time, target);
    }
  }

  lemma {:induction false} ScanFindsNone(busyUntil: map<nat, int>, k: nat, start: nat, j: nat, time: int)
    requires 0 < k && j <= k
    requires forall s: nat :: s < k ==> !IsFree(busyUntil, s, time)
    ensures Scan(busyUntil, k, start, j, time) == None
    decreases k - j
  {
    if j < k {
      ScanFindsNone(busyUntil, k, start, j + 1, time);
    }
  }

  lemma RingStep(k: nat, start: nat, i: nat)
    requires start < k && i < k
    ensures Ring(k, start, i) == if start + i < k then start + i else start + i - k
  {
    if start + i >= k {
      assert (start + i) % k == (start + i - k) % k;
    }
  }

  /** lower_bound, falling back to the first element, is the cyclic scan. */
  lemma LowerBoundIsScan(busyUntil: map<nat, int>, k: nat, start: nat, time: int, server: nat)
    requires start < k && server < k && IsFree(busyUntil, server, time)
    requires if start <= server then forall s: nat :: start <= s < server ==> !IsFree(busyUntil, s, time)
             else forall s: nat :: s < k && (s < server || start <= s) ==> !IsFree(busyUntil, s, time)
    ensures Scan(busyUntil, k, start, 0, time) == Some(server)
  {
    var target := if start <= server then server - start else server + k - start;
    RingStep(k, start, target);
    forall i | 0 <= i < target ensures !IsFree(busyUntil, Ring(k, start, i), time) {
      RingStep(k, start, i);
    }
    ScanFinds(busyUntil, k, start, 0, time, target);
  }

  // ----- the event simulation -----

  /** Each server is either idle, and free, or on the heap once, under the time it becomes free. */
  ghost predicate Partition(k: nat, available: set<int>, endTimes: multiset<(int, int)>, busyUntil: map<nat, int>,
                            time: int) {
    && (forall s :: s in available ==> 0 <= s < k && IsFree(busyUntil, s, time))
    && (forall s: nat :: s < k && s !in available ==> s in busyUntil)
    && (forall p :: endTimes[p] == if 0 <= p.1 < k && p.1 !in available && p.1 in busyUntil
        && busyUntil[p.1] == p.0 then 1 else 0)
  }

  ghost predicate Counted(served: seq<Option<nat>>, k: nat, serveCounts: map<int, int>) {
    && (forall s :: s in serveCounts ==> 0 <= s < k && serveCounts[s] == Taken(served, s) >= 1)
    && (forall s: nat :: s !in serveCounts ==> Taken(served, s) == 0)
  }

  lemma PopServer(k: nat, available: set<int>, endTimes: multiset<(int, int)>, busyUntil: map<nat, int>, time: int,
                  top: (int, int))
    requires Partition(k, available, endTimes, busyUntil, time) && top in endTimes && top.0 <= time
    ensures Partition(k, available + {top.1}, endTimes - multiset{top}, busyUntil, time)
    ensures top.1 !in available && 0 <= top.1 < k
  {
  }

  /** With every finished server popped, the idle set is exactly the free servers. */
  lemma AllPopped(k: nat, available: set<int>, endTimes: multiset<(int, int)>, busyUntil: map<nat, int>, time: int)
    requires Partition(k, available, endTimes, busyUntil, time) && forall p :: p in endTimes ==> time < p.0
    ensures forall s: nat :: s < k ==> (s in available <==> IsFree(busyUntil, s, time))
  {
    forall s: nat | s < k && s !in available ensures !IsFree(busyUntil, s, time) {
      assert endTimes[(busyUntil[s], s as int)] == 1;
    }
  }

  lemma PushServer(k: nat, available: set<int>, endTimes: multiset<(int, int)>, busyUntil: map<nat, int>, time: int,
                   server: nat, end: int)
    requires Partition(k, available, endTimes, busyUntil, time) && server in available && server < k
    ensures Partition(k, available - {server as int}, endTimes + multiset{(end, server as int)},
            busyUntil[server := end], time)
  {
  }

  lemma TakenMore(served: seq<Option<nat>>, last: Option<nat>)
    ensures forall s: nat :: Taken(served + [last], s) == Taken(served, s) + if last == Some(s) then 1 else 0
  {
  }

  lemma LaterPartition(k: nat, available: set<int>, endTimes: multiset<(int, int)>, busyUntil: map<nat, int>,
                       time: int, later: int)
    requires Partition(k, available, endTimes, busyUntil, time) && time <= later
    ensures Partition(k, available, endTimes, busyUntil, later)
  {
  }

  // ----- choosing the busiest -----

  /** The heap of (count, server), less the servers taken from it. */
  ghost predicate Ranked(counts: multiset<(int, int)>, serveCounts: map<int, int>, listed: set<int>) {
    forall p :: counts[p] == if p.1 in listed && p.1 in serveCounts && serveCounts[p.1] == p.0 then 1 else 0
  }

  lemma RankMore(counts: multiset<(int, int)>, serveCounts: map<int, int>, listed: set<int>, s: int)
    requires Ranked(counts, serveCounts, listed) && s in serveCounts && s !in listed
    ensures Ranked(counts + multiset{(serveCounts[s], s)}, serveCounts, listed + {s})
  {
  }

  lemma RankLess(counts: multiset<(int, int)>, serveCounts: map<int, int>, listed: set<int>, top: (int, int))
    requires Ranked(counts, serveCounts, listed) && top in counts
    ensures Ranked(counts - multiset{top}, serveCounts, listed - {top.1})
    ensures top.1 in listed && top.1 in serveCounts && serveCounts[top.1] == top.0
  {
  }

  lemma RankedMembers(counts: multiset<(int, int)>, serveCounts: map<int, int>, listed: set<int>)
    requires Ranked(counts, serveCounts, listed) && listed <= serveCounts.Keys
    ensures forall s :: s in listed ==> (serveCounts[s], s) in counts
  {
  }

  const BY_COUNT: ((int, int)) -> int := (p: (int, int)) => -p.0
  const BY_END: ((int, int)) -> int := (p: (int, int)) => p.0

  method RankAll(serveCounts: map<int, int>) returns (counts: multiset<(int, int)>)
    ensures Ranked(counts, serveCounts, serveCounts.Keys)
  {
    counts := multiset{};
    var todo := serveCounts.Keys;
    while todo != {}
      invariant todo <= serveCounts.Keys && Ranked(counts, serveCounts, serveCounts.Keys - todo)
      decreases |todo|
    {
      ghost var some := SomeMember(todo);
      var s :| s in todo;
      RankMore(counts, serveCounts, serveCounts.Keys - todo, s);
      assert serveCounts.Keys - todo + {s} == serveCounts.Keys - (todo - {s});
      counts := counts + multiset{(serveCounts[s], s)};
      todo := todo - {s};
    }
    assert serveCounts.Keys - todo == serveCounts.Keys;
  }

  lemma TopIsMost(counts: multiset<(int, int)>, serveCounts: map<int, int>, listed: set<int>, top: (int, int))
    requires Ranked(counts, serveCounts, listed) && listed <= serveCounts.Keys
    requires top in counts && forall p :: p in counts ==> BY_COUNT(top) <= BY_COUNT(p)
    ensures top.1 in listed && serveCounts[top.1] == top.0
    ensures forall s :: s in listed ==> serveCounts[s] <= top.0
    ensures Ranked(counts - multiset{top}, serveCounts, listed - {top.1})
  {
    RankLess(counts, serveCounts, listed, top);
    forall s | s in listed ensures serveCounts[s] <= top.0 {
      assert counts[(serveCounts[s], s)] == 1;
      assert BY_COUNT(top) <= BY_COUNT((serveCounts[s], s));
    }
  }

  ghost predicate MostIn(serveCounts: map<int, int>, s: int) {
    s in serveCounts && forall r :: r in serveCounts ==> serveCounts[r] <= serveCounts[s]
  }

  /** No server of the ring took more requests than `s`. */
  ghost predicate Busiest(served: seq<Option<nat>>, k: nat, s: int) {
    0 <= s < k && forall r: nat :: r < k ==> Taken(served, r) <= Taken(served, s)
  }

  /** The busiest servers in terms of the requests themselves. */
  lemma BusiestMeans(served: seq<Option<nat>>, k: nat, s: nat)
    ensures Busiest(served, k, s) <==>
            s < k && forall r: nat :: r < k ==>
              |set i | 0 <= i < |served| && served[i] == Some(r)| <= |set i | 0 <= i < |served| && served[i] == Some(s)|
  {
    forall r: nat ensures Taken(served, r) == |set i | 0 <= i < |served| && served[i] == Some(r)| {
      TakenCounts(served, r);
    }
  }

  /** `out` lists, each once, the servers already taken from the heap; all have the largest count. */
  ghost predicate Drained(out: seq<int>, serveCounts: map<int, int>, listed: set<int>, most: int) {
    && listed <= serveCounts.Keys
    && (forall i, j :: 0 <= i < j < |out| ==> out[i] != out[j])
    && (forall s :: s in out <==> s in serveCounts.Keys - listed)
    && (forall s :: s in serveCounts.Keys - listed ==> serveCounts[s] == most)
    && (forall s :: s in listed ==> serveCounts[s] <= most)
  }

  lemma DrainMore(out: seq<int>, serveCounts: map<int, int>, listed: set<int>, most: int, s: int)
    requires Drained(out, serveCounts, listed, most) && s in listed && serveCounts[s] == most
    ensures Drained(out + [s], serveCounts, listed - {s}, most)
  {
    assert s !in out;
    assert forall i :: 0 <= i < |out| ==> out[i] in out;
  }

  lemma DrainEnds(out: seq<int>, serveCounts: map<int, int>, listed: set<int>, most: int)
    requires Drained(out, serveCounts, listed, most) && out != [] && forall s :: s in listed ==> serveCounts[s] < most
    ensures forall s :: s in out <==> MostIn(serveCounts, s)
  {
    assert out[0] in out;
  }

  /** The servers with the largest count, each once. */
  method MostCounted(serveCounts: map<int, int>) returns (out: seq<int>)
    requires serveCounts != map[]
    ensures forall i, j :: 0 <= i < j < |out| ==> out[i] != out[j]
    ensures forall s :: s in out <==> MostIn(serveCounts, s)
  {
    var counts := RankAll(serveCounts);
    RankedMembers(counts, serveCounts, serveCounts.Keys);
    assert |counts| > 0 by { var s := SomeMember(serveCounts.Keys); assert (serveCounts[s], s) in counts; }
    ghost var listed := serveCounts.Keys;
    var most := Top(counts, BY_COUNT);
    TopIsMost(counts, serveCounts, listed, most);
    out := [];
    DrainMore(out, serveCounts, listed, most.0, most.1);
    hide Ranked, Drained, MostIn;
    counts := counts - multiset{most};
    out := out + [most.1];
    listed := listed - {most.1};
    while |counts| > 0
      invariant listed <= serveCounts.Keys && Ranked(counts, serveCounts, listed)
      invariant Drained(out, serveCounts, listed, most.0) && out != []
      decreases |counts|
    {
      var top := Top(counts, BY_COUNT);
      TopIsMost(counts, serveCounts, listed, top);
      if most.0 != top.0 {
        NoneLarger(out, serveCounts, listed, most.0, top.1);
        break;
      }
      DrainMore(out, serveCounts, listed, most.0, top.1);
      out := out + [top.1];
      counts := counts - multiset{top};
      listed := listed - {top.1};
    }
    RankedMembers(counts, serveCounts, listed);
    DrainEnds(out, serveCounts, listed, most.0);
    DrainedOnce(out, serveCounts, listed, most.0);
  }

  lemma NoneLarger(out: seq<int>, serveCounts: map<int, int>, listed: set<int>, most: int, top: int)
    requires Drained(out, serveCounts, listed, most) && top in listed && serveCounts[top] != most
    requires forall s :: s in listed ==> serveCounts[s] <= serveCounts[top]
    ensures forall s :: s in listed ==> serveCounts[s] < most
  {
  }

  lemma DrainedOnce(out: seq<int>, serveCounts: map<int, int>, listed: set<int>, most: int)
    requires Drained(out, serveCounts, listed, most)
    ensures forall i, j :: 0 <= i < j < |out| ==> out[i] != out[j]
  {
  }

  // ----- the request loop -----

  /** The simulation after `i` requests, at `time`, next to the naive one. */
  ghost predicate InStep(k: nat, arrival: seq<int>, load: seq<int>, i: nat, available: set<int>,
                         endTimes: multiset<(int, int)>,
                         serveCounts: map<int, int>, log: Log, time: int)
    requires 0 < k && i <= |arrival| == |load|
  {
    && Naive(k, arrival, load, i) == log
    && Partition(k, available, endTimes, log.busyUntil, time)
    && Counted(log.served, k, serveCounts)
  }

  lemma Refuse(k: nat, arrival: seq<int>, load: seq<int>, i: nat, available: set<int>, endTimes: multiset<(int, int)>,
               serveCounts: map<int, int>, log: Log) returns (log': Log)
    requires 0 < k && i < |arrival| == |load|
             && InStep(k, arrival, load, i, available, endTimes, serveCounts, log, arrival[i])
    requires forall s: nat :: s < k ==> !IsFree(log.busyUntil, s, arrival[i])
    ensures log' == Log(log.busyUntil, log.served + [None])
    ensures InStep(k, arrival, load, i + 1, available, endTimes, serveCounts, log', arrival[i])
  {
    log' := Log(log.busyUntil, log.served + [None]);
    ScanFindsNone(log.busyUntil, k, i % k, 0, arrival[i]);
    TakenMore(log.served, None);
  }

  lemma Serve(k: nat, arrival: seq<int>, load: seq<int>, i: nat, available: set<int>, endTimes: multiset<(int, int)>,
              serveCounts: map<int, int>, log: Log, server: nat) returns (log': Log)
    requires 0 < k && i < |arrival| == |load|
             && InStep(k, arrival, load, i, available, endTimes, serveCounts, log, arrival[i])
    requires server < k && server in available && Scan(log.busyUntil, k, i % k, 0, arrival[i]) == Some(server)
    ensures log' == Log(log.busyUntil[server := arrival[i] + load[i]], log.served + [Some(server)])
    ensures InStep(k, arrival, load, i + 1, available - {server as int},
                   endTimes + multiset{(arrival[i] + load[i], server as int)},
                   serveCounts[server as int := (if server in serveCounts then serveCounts[server] else 0) + 1],
                   log', arrival[i])
  {
    log' := Log(log.busyUntil[server := arrival[i] + load[i]], log.served + [Some(server)]);
    PushServer(k, available, endTimes, log.busyUntil, arrival[i], server, arrival[i] + load[i]);
    hide Partition, Scan, Taken;
    TakenMore(log.served, Some(server));
  }

  /** Every request goes where the naive simulation sends it; the result is exactly the busiest servers. */
  method BusiestServers(k: int, arrival: seq<int>, load: seq<int>)
    returns (out: seq<int>, ghost served: seq<Option<nat>>)
    requires k >= 1 && |arrival| == |load| >= 1
    requires forall i, j :: 0 <= i < j < |arrival| ==> arrival[i] <= arrival[j]
    ensures served == Naive(k, arrival, load, |arrival|).served
    ensures forall i, j :: 0 <= i < j < |out| ==> out[i] != out[j]
    ensures forall s :: s in out <==> Busiest(served, k, s)
  {
    hide Partition, Counted, Scan, Naive, MostIn, Busiest;
    var endTimes: multiset<(int, int)> := multiset{};
    var available := AllServers(k);
    var serveCounts: map<int, int> := map[];
    ghost var log := Log(map[], []);
    Starts(k, arrival, load, available);
    for i := 0 to |arrival|
      invariant InStep(k, arrival, load, i, available, endTimes, serveCounts, log, arrival[if i == 0 then 0 else i - 1])
      invariant i == 0 ==> 0 in available
      invariant i > 0 ==> serveCounts != map[]
    {
      LaterPartition(k, available, endTimes, log.busyUntil, arrival[if i == 0 then 0 else i - 1], arrival[i]);
      available, endTimes := FreeServers(k, available, endTimes, log.busyUntil, arrival[i]);
      InRange(k, available, endTimes, log.busyUntil, arrival[i]);
      if available == {} {
        log := Refuse(k, arrival, load, i, available, endTimes, serveCounts, log);
      } else {
        var server := NextServer(available, i % k);
        LowerBoundIsScan(log.busyUntil, k, i % k, arrival[i], server);
        log := Serve(k, arrival, load, i, available, endTimes, serveCounts, log, server);
        serveCounts := serveCounts[server := (if server in serveCounts then serveCounts[server] else 0) + 1];
        endTimes := endTimes + multiset{(arrival[i] + load[i], server)};
        available := available - {server};
      }
    }
    out := MostCounted(serveCounts);
    served := log.served;
    forall s ensures s in out <==> Busiest(served, k, s) {
      CountsAreTaken(served, k, serveCounts, s);
    }
  }

  lemma InRange(k: nat, available: set<int>, endTimes: multiset<(int, int)>, busyUntil: map<nat, int>, time: int)
    requires Partition(k, available, endTimes, busyUntil, time)
    ensures forall s :: s in available ==> 0 <= s < k
  {
  }

  lemma Starts(k: nat, arrival: seq<int>, load: seq<int>, available: set<int>)
    requires 0 < k && |arrival| == |load| >= 1 && forall s :: s in available <==> 0 <= s < k
    ensures InStep(k, arrival, load, 0, available, multiset{}, map[], Log(map[], []), arrival[0])
  {
  }

  /** The largest served count decides among all servers, those that served nothing included. */
  lemma CountsAreTaken(served: seq<Option<nat>>, k: nat, serveCounts: map<int, int>, s: int)
    requires Counted(served, k, serveCounts) && serveCounts != map[]
    ensures MostIn(serveCounts, s) <==> Busiest(served, k, s)
  {
    hide Taken;
    var some := SomeMember(serveCounts.Keys);
    if Busiest(served, k, s) {
      assert Taken(served, some) <= Taken(served, s);
      forall r | r in serveCounts ensures serveCounts[r] <= serveCounts[s] {
        assert Taken(served, r) <= Taken(served, s);
      }
    }
    if MostIn(serveCounts, s) {
      forall r: nat | r < k ensures Taken(served, r) <= Taken(served, s) {
        if r in serveCounts { assert serveCounts[r] <= serveCounts[s]; }
      }
    }
  }

  method AllServers(k: nat) returns (available: set<int>)
    ensures forall s :: s in available <==> 0 <= s < k
  {
    available := {};
    for i := 0 to k
      invariant forall s :: s in available <==> 0 <= s < i
    {
      available := available + {i as int};
    }
  }

  /** lower_bound of `start`, or the first server when nothing is left above. */
  method NextServer(available: set<int>, start: int) returns (server: int)
    requires available != {} && forall s :: s in available ==> 0 <= s
    ensures server in available
    ensures if start <= server then forall s :: start <= s < server ==> s !in available
            else forall s :: s < server || start <= s ==> s !in available
  {
    var found, s := LowerBound(available, start);
    if !found {
      assert exists y :: y in available && 0 <= y by { var y := SomeMember(available); }
      found, s := LowerBound(available, 0);
    }
    server := s;
  }

  /** Pops every server that has finished by `time`. */
  method FreeServers(k: nat, available: set<int>, endTimes: multiset<(int, int)>, ghost busyUntil: map<nat, int>,
                     time: int)
    returns (available': set<int>, endTimes': multiset<(int, int)>)
    requires Partition(k, available, endTimes, busyUntil, time)
    ensures Partition(k, available', endTimes', busyUntil, time) && available <= available'
    ensures forall s: nat :: s < k ==> (s in available' <==> IsFree(busyUntil, s, time))
  {
    available', endTimes' := available, endTimes;
    while |endTimes'| > 0
      invariant Partition(k, available', endTimes', busyUntil, time) && available <= available'
      decreases |endTimes'|
    {
      var top := Top(endTimes', BY_END);
      if top.0 > time {
        forall p | p in endTimes' ensures time < p.0 {
          assert BY_END(top) <= BY_END(p);
        }
        break;
      }
      PopServer(k, available', endTimes', busyUntil, time, top);
      available', endTimes' := available' + {top.1}, endTimes' - multiset{top};
    }
    AllPopped(k, available', endTimes', busyUntil, time);
  }
}
