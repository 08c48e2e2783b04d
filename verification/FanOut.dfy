/** The sweep with which the master sends an accepted command to the joined nodes
    (SQSMaster/src/SQSMaster.cpp): a vector is erased from while it is walked. */
module FanOut {
  import opened Basics

  /** A data node as the master knows it: its address for the master, and its address for clients. */
  datatype Addr = Addr(name: string, port: int, publicName: string, publicPort: int)

  /** The sender filter: BOTH the name and the port must differ from the origin's. */
  predicate Passes(origin: Addr, n: Addr) {
    origin.name != n.name && origin.port != n.port
  }

  function Passing(origin: Addr): Addr -> bool {
    n => Passes(origin, n)
  }

  function Others(origin: Addr): Addr -> bool {
    n => n != origin
  }

  /** The list after one sweep. Erasing a dead node moves the next one under the iterator, so that
      one is visited without being checked. */
  function Kept(ns: seq<Addr>, alive: Addr -> bool): seq<Addr> {
    if ns == [] then []
    else if alive(ns[0]) then [ns[0]] + Kept(ns[1..], alive)
    else if |ns| == 1 then []
    else [ns[1]] + Kept(ns[2..], alive)
  }

  /** The list when the walk over v, now at index i, ends. */
  function Walk(v: seq<Addr>, i: nat, alive: Addr -> bool): seq<Addr>
    requires i <= |v|
    decreases |v| - i
  {
    if i == |v| then v
    else if alive(v[i]) then Walk(v, i + 1, alive)
    else if i + 1 == |v| then RemoveAt(v, i)
    else Walk(RemoveAt(v, i), i + 1, alive)
  }

  lemma {:induction false} WalkKeeps(v: seq<Addr>, i: nat, alive: Addr -> bool)
    requires i <= |v|
    ensures Walk(v, i, alive) == v[..i] + Kept(v[i..], alive)
    decreases |v| - i
  {
    if i == |v| {
      assert v[..i] == v && v[i..] == [];
    } else if alive(v[i]) {
      WalkKeeps(v, i + 1, alive);
      VisitOne(v, i, Kept(v[i + 1..], alive));
      assert v[i..][1..] == v[i + 1..];
    } else if i + 1 == |v| {
      assert RemoveAt(v, i) == v[..i] && |v[i..]| == 1;
    } else {
      var w := RemoveAt(v, i);
      WalkKeeps(w, i + 1, alive);
      VisitOne(w, i, Kept(w[i + 1..], alive));
      assert w[..i] == v[..i] && w[i + 1..] == v[i..][2..];
    }
  }

  lemma VisitOne(v: seq<Addr>, i: nat, rest: seq<Addr>)
    requires i < |v|
    ensures v[..i + 1] + rest == v[..i] + ([v[i]] + rest)
  {
    assert v[..i + 1] == v[..i] + [v[i]];
  }

  /** The nodes a sweep asks about: all but those it skips. */
  function Checked(ns: seq<Addr>, alive: Addr -> bool): seq<Addr> {
    if ns == [] then []
    else [ns[0]] + (if alive(ns[0]) then Checked(ns[1..], alive) else if |ns| == 1 then [] else Checked(ns[2..], alive))
  }

  /** No live node is removed, and the live nodes keep their order. */
  lemma {:induction false} LiveKept(ns: seq<Addr>, alive: Addr -> bool)
    ensures Filter(Kept(ns, alive), alive) == Filter(ns, alive)
  {
    if ns == [] || (|ns| == 1 && !alive(ns[0])) {
    } else {
      var k := if alive(ns[0]) then 1 else 2;
      LiveKept(ns[k..], alive);
      assert Kept(ns, alive) == [ns[k - 1]] + Kept(ns[k..], alive);
      FilterConcat([ns[k - 1]], Kept(ns[k..], alive), alive);
      assert ns == ns[..k] + ns[k..];
      FilterConcat(ns[..k], ns[k..], alive);
      assert Filter(ns[..k], alive) == Filter([ns[k - 1]], alive) by {
        if k == 2 { assert ns[..2] == [ns[0]] + [ns[1]]; FilterConcat([ns[0]], [ns[1]], alive); }
        else { assert ns[..1] == [ns[0]]; }
      }
    }
  }

  /** A sweep adds nobody, and loses nobody who is alive. */
  lemma {:induction false} KeptMembers(ns: seq<Addr>, alive: Addr -> bool)
    ensures forall n :: n in Kept(ns, alive) ==> n in ns
    ensures forall n :: n in ns && alive(n) ==> n in Kept(ns, alive)
    decreases |ns|
  {
    if ns == [] || (|ns| == 1 && !alive(ns[0])) {
    } else if alive(ns[0]) {
      KeptMembers(ns[1..], alive);
      assert ns == [ns[0]] + ns[1..];
    } else {
      KeptMembers(ns[2..], alive);
      assert ns == [ns[0], ns[1]] + ns[2..];
    }
  }

  lemma {:induction false} FilterFilter(ns: seq<Addr>, p: Addr -> bool, q: Addr -> bool)
    ensures Filter(Filter(ns, p), q) == Filter(ns, n => p(n) && q(n))
    ensures Filter(Filter(ns, p), q) == Filter(Filter(ns, q), p)
  {
    if ns != [] {
      FilterFilter(ns[1..], p, q);
      FilterConcat(if p(ns[0]) then [ns[0]] else [], Filter(ns[1..], p), q);
      FilterConcat(if q(ns[0]) then [ns[0]] else [], Filter(ns[1..], q), p);
    }
  }

  /** Every live node that passes the filter is sent the command exactly as often as it is listed, in list order. */
  lemma LiveAreSent(ns: seq<Addr>, alive: Addr -> bool, origin: Addr)
    ensures Filter(Filter(Kept(ns, alive), Passing(origin)), alive) == Filter(Filter(ns, alive), Passing(origin))
  {
    FilterFilter(Kept(ns, alive), Passing(origin), alive);
    LiveKept(ns, alive);
  }

  /** The sweep starts afresh after every live node: it works on each run of dead nodes alone. */
  lemma {:induction false} KeptAroundLive(a: seq<Addr>, l: Addr, b: seq<Addr>, alive: Addr -> bool)
    requires alive(l)
    ensures Kept(a + [l] + b, alive) == Kept(a, alive) + [l] + Kept(b, alive)
    decreases |a|
  {
    var ns, kb := a + [l] + b, Kept(b, alive);
    if a == [] {
      assert ns[1..] == b && ns[0] == l;
    } else if alive(a[0]) {
      KeptAroundLive(a[1..], l, b, alive);
      assert ns[1..] == a[1..] + [l] + b;
      ConsAround(a[0], Kept(a[1..], alive), l, kb);
    } else if |a| == 1 {
      assert ns[1] == l && ns[2..] == b;
    } else {
      KeptAroundLive(a[2..], l, b, alive);
      assert ns[2..] == a[2..] + [l] + b && ns[1] == a[1];
      ConsAround(a[1], Kept(a[2..], alive), l, kb);
    }
  }

  lemma ConsAround(x: Addr, a: seq<Addr>, l: Addr, b: seq<Addr>)
    ensures [x] + (a + [l] + b) == ([x] + a) + [l] + b
  {
  }

  /** A run of k dead nodes loses its first, third, fifth, ... member: half of it, rounded up. */
  lemma {:induction false} KeptRun(d: seq<Addr>, alive: Addr -> bool)
    requires forall i :: 0 <= i < |d| ==> !alive(d[i])
    ensures |Kept(d, alive)| == |d| / 2
    ensures forall i :: 0 <= i < |d| / 2 ==> Kept(d, alive)[i] == d[2 * i + 1]
  {
    if |d| >= 2 {
      KeptRun(d[2..], alive);
      forall i | 0 <= i < |d| / 2
        ensures Kept(d, alive)[i] == d[2 * i + 1]
      {
        if i > 0 { assert Kept(d, alive)[i] == Kept(d[2..], alive)[i - 1] == d[2..][2 * (i - 1) + 1]; }
      }
    }
  }

  function Max(a: nat, b: nat): nat { if a < b then b else a }

  /** The length of the longest run of dead nodes, when run dead nodes have just been passed. */
  function LongestRun(ns: seq<Addr>, alive: Addr -> bool, run: nat): nat {
    if ns == [] then run
    else if alive(ns[0]) then Max(run, LongestRun(ns[1..], alive, 0))
    else LongestRun(ns[1..], alive, run + 1)
  }

  function LeadingDead(ns: seq<Addr>, alive: Addr -> bool): (k: nat)
    ensures k <= |ns|
    ensures forall i :: 0 <= i < k ==> !alive(ns[i])
    ensures k < |ns| ==> alive(ns[k])
  {
    if ns == [] || alive(ns[0]) then 0 else 1 + LeadingDead(ns[1..], alive)
  }

  lemma {:induction false} LongestAfterDead(d: seq<Addr>, b: seq<Addr>, alive: Addr -> bool, run: nat)
    requires forall i :: 0 <= i < |d| ==> !alive(d[i])
    ensures LongestRun(d + b, alive, run) == LongestRun(b, alive, run + |d|)
  {
    if d == [] {
      assert d + b == b;
    } else {
      assert (d + b)[1..] == d[1..] + b;
      LongestAfterDead(d[1..], b, alive, run + 1);
    }
  }

  lemma LongestAroundLive(d: seq<Addr>, l: Addr, b: seq<Addr>, alive: Addr -> bool)
    requires alive(l) && forall i :: 0 <= i < |d| ==> !alive(d[i])
    ensures LongestRun(d + [l] + b, alive, 0) == Max(|d|, LongestRun(b, alive, 0))
  {
    assert d + [l] + b == d + ([l] + b) && ([l] + b)[1..] == b;
    LongestAfterDead(d, [l] + b, alive, 0);
  }

  /** One sweep halves the longest run of dead nodes. */
  lemma {:induction false} SweepHalves(ns: seq<Addr>, alive: Addr -> bool)
    ensures LongestRun(Kept(ns, alive), alive, 0) == LongestRun(ns, alive, 0) / 2
    decreases |ns|
  {
    var k := LeadingDead(ns, alive);
    var d, kd := ns[..k], Kept(ns[..k], alive);
    KeptRun(d, alive);
    assert forall i :: 0 <= i < |kd| ==> !alive(kd[i]);
    if k == |ns| {
      assert d == ns && ns + [] == ns && kd + [] == kd;
      LongestAfterDead(d, [], alive, 0);
      LongestAfterDead(kd, [], alive, 0);
    } else {
      var l, b := ns[k], ns[k + 1..];
      assert ns == d + [l] + b;
      KeptAroundLive(d, l, b, alive);
      LongestAroundLive(d, l, b, alive);
      LongestAroundLive(kd, l, Kept(b, alive), alive);
      SweepHalves(b, alive);
    }
  }

  function Sweeps(ns: seq<Addr>, alive: Addr -> bool, n: nat): seq<Addr>
    decreases n
  {
    if n == 0 then ns else Sweeps(Kept(ns, alive), alive, n - 1)
  }

  function Pow2(n: nat): (p: nat)
    ensures 0 < p
  {
    if n == 0 then 1 else 2 * Pow2(n - 1)
  }

  lemma {:induction false} NoRunMeansLive(ns: seq<Addr>, alive: Addr -> bool, run: nat)
    ensures LongestRun(ns, alive, run) >= run
    ensures LongestRun(ns, alive, 0) == 0 <==> Filter(ns, alive) == ns
    ensures |Filter(ns, alive)| <= |ns|
  {
    if ns != [] {
      NoRunMeansLive(ns[1..], alive, run + 1);
      NoRunMeansLive(ns[1..], alive, 1);
      assert ns == [ns[0]] + ns[1..];
    }
  }

  /** How many sweeps clear the list: n of them leave exactly the live nodes, in order, if and only if
      every run of dead nodes is shorter than 2 to the n. */
  lemma {:induction false} SweepsClearExactly(ns: seq<Addr>, alive: Addr -> bool, n: nat)
    ensures Sweeps(ns, alive, n) == Filter(ns, alive) <==> LongestRun(ns, alive, 0) < Pow2(n)
    decreases n
  {
    if n == 0 {
      NoRunMeansLive(ns, alive, 0);
    } else {
      SweepsClearExactly(Kept(ns, alive), alive, n - 1);
      LiveKept(ns, alive);
      SweepHalves(ns, alive);
    }
  }

  /** Exactly when the filter lets through every live node but the origin: no other live node may share
      the origin's name or port. Two nodes on one host already break this. */
  lemma FilterIsOthersExactly(ns: seq<Addr>, alive: Addr -> bool, origin: Addr)
    ensures Filter(Filter(ns, alive), Passing(origin)) == Filter(Filter(ns, alive), Others(origin))
       <==> forall n :: n in ns && alive(n) && n != origin ==> n.name != origin.name && n.port != origin.port
  {
    var live, p, q := Filter(ns, alive), Passing(origin), Others(origin);
    FilterMembers(ns, alive);
    FilterMembers(live, p);
    FilterMembers(live, q);
    if forall n :: n in live && n != origin ==> n.name != origin.name && n.port != origin.port {
      FilterSame(live, p, q);
    } else {
      var n :| n in live && n != origin && !Passes(origin, n);
      assert n in Filter(live, q) && n !in Filter(live, p);
    }
  }

  lemma {:induction false} FilterSame(ns: seq<Addr>, p: Addr -> bool, q: Addr -> bool)
    requires forall n :: n in ns ==> (p(n) <==> q(n))
    ensures Filter(ns, p) == Filter(ns, q)
  {
    if ns != [] { FilterSame(ns[1..], p, q); }
  }

  lemma HeadCount(ns: seq<Addr>, n: Addr)
    requires ns != []
    ensures multiset(ns)[n] == (if ns[0] == n then 1 else 0) + multiset(ns[1..])[n]
  {
    assert ns == [ns[0]] + ns[1..];
  }

  lemma {:induction false} FilterCount(ns: seq<Addr>, p: Addr -> bool, n: Addr)
    ensures multiset(Filter(ns, p))[n] == if p(n) then multiset(ns)[n] else 0
  {
    if ns != [] {
      FilterCount(ns[1..], p, n);
      HeadCount(ns, n);
      assert multiset(Filter(ns, p)) == multiset(if p(ns[0]) then [ns[0]] else []) + multiset(Filter(ns[1..], p));
    }
  }

  lemma KeptCount(ns: seq<Addr>, alive: Addr -> bool, n: Addr)
    requires alive(n)
    ensures multiset(Kept(ns, alive))[n] == multiset(ns)[n]
  {
    LiveKept(ns, alive);
    FilterCount(ns, alive, n);
    FilterCount(Kept(ns, alive), alive, n);
  }

  /** How a sweep starts. */
  lemma SweepStarts(ns: seq<Addr>, alive: Addr -> bool)
    requires ns != []
    ensures alive(ns[0]) ==> Checked(ns, alive) == [ns[0]] + Checked(ns[1..], alive)
    ensures alive(ns[0]) ==> Kept(ns, alive) == [ns[0]] + Kept(ns[1..], alive)
    ensures !alive(ns[0]) && |ns| == 1 ==> Checked(ns, alive) == ns && Kept(ns, alive) == []
    ensures !alive(ns[0]) && |ns| > 1 ==> Checked(ns, alive) == [ns[0]] + Checked(ns[2..], alive)
    ensures !alive(ns[0]) && |ns| > 1 ==> Kept(ns, alive) == [ns[1]] + Kept(ns[2..], alive)
  {
  }

  /** A dead node is left in the list as often as it was there, less as often as the sweep asks about it: what a
      sweep skips it keeps. */
  lemma {:induction false} SkippedStay(ns: seq<Addr>, alive: Addr -> bool, n: Addr)
    requires !alive(n)
    ensures multiset(ns)[n] == multiset(Kept(ns, alive))[n] + multiset(Checked(ns, alive))[n]
    decreases |ns|
  {
    if ns != [] {
      SweepStarts(ns, alive);
      HeadCount(ns, n);
      hide Kept, Checked;
      if alive(ns[0]) {
        SkippedStay(ns[1..], alive, n);
        Counted(ns[0], Checked(ns[1..], alive), n);
        Counted(ns[0], Kept(ns[1..], alive), n);
      } else if |ns| > 1 {
        SkippedStay(ns[2..], alive, n);
        HeadCount(ns[1..], n);
        assert ns[1..][1..] == ns[2..];
        Counted(ns[0], Checked(ns[2..], alive), n);
        Counted(ns[1], Kept(ns[2..], alive), n);
      }
    }
  }

  lemma Counted(x: Addr, ns: seq<Addr>, n: Addr)
    ensures multiset([x] + ns)[n] == (if x == n then 1 else 0) + multiset(ns)[n]
  {
    HeadCount([x] + ns, n);
    assert ([x] + ns)[1..] == ns;
  }
}
