/** Resolution of `revisit` records inside one archive: bounded rounds over the
    record list, each resolving a revisit whose target is already resolved.
    Chains of links say what the rounds compute, independently of their order. */
module LocalRevisits {
  import opened Wrappers
  import opened Archives

  const MAX_ROUNDS := 64
  const WORK_LIMIT := 2_000_000

  /** A revisit this pass may resolve: one not bound to a dependency archive. */
  predicate Eligible(r: Record) {
    r.Kind() == "revisit" && !r.resolved && r.Get(DependencySha) == ""
  }

  /** As the scanner leaves records: every record has its own stored body. */
  ghost predicate Scanned(records: seq<Record>) {
    forall i :: 0 <= i < |records| ==> records[i].source.Some?
  }

  ghost predicate UniqueIds(records: seq<Record>) {
    forall i, j :: 0 <= i < j < |records| && records[i].Get(RecordId) == records[j].Get(RecordId) ==>
      records[i].Get(RecordId) == ""
  }

  /** Every revisit this pass may resolve names its target by record id. */
  ghost predicate LinkedById(records: seq<Record>) {
    forall i :: 0 <= i < |records| && Eligible(records[i]) ==> records[i].Get(RefersTo) != ""
  }

  /** A revisit after taking over the payload of its target. */
  function Filled(r: Record, target: Record): Record {
    r.(resolved := true,
       payloadSource := target.Body(),
       payloadLength := target.payloadLength,
       payloadDigest := target.payloadDigest,
       mime := if r.mime == "" then target.mime else r.mime,
       status := if r.status == 0 then target.status else r.status)
  }

  // ---- chains ----

  /** `path` leads from a record through revisits, each matching the next once that is
      filled in, to a record that carries its own payload. */
  ghost predicate Chain(rs: seq<Record>, path: seq<nat>)
    decreases |path|
  {
    |path| > 0 && InRange(rs, path) &&
    if |path| == 1 then rs[path[0]].resolved
    else
      Eligible(rs[path[0]]) && Chain(rs, path[1..]) &&
      RevisitMatches(rs[path[0]], Along(rs, path[1..]))
  }

  /** The first record of a path, filled from the last through all between. */
  ghost function Along(rs: seq<Record>, path: seq<nat>): (r: Record)
    requires |path| > 0 && InRange(rs, path)
    ensures SameIdentity(r, rs[path[0]])
    decreases |path|
  {
    if |path| == 1 then rs[path[0]] else Filled(rs[path[0]], Along(rs, path[1..]))
  }

  /** Resolution never touches headers, HTTP head or location. */
  predicate SameIdentity(a: Record, b: Record) {
    a.headers == b.headers && a.http == b.http && a.source == b.source &&
    a.member == b.member && a.offset == b.offset && a.length == b.length
  }

  ghost predicate Explained(before: seq<Record>, r: Record, i: nat) {
    exists path :: Chain(before, path) && path[0] == i && r == Along(before, path)
  }

  /** A record has its own payload, or is a revisit that took over that of a record it matches. */
  ghost predicate Taken(before: seq<Record>, now: seq<Record>, i: nat)
    requires i < |now| == |before|
  {
    now[i] == before[i] || exists t: nat :: TakenFrom(before, now, i, t)
  }

  predicate TakenFrom(before: seq<Record>, now: seq<Record>, i: nat, t: nat)
    requires i < |now| == |before|
  {
    t < |now| && Eligible(before[i]) && RevisitMatches(before[i], now[t]) && now[i] == Filled(before[i], now[t])
  }

  /** Every record is as it was and unresolved, or is what some chain makes of it. */
  ghost predicate Sound(before: seq<Record>, now: seq<Record>) {
    |now| == |before| &&
    forall i: nat :: i < |now| ==> SoundAt(before, now, i)
  }

  ghost predicate SoundAt(before: seq<Record>, now: seq<Record>, i: nat)
    requires i < |now| == |before|
  {
    (now[i] == before[i] && !now[i].resolved) ||
    (now[i].resolved && Explained(before, now[i], i) && Taken(before, now, i))
  }

  /** Whatever is resolved has a chain behind it; whatever is not is as it was. */
  lemma {:induction false} ChainOf(before: seq<Record>, now: seq<Record>, i: nat) returns (path: seq<nat>)
    requires Sound(before, now) && i < |now| && now[i].resolved
    ensures Chain(before, path) && path[0] == i && now[i] == Along(before, path)
  {
    assert SoundAt(before, now, i);
    path :| Chain(before, path) && path[0] == i && now[i] == Along(before, path);
  }

  lemma {:induction false} Untouched(before: seq<Record>, now: seq<Record>, i: nat)
    requires Sound(before, now) && i < |now| && !now[i].resolved
    ensures now[i] == before[i]
  {
    assert SoundAt(before, now, i);
  }

  /** A revisit is resolved exactly when a chain starts at it. */
  ghost predicate Resolution(before: seq<Record>, after: seq<Record>) {
    Sound(before, after) &&
    forall path :: Chain(before, path) ==> after[path[0]].resolved
  }

  lemma {:induction false} SoundAtStart(rs: seq<Record>)
    ensures Sound(rs, rs)
  {
    forall i: nat | i < |rs|
      ensures SoundAt(rs, rs, i)
    {
      if rs[i].resolved {
        assert Chain(rs, [i]) && Along(rs, [i]) == rs[i];
      }
    }
  }

  lemma {:induction false} SoundStep(before: seq<Record>, now: seq<Record>, i: nat, t: nat)
    requires Sound(before, now) && i < |now| && t < |now|
    requires Eligible(now[i]) && RevisitMatches(now[i], now[t])
    ensures Sound(before, now[i := Filled(now[i], now[t])])
  {
    Untouched(before, now, i);
    var tail := ChainOf(before, now, t);
    var path := [i] + tail;
    assert path[1..] == tail;
    assert Chain(before, path) && Along(before, path) == Filled(now[i], now[t]);
    var next := now[i := Filled(now[i], now[t])];
    forall j: nat | j < |next|
      ensures SoundAt(before, next, j)
    {
      assert SoundAt(before, now, j);
      TakenStays(before, now, i, t, j);
    }
  }

  /** What has been taken over is never taken back. */
  lemma {:induction false} TakenStays(before: seq<Record>, now: seq<Record>, i: nat, t: nat, j: nat)
    requires |now| == |before| && i < |now| && t < |now| && j < |now| && now[i] == before[i]
    requires Eligible(now[i]) && RevisitMatches(now[i], now[t]) && (now[j].resolved ==> Taken(before, now, j))
    ensures var next := now[i := Filled(now[i], now[t])]; next[j].resolved ==> Taken(before, next, j)
  {
    var next := now[i := Filled(now[i], now[t])];
    if j == i {
      assert TakenFrom(before, next, i, t);
    } else if now[j].resolved && now[j] != before[j] {
      var u: nat :| TakenFrom(before, now, j, u);
      assert TakenFrom(before, next, j, u);
    }
  }

  /** What is not eligible has no chain but itself. */
  lemma {:induction false} IneligibleStays(before: seq<Record>, now: seq<Record>, i: nat)
    requires Sound(before, now) && i < |now| && !Eligible(before[i])
    ensures now[i] == before[i]
  {
    if now[i].resolved {
      var path := ChainOf(before, now, i);
    } else {
      Untouched(before, now, i);
    }
  }

  /** With unique ids a record id names one record. */
  lemma {:induction false} WithIdUnique(rs: seq<Record>, id: string, t: nat, n: nat)
    requires UniqueIds(rs) && id != "" && t < n <= |rs| && rs[t].Get(RecordId) == id
    ensures WithId(rs, id, n) == [t]
  {
    if t == n - 1 {
      WithIdNone(rs, id, n - 1);
    } else {
      WithIdUnique(rs, id, t, n - 1);
    }
  }

  lemma {:induction false} WithIdNone(rs: seq<Record>, id: string, n: nat)
    requires n <= |rs| && forall i :: 0 <= i < n ==> rs[i].Get(RecordId) != id
    ensures WithId(rs, id, n) == []
  {
    if n > 0 {
      WithIdNone(rs, id, n - 1);
    }
  }

  lemma {:induction false} TargetById(record: Record, rs: seq<Record>, t: nat)
    requires UniqueIds(rs) && t < |rs|
    requires record.Get(RefersTo) != "" && RevisitMatches(record, rs[t])
    ensures Named(record, rs) == [t] && Target(record, rs) == Some(t)
  {
    WithIdUnique(rs, record.Get(RefersTo), t, |rs|);
    assert Matching(record, rs, [t][..0]) == [];
    assert [t][..|[t]| - 1] == [];
    assert Matching(record, rs, [t]) == [t];
  }

  /** A link leads to one record, so a chain is determined by where it starts. */
  lemma {:induction false} ChainUnique(rs: seq<Record>, p: seq<nat>, q: seq<nat>)
    requires UniqueIds(rs) && LinkedById(rs)
    requires Chain(rs, p) && Chain(rs, q) && p[0] == q[0]
    ensures p == q
    decreases |p|
  {
    if |p| > 1 {
      ChainLink(rs, p);
      ChainLink(rs, q);
      SameId(rs, p[1], q[1]);
      ChainUnique(rs, p[1..], q[1..]);
      assert p == [p[0]] + p[1..] && q == [q[0]] + q[1..];
    }
  }

  /** No revisit still waiting has a resolved target. */
  ghost predicate Quiet(now: seq<Record>) {
    forall i: nat :: i < |now| ==> Settled(now, i)
  }

  predicate Settled(now: seq<Record>, i: nat)
    requires i < |now|
  {
    Eligible(now[i]) ==> Target(now[i], now).None?
  }

  /** When a whole round finds nothing to resolve, every chain has been followed. */
  lemma {:induction false} QuietFollows(before: seq<Record>, now: seq<Record>, path: seq<nat>)
    requires Sound(before, now) && Quiet(now) && UniqueIds(before) && LinkedById(before)
    requires Chain(before, path)
    ensures now[path[0]].resolved
    decreases |path|
  {
    var i := path[0];
    if !now[i].resolved {
      Untouched(before, now, i);
      var t := path[1];
      assert path[1..][0] == t;
      QuietFollows(before, now, path[1..]);
      var other := ChainOf(before, now, t);
      ChainUnique(before, other, path[1..]);
      SameIds(before, now);
      assert Settled(now, i);
      TargetById(now[i], now, t);
      assert false;
    }
  }

  lemma {:induction false} SameIds(before: seq<Record>, now: seq<Record>)
    requires Sound(before, now)
    ensures forall i :: 0 <= i < |now| ==> SameIdentity(now[i], before[i])
    ensures UniqueIds(before) ==> UniqueIds(now)
  {
    forall i | 0 <= i < |now|
      ensures SameIdentity(now[i], before[i])
    {
      if now[i].resolved {
        var path := ChainOf(before, now, i);
      } else {
        Untouched(before, now, i);
      }
    }
  }

  lemma {:induction false} QuietIsResolution(before: seq<Record>, now: seq<Record>)
    requires Sound(before, now) && Quiet(now) && UniqueIds(before) && LinkedById(before)
    ensures Resolution(before, now)
  {
    forall path | Chain(before, path)
      ensures now[path[0]].resolved
    {
      QuietFollows(before, now, path);
    }
  }

  // ---- what resolution means for a revisit ----

  /** A revisit that waits: it has no payload, and is not left to another archive. */
  predicate Waits(r: Record) {
    r.Get(WarcType) == "revisit" && !r.resolved && r.Get(DependencySha) == ""
  }

  /** The record has the payload of the capture, and its own type and status if it had any. */
  predicate TakesPayload(was: Record, r: Record, capture: Record) {
    r.resolved && (capture.Body().Some? ==> r.Body() == capture.Body()) &&
    r.payloadDigest == capture.payloadDigest && r.payloadLength == capture.payloadLength &&
    r.mime == (if was.mime != "" then was.mime else capture.mime) &&
    r.status == (if was.status != 0 then was.status else capture.status)
  }

  /** It does, and is the revisit it was. */
  predicate TakesOver(was: Record, r: Record, capture: Record) {
    TakesPayload(was, r, capture) && r.headers == was.headers && r.http == was.http
  }

  /** A waiting revisit took over the payload of a resolved record that is all it says. */
  ghost predicate AsSaid(before: seq<Record>, now: seq<Record>, i: nat)
    requires i < |now| == |before|
  {
    exists t: nat :: t < |now| && now[t].resolved && SaysOf(before[i], now[t]) && TakesOver(before[i], now[i], now[t])
  }

  /** Every record is as it was, or a waiting revisit that took over what it says. */
  ghost predicate TakenAsSaid(before: seq<Record>, now: seq<Record>) {
    |now| == |before| && forall i: nat :: i < |now| ==> now[i] == before[i] || (Waits(before[i]) && AsSaid(before, now, i))
  }

  /** Every waiting revisit has taken over what it says, as soon as there is just one such record. */
  ghost predicate AllTaken(before: seq<Record>, now: seq<Record>) {
    |now| == |before| &&
    forall i: nat, t: nat :: i < |now| && Waits(before[i]) && OnlyNamed(before[i], now, t) ==>
      TakesOver(before[i], now[i], now[t])
  }

  lemma {:induction false} SoundMeans(before: seq<Record>, now: seq<Record>)
    requires Sound(before, now)
    ensures TakenAsSaid(before, now)
  {
    forall i: nat | i < |now|
      ensures now[i] == before[i] || (Waits(before[i]) && AsSaid(before, now, i))
    {
      assert SoundAt(before, now, i);
      if now[i] != before[i] {
        var t: nat :| TakenFrom(before, now, i, t);
        MatchMeans(before[i], now[t]);
        assert TakesOver(before[i], now[i], now[t]);
      }
    }
  }

  lemma {:induction false} QuietMeans(before: seq<Record>, now: seq<Record>)
    requires Sound(before, now) && Quiet(now)
    ensures AllTaken(before, now)
  {
    forall i: nat, t: nat | i < |now| && Waits(before[i]) && OnlyNamed(before[i], now, t)
      ensures TakesOver(before[i], now[i], now[t])
    {
      assert SoundAt(before, now, i) && Settled(now, i);
      TargetMeans(before[i], now, t);
      if now[i] != before[i] {
        var u: nat :| TakenFrom(before, now, i, u);
        MatchMeans(before[i], now[u]);
      }
    }
  }

  // ---- progress ----

  function Waiting(rs: seq<Record>): (n: nat)
    ensures n <= |rs|
    ensures n == 0 ==> forall i :: 0 <= i < |rs| ==> !Eligible(rs[i])
  {
    if rs == [] then 0
    else Waiting(rs[..|rs| - 1]) + if Eligible(rs[|rs| - 1]) then 1 else 0
  }

  lemma {:induction false} WaitingStep(rs: seq<Record>, i: nat, r: Record)
    requires i < |rs| && Eligible(rs[i]) && !Eligible(r)
    ensures Waiting(rs[i := r]) == Waiting(rs) - 1
  {
    var n := |rs| - 1;
    if i == n {
      assert rs[i := r][..n] == rs[..n];
    } else {
      assert rs[i := r][..n] == rs[..n][i := r];
      WaitingStep(rs[..n], i, r);
    }
  }

  // ---- how far a number of rounds reaches ----

  /** Every record with a chain of at most `depth` records is resolved. */
  ghost predicate Reached(before: seq<Record>, now: seq<Record>, depth: nat) {
    Sound(before, now) && forall path :: Chain(before, path) && |path| <= depth ==> now[path[0]].resolved
  }

  /** Resolution is never undone. */
  predicate KeepsResolved(before: seq<Record>, after: seq<Record>) {
    |before| == |after| && forall i :: 0 <= i < |before| && before[i].resolved ==> after[i].resolved
  }

  lemma {:induction false} ReachedAtStart(rs: seq<Record>)
    ensures Reached(rs, rs, 1)
  {
    SoundAtStart(rs);
  }

  lemma {:induction false} ReachedKept(before: seq<Record>, now: seq<Record>, after: seq<Record>, depth: nat)
    requires Reached(before, now, depth) && Sound(before, after) && KeepsResolved(now, after)
    ensures Reached(before, after, depth)
  {
  }

  /** A revisit whose chain is one longer than what has been reached is not settled. */
  lemma {:induction false} NextInReach(before: seq<Record>, now: seq<Record>, depth: nat, path: seq<nat>)
    requires UniqueIds(before) && LinkedById(before) && Reached(before, now, depth)
    requires Chain(before, path) && |path| <= depth + 1
    ensures now[path[0]].resolved || !Settled(now, path[0])
  {
    var i := path[0];
    if !now[i].resolved {
      Untouched(before, now, i);
      assert |path| > 1;
      ChainLink(before, path);
      var t := path[1];
      assert now[t].resolved;
      var other := ChainOf(before, now, t);
      ChainUnique(before, other, path[1..]);
      SameIds(before, now);
      TargetById(now[i], now, t);
    }
  }

  /** What is settled has been reached whatever the depth. */
  lemma {:induction false} ResolutionReaches(before: seq<Record>, after: seq<Record>, depth: nat)
    requires Resolution(before, after)
    ensures Reached(before, after, depth)
  {
  }

  /** After any number of rounds on differently ordered records, only a record with a longer
      chain can differ. */
  lemma {:induction false} OnlyLongChains(a: seq<Record>, a': seq<Record>, b: seq<Record>, b': seq<Record>,
                                          to: seq<nat>, from: seq<nat>, depth: nat, i: nat)
    requires Reordered(a, b, to, from) && i < |a|
    requires UniqueIds(a) && LinkedById(a) && UniqueIds(b) && LinkedById(b)
    requires Reached(a, a', depth) && Reached(b, b', depth) && b'[to[i]] != a'[i]
    ensures exists path :: Chain(a, path) && path[0] == i && |path| > depth
  {
    if a'[i].resolved {
      var path := ChainOf(a, a', i);
      ChainReordered(a, b, to, from, path);
      if |path| <= depth {
        var other := ChainOf(b, b', to[i]);
        ChainUnique(b, other, Renamed(path, to));
        assert false;
      }
    } else if b'[to[i]].resolved {
      var path := ChainOf(b, b', to[i]);
      ChainReordered(b, a, from, to, path);
      var back := Renamed(path, from);
      assert Chain(a, back) && back[0] == i && |back| > depth;
    } else {
      Untouched(a, a', i);
      Untouched(b, b', to[i]);
      assert false;
    }
  }

  // ---- consequences ----

  /** The resolved record carries exactly what its one chain carries. */
  lemma {:induction false} ResolutionIsAlong(before: seq<Record>, after: seq<Record>, path: seq<nat>)
    requires Resolution(before, after) && UniqueIds(before) && LinkedById(before)
    requires Chain(before, path)
    ensures after[path[0]] == Along(before, path)
  {
    var i := path[0];
    var other := ChainOf(before, after, i);
    ChainUnique(before, other, path);
  }

  /** Revisits whose links stay among themselves, as in a cycle. */
  ghost predicate ClosedUnderLinks(rs: seq<Record>, s: set<nat>) {
    forall i :: i in s ==> i < |rs| && Eligible(rs[i]) && LinksInto(rs, s, rs[i].Get(RefersTo))
  }

  ghost predicate LinksInto(rs: seq<Record>, s: set<nat>, id: string) {
    exists j :: j in s && j < |rs| && rs[j].Get(RecordId) == id
  }

  /** A cycle of revisits, or any closed set of them, stays as it was. */
  lemma {:induction false} ClosedSetUnresolved(before: seq<Record>, after: seq<Record>, s: set<nat>)
    requires Resolution(before, after) && UniqueIds(before) && LinkedById(before)
    requires ClosedUnderLinks(before, s)
    ensures forall i :: i in s ==> after[i] == before[i]
  {
    forall i | i in s
      ensures after[i] == before[i]
    {
      if after[i].resolved {
        var path := ChainOf(before, after, i);
        NoChainFrom(before, path, s);
        assert false;
      } else {
        Untouched(before, after, i);
      }
    }
  }

  lemma {:induction false} NoChainFrom(rs: seq<Record>, path: seq<nat>, s: set<nat>)
    requires UniqueIds(rs) && LinkedById(rs) && ClosedUnderLinks(rs, s)
    requires |path| > 0 && InRange(rs, path) && path[0] in s
    ensures !Chain(rs, path)
    decreases |path|
  {
    if Chain(rs, path) && |path| > 1 {
      ChainLink(rs, path);
      LinkInside(rs, s, path[0], path[1]);
      NoChainFrom(rs, path[1..], s);
    }
  }

  lemma {:induction false} ChainLink(rs: seq<Record>, path: seq<nat>)
    requires LinkedById(rs) && Chain(rs, path) && |path| > 1
    ensures Eligible(rs[path[0]]) && Chain(rs, path[1..]) && path[1..][0] == path[1]
    ensures rs[path[0]].Get(RefersTo) != "" && rs[path[1]].Get(RecordId) == rs[path[0]].Get(RefersTo)
  {
  }

  /** The link of a record in the set leads into the set. */
  lemma {:induction false} LinkInside(rs: seq<Record>, s: set<nat>, i: nat, t: nat)
    requires UniqueIds(rs) && ClosedUnderLinks(rs, s) && i in s && i < |rs| && t < |rs|
    requires rs[i].Get(RefersTo) != "" && rs[t].Get(RecordId) == rs[i].Get(RefersTo)
    ensures t in s
  {
    var id := rs[i].Get(RefersTo);
    assert LinksInto(rs, s, id);
    var j :| j in s && j < |rs| && rs[j].Get(RecordId) == id;
    SameId(rs, j, t);
  }

  lemma {:induction false} SameId(rs: seq<Record>, i: nat, j: nat)
    requires UniqueIds(rs) && i < |rs| && j < |rs| && rs[i].Get(RecordId) == rs[j].Get(RecordId) != ""
    ensures i == j
  {
  }

  /** `b` lists the records of `a` in another order: record `i` of `a` is record `to[i]`
      of `b`, and record `j` of `b` is record `from[j]` of `a`. */
  ghost predicate Reordered(a: seq<Record>, b: seq<Record>, to: seq<nat>, from: seq<nat>) {
    |to| == |from| == |a| == |b| && InRange(b, to) && InRange(a, from) &&
    (forall i :: 0 <= i < |a| ==> b[to[i]] == a[i] && from[to[i]] == i) &&
    (forall j :: 0 <= j < |b| ==> a[from[j]] == b[j] && to[from[j]] == j)
  }

  /** The result does not depend on the order of the records. */
  lemma {:induction false} OrderIndependent(a: seq<Record>, a': seq<Record>, b: seq<Record>, b': seq<Record>,
                         to: seq<nat>, from: seq<nat>)
    requires Reordered(a, b, to, from)
    requires UniqueIds(a) && LinkedById(a) && UniqueIds(b) && LinkedById(b)
    requires Resolution(a, a') && Resolution(b, b')
    ensures forall i :: 0 <= i < |a| ==> b'[to[i]] == a'[i]
  {
    forall i | 0 <= i < |a|
      ensures b'[to[i]] == a'[i]
    {
      if a'[i].resolved {
        var path := ChainOf(a, a', i);
        ChainReordered(a, b, to, from, path);
        ResolutionIsAlong(b, b', Renamed(path, to));
      } else if b'[to[i]].resolved {
        var path := ChainOf(b, b', to[i]);
        ChainReordered(b, a, from, to, path);
        assert false;
      } else {
        Untouched(a, a', i);
        Untouched(b, b', to[i]);
      }
    }
  }

  ghost function Renamed(path: seq<nat>, to: seq<nat>): (q: seq<nat>)
    requires forall k :: 0 <= k < |path| ==> path[k] < |to|
    ensures |q| == |path| && forall k :: 0 <= k < |path| ==> q[k] == to[path[k]]
  {
    seq(|path|, k requires 0 <= k < |path| => to[path[k]])
  }

  lemma {:induction false} ChainReordered(
    a: seq<Record>, b: seq<Record>, to: seq<nat>, from: seq<nat>, path: seq<nat>)
    requires Reordered(a, b, to, from) && Chain(a, path)
    ensures Chain(b, Renamed(path, to)) && Along(b, Renamed(path, to)) == Along(a, path)
    decreases |path|
  {
    if |path| > 1 {
      ChainReordered(a, b, to, from, path[1..]);
      assert Renamed(path, to)[1..] == Renamed(path[1..], to);
    }
  }
}
