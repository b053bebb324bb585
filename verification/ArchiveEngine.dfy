/** The loaded archive as the program holds it: a record list that resolution,
    hydration and deduplication rewrite in place. */
module ArchiveEngine {
  import opened Wrappers
  import opened Archives
  import opened LocalRevisits
  import opened Rehydration

  class Archive {
    var records: seq<Record>

    constructor (records: seq<Record>)
      ensures this.records == records
    {
      this.records := records;
    }

    /** Resolves revisits inside the archive. `settled` is true when the last round found
        nothing to resolve; otherwise the round limit was reached, and every round had
        resolved at least one more revisit. Either way every chain of up to 65 records has
        been followed. */
    method ResolveLocal() returns (r: Result<(), Error>, ghost settled: bool)
      modifies this`records
      ensures Sound(old(records), records) && TakenAsSaid(old(records), records)
      ensures r.Ok? && settled ==> AllTaken(old(records), records)
      ensures ById(old(records)) && r.Ok? && settled ==> Resolution(old(records), records)
      ensures r.Ok? && !settled ==> Waiting(old(records)) >= Waiting(records) + 64
      ensures ById(old(records)) && r.Ok? ==> Reached(old(records), records, 65)
      ensures IsAffordable(old(records)) ==> r.Ok?
    {
      ghost var before := records;
      ghost var rounds;
      r, settled, rounds := ResolveRounds();
      SoundMeans(before, records);
      if r.Ok? {
        ResolvingEnds(before, records, !settled, rounds);
      }
    }

    /** The loop over the rounds. */
    method ResolveRounds() returns (r: Result<(), Error>, ghost settled: bool, ghost count: nat)
      modifies this`records
      ensures Sound(old(records), records)
      ensures r.Ok? ==> Resolving(old(records), records, !settled, count) && (!settled ==> count == MAX_ROUNDS)
      ensures IsAffordable(old(records)) ==> r.Ok?
    {
      ghost var before := records;
      ResolvingStarts(before);
      var pending := true;
      var rounds := 0;
      var work: nat := WORK_LIMIT;
      var lookup := NewLookup(records);
      while pending && rounds < MAX_ROUNDS
        invariant rounds <= MAX_ROUNDS && Indexes(lookup, records, |records|)
        invariant Resolving(before, records, pending, rounds) && Affords(before, rounds, work)
      {
        r, pending, work := NextRound(before, lookup, rounds, work);
        if r.Err? {
          return Err(r.error), false, rounds;
        }
        rounds := rounds + 1;
      }
      return Ok(()), !pending, rounds;
    }

    /** One more round, within what is left of the work. */
    method NextRound(ghost before: seq<Record>, lookup: RecordLookup, ghost rounds: nat, budget: nat)
      returns (r: Result<(), Error>, pending: bool, work: nat)
      requires Indexes(lookup, records, |records|) && rounds < MAX_ROUNDS
      requires Resolving(before, records, true, rounds) && Affords(before, rounds, budget)
      modifies this`records
      ensures Indexes(lookup, records, |records|) && Sound(before, records)
      ensures r.Ok? ==> Resolving(before, records, pending, rounds + 1) && Affords(before, rounds + 1, work)
      ensures r.Err? ==> !IsAffordable(before)
    {
      AffordsRound(before, rounds, budget);
      r, pending, work := Round(before, lookup, budget, rounds + 1);
      if r.Ok? {
        AffordsNext(before, rounds, budget, work);
      }
    }

    /** One pass over the records, resolving what can be resolved as it goes. It reaches chains
        that are one record longer than before. */
    method Round(ghost before: seq<Record>, lookup: RecordLookup, budget: nat, ghost depth: nat)
      returns (r: Result<(), Error>, pending: bool, work: nat)
      requires Sound(before, records) && Indexes(lookup, records, |records|)
      requires ById(before) ==> Reached(before, records, depth)
      modifies this`records
      ensures Sound(before, records) && Indexes(lookup, records, |records|)
      ensures r.Ok? && !pending ==> records == old(records) && Quiet(records)
      ensures r.Ok? && pending ==> Waiting(old(records)) >= Waiting(records) + 1
      ensures ById(before) && r.Ok? ==> work >= budget - |before| && Reached(before, records, depth + 1)
      ensures ById(before) && r.Err? ==> budget < |before|
    {
      pending := false;
      work := budget;
      for i := 0 to |records|
        invariant |records| == |before|
        invariant Sound(before, records) && Indexes(lookup, records, |records|)
        invariant Progress(old(records), records, pending, i)
        invariant ById(before) ==> work >= budget - i && ReachedBelow(before, records, depth, i)
      {
        ghost var was := records;
        var done;
        done, work := Attempt(before, lookup, i, work);
        if done.Err? {
          return Err(done.error), pending, work;
        }
        if ById(before) {
          ReachedNext(before, was, records, depth, i);
        }
        ProgressNext(old(records), was, records, pending, i, done.value);
        pending := pending || done.value;
      }
      return Ok(()), pending, work;
    }

    /** The turn of the pass that looks at one record. */
    method Attempt(ghost before: seq<Record>, lookup: RecordLookup, i: nat, budget: nat)
      returns (done: Result<bool, Error>, work: nat)
      requires Sound(before, records) && Indexes(lookup, records, |records|) && i < |records|
      modifies this`records
      ensures Sound(before, records) && Indexes(lookup, records, |records|) && KeepsResolved(old(records), records)
      ensures done == Ok(true) ==> Waiting(old(records)) == Waiting(records) + 1 && records[i].resolved
      ensures done == Ok(false) ==> records == old(records) && Settled(records, i)
      ensures ById(before) && done.Ok? ==> work >= budget - 1
      ensures ById(before) && done.Err? ==> budget < 1
    {
      work := budget;
      if !Eligible(records[i]) {
        return Ok(false), work;
      }
      var found;
      AttemptCost(before, records, i);
      found, work := Find(lookup, records[i], records, work);
      if found.Err? {
        return Err(found.error), work;
      }
      if found.value.None? {
        return Ok(false), work;
      }
      var filled := Filled(records[i], records[found.value.value]);
      SoundStep(before, records, i, found.value.value);
      WaitingStep(records, i, filled);
      StillIndexed(lookup, records, i, filled);
      records := records[i := filled];
      return Ok(true), work;
    }

    /** Turns every revisit into the response it stands for, taking payloads from the
        authorized inputs; fails as a whole when one cannot be resolved uniquely. */
    method Hydrate(inputs: seq<Input>) returns (r: Result<(), Error>)
      modifies this`records
      ensures r.Ok? ==> HydrateAll(old(records), inputs) == Ok(records)
      ensures r.Err? ==> HydrateAll(old(records), inputs) == Err(r.error)
      ensures r.Ok? ==> AllHydratedAsSaid(old(records), records, inputs)
    {
      var work: nat := WORK_LIMIT;
      var lookups: seq<RecordLookup> := [];
      for k := 0 to |inputs|
        invariant records == old(records)
        invariant |lookups| == k && AllIndexed(lookups, inputs)
      {
        var lookup := NewLookup(inputs[k].records);
        lookups := lookups + [lookup];
      }
      for i := 0 to |records|
        invariant |records| == |old(records)|
        invariant forall k :: i <= k < |records| ==> records[k] == old(records)[k]
        invariant HydrateFrom(old(records)[..i], inputs, WORK_LIMIT) == Ok((records[..i], work))
      {
        HydrateStep(old(records), inputs, i);
        var hydrated;
        hydrated, work := HydrateOne(records[i], inputs, lookups, work);
        if hydrated.Err? {
          return Err(hydrated.error);
        }
        records := records[i := hydrated.value];
        assert records[..i + 1] == records[..i] + [hydrated.value];
      }
      assert old(records)[..|records|] == old(records) && records[..|records|] == records;
      HydratedMean(old(records), inputs, WORK_LIMIT);
      return Ok(());
    }

    /** Converts responses whose payload an input already holds, and returns the inputs the
        archive now depends on, each with the hash it is bound to. */
    method Deduplicate(inputs: seq<Input>) returns (r: Result<map<string, string>, Error>)
      modifies this`records
      ensures r.Ok? ==> DedupeFrom(old(records), inputs) == Ok(records)
      ensures r.Ok? ==> r.value != map[] && Uses(old(records), inputs, r.value)
      ensures r == Err(NoMatchingPayloads) <==> NothingShared(old(records), inputs)
      ensures r.Ok? ==> BoundInputs(old(records), records, inputs, r.value)
      ensures r.Err? && r.error != NoMatchingPayloads ==> DedupeFrom(old(records), inputs) == Err(r.error)
      ensures r.Ok? ==> AllDedupedAsSaid(old(records), records, inputs)
    {
      ghost var original := records;
      r := ConvertAll(inputs);
      if r.Err? {
        NoneMeans(original, inputs);
        return;
      }
      DedupeEnds(original, inputs, records, r.value);
      if r.value == map[] {
        return Err(NoMatchingPayloads);
      }
    }

    /** The loop over the records. */
    method ConvertAll(inputs: seq<Input>) returns (r: Result<map<string, string>, Error>)
      modifies this`records
      ensures r.Ok? ==> Deduped(old(records), inputs, records, r.value)
      ensures r.Err? ==> r.error != NoMatchingPayloads && DedupeFrom(old(records), inputs) == Err(r.error)
      ensures r.Err? ==> !NoneMatch(old(records), inputs)
    {
      var payloads := PayloadMap(inputs);
      var used: map<string, string> := map[];
      ghost var original := records;
      for i := 0 to |records|
        invariant |records| == |original| && records[i..] == original[i..]
        invariant Deduped(original[..i], inputs, records[..i], used)
      {
        assert records[i] == records[i..][0] == original[i];
        r := ConvertAt(inputs, payloads, original, i, used);
        if r.Err? {
          return;
        }
        assert records[i + 1..] == original[i..][1..] == original[i + 1..];
        used := r.value;
      }
      assert original[..|records|] == original && records[..|records|] == records;
      return Ok(used);
    }

    /** The turn of the loop for one record. */
    method ConvertAt(inputs: seq<Input>, payloads: map<Key, Canonical>, ghost original: seq<Record>, i: nat,
                     used: map<string, string>) returns (r: Result<map<string, string>, Error>)
      requires forall key :: Lookup(payloads, key) == FirstPayload(inputs, key)
      requires i < |records| == |original| && records[i] == original[i]
      requires Deduped(original[..i], inputs, records[..i], used)
      modifies this`records
      ensures |records| == |original| && records[i + 1..] == old(records)[i + 1..]
      ensures r.Ok? ==> Deduped(original[..i + 1], inputs, records[..i + 1], r.value)
      ensures r.Err? ==> r.error != NoMatchingPayloads && DedupeFrom(original, inputs) == Err(r.error)
      ensures r.Err? ==> !NoneMatch(original, inputs)
    {
      var m, bound := ConvertOne(records[i], inputs, payloads);
      if bound.Err? {
        DedupeFails(original, inputs, i);
        return Err(bound.error);
      }
      DedupedStep(original, inputs, i, records[..i], used);
      ghost var done := records[..i];
      records := records[i := bound.value];
      assert records[..i + 1] == done + [bound.value];
      return Ok(if m.Some? then used[m.value.input.id := m.value.input.sha256] else used);
    }
  }

  // ---- hydration ----

  ghost predicate AllIndexed(lookups: seq<RecordLookup>, inputs: seq<Input>) {
    |lookups| <= |inputs| &&
    forall k :: 0 <= k < |lookups| ==> Indexes(lookups[k], inputs[k].records, |inputs[k].records|)
  }

  method HydrateOne(record: Record, inputs: seq<Input>, lookups: seq<RecordLookup>, budget: nat)
    returns (r: Result<Record, Error>, work: nat)
    requires AllIndexed(lookups, inputs) && |lookups| == |inputs|
    ensures r.Ok? ==> HydrateRecord(record, inputs, budget) == Ok((r.value, work))
    ensures r.Err? ==> HydrateRecord(record, inputs, budget) == Err(r.error)
  {
    work := budget;
    if IsSegmented(record) {
      return Err(Segmented), work;
    }
    if record.Kind() != "revisit" {
      return Ok(record), work;
    }
    if record.resolved {
      return Ok(AsResponse(record)), work;
    }
    var found;
    found, work := FindCandidates(record, inputs, lookups, work);
    if found.Err? {
      return Err(found.error), work;
    }
    if |found.value| != 1 {
      return Err(Unresolvable), work;
    }
    return Ok(AsResponse(FilledExternal(record, found.value[0]))), work;
  }

  method FindCandidates(record: Record, inputs: seq<Input>, lookups: seq<RecordLookup>, budget: nat)
    returns (r: Result<seq<Record>, Error>, work: nat)
    requires AllIndexed(lookups, inputs) && |lookups| == |inputs|
    ensures r.Ok? ==> Candidates(record, inputs, budget) == Ok((r.value, work))
    ensures r.Err? ==> Candidates(record, inputs, budget) == Err(r.error)
  {
    var candidates: seq<Record> := [];
    work := budget;
    for k := 0 to |inputs|
      invariant Candidates(record, inputs[..k], budget) == Ok((candidates, work))
    {
      CandidatesNext(record, inputs, k, budget);
      var next;
      next, work := TryInput(record, inputs[k], lookups[k], candidates, work);
      if next.Err? {
        CandidatesFail(record, inputs, k + 1, |inputs|, budget);
        assert inputs[..|inputs|] == inputs;
        return Err(next.error), work;
      }
      candidates := next.value;
    }
    assert inputs[..|inputs|] == inputs;
    return Ok(candidates), work;
  }

  method TryInput(record: Record, input: Input, lookup: RecordLookup, candidates: seq<Record>, budget: nat)
    returns (r: Result<seq<Record>, Error>, work: nat)
    requires Indexes(lookup, input.records, |input.records|)
    ensures r.Ok? ==> AddCandidate(record, input, candidates, budget) == Ok((r.value, work))
    ensures r.Err? ==> AddCandidate(record, input, candidates, budget) == Err(r.error)
  {
    work := budget;
    if Skipped(record, input) {
      return Ok(candidates), work;
    }
    var found;
    found, work := Find(lookup, record, input.records, work);
    if found.Err? {
      return Err(found.error), work;
    }
    return Ok(if found.value.Some? then candidates + [input.records[found.value.value]] else candidates), work;
  }

  lemma {:induction false} CandidatesNext(record: Record, inputs: seq<Input>, k: nat, work: nat)
    requires k < |inputs| && Candidates(record, inputs[..k], work).Ok?
    ensures var (found, left) := Candidates(record, inputs[..k], work).value;
            Candidates(record, inputs[..k + 1], work) == AddCandidate(record, inputs[k], found, left)
  {
    assert inputs[..k + 1][..k] == inputs[..k];
  }

  /** An error at one input is the error of the whole search. */
  lemma {:induction false} CandidatesFail(record: Record, inputs: seq<Input>, k: nat, n: nat, work: nat)
    requires k <= n <= |inputs| && Candidates(record, inputs[..k], work).Err?
    ensures Candidates(record, inputs[..n], work) == Candidates(record, inputs[..k], work)
    decreases n - k
  {
    if k < n {
      CandidatesFail(record, inputs, k, n - 1, work);
      CandidatesPass(record, inputs[..n - 1], inputs[n - 1], work);
      assert inputs[..n] == inputs[..n - 1] + [inputs[n - 1]];
    }
  }

  lemma {:induction false} CandidatesPass(record: Record, inputs: seq<Input>, input: Input, work: nat)
    requires Candidates(record, inputs, work).Err?
    ensures Candidates(record, inputs + [input], work) == Candidates(record, inputs, work)
  {
    assert (inputs + [input])[..|inputs|] == inputs;
  }

  lemma {:induction false} HydrateStep(rs: seq<Record>, inputs: seq<Input>, i: nat)
    requires i < |rs|
    ensures rs[..i + 1][..i] == rs[..i]
    ensures HydrateFrom(rs[..i + 1], inputs, WORK_LIMIT).Err? ==>
              HydrateFrom(rs, inputs, WORK_LIMIT) == HydrateFrom(rs[..i + 1], inputs, WORK_LIMIT)
    decreases |rs|
  {
    if i + 1 < |rs| {
      var n := |rs| - 1;
      assert rs[..n][..i + 1] == rs[..i + 1];
      HydrateStep(rs[..n], inputs, i);
    } else {
      assert rs[..i + 1] == rs;
    }
  }

  // ---- deduplication ----

  ghost predicate ConvertedAgainst(r: Record, inputs: seq<Input>, id: string, sha256: string) {
    var m := Match(r, inputs);
    m.Some? && m.value.input.id == id && m.value.input.sha256 == sha256
  }

  /** `used` names exactly the inputs that some record was converted against. */
  ghost predicate Uses(rs: seq<Record>, inputs: seq<Input>, used: map<string, string>) {
    (forall i :: 0 <= i < |rs| ==>
       var m := Match(rs[i], inputs); m.Some? ==> m.value.input.id in used) &&
    forall id :: id in used ==> exists i :: 0 <= i < |rs| && ConvertedAgainst(rs[i], inputs, id, used[id])
  }

  /** A record is bound to the input of its match, and only then. */
  lemma {:induction false} BindingOf(was: Record, inputs: seq<Input>, r: Record)
    requires DedupeRecord(was, inputs) == Ok(r)
    ensures var m := Match(was, inputs);
            (m.Some? <==> Shared(was, inputs)) &&
            (m.Some? ==> r.Get(DependencyId) == m.value.input.id && r.Get(DependencySha) == m.value.input.sha256)
  {
    SharedMeans(was, inputs);
  }

  lemma {:induction false} UsedMean(before: seq<Record>, inputs: seq<Input>, now: seq<Record>, used: map<string, string>)
    requires |now| == |before| && forall i :: 0 <= i < |before| ==> DedupeRecord(before[i], inputs) == Ok(now[i])
    requires Uses(before, inputs, used)
    ensures BoundInputs(before, now, inputs, used)
  {
    forall i | 0 <= i < |now| && Shared(before[i], inputs)
      ensures now[i].Get(DependencyId) in used
    {
      BindingOf(before[i], inputs, now[i]);
    }
    forall id | id in used
      ensures exists i :: 0 <= i < |now| && BoundTo(before[i], now[i], inputs, id, used[id])
    {
      var i :| 0 <= i < |before| && ConvertedAgainst(before[i], inputs, id, used[id]);
      BindingOf(before[i], inputs, now[i]);
      assert BoundTo(before[i], now[i], inputs, id, used[id]);
    }
  }

  /** What the whole loop has done, in terms of the records. */
  lemma {:induction false} DedupeEnds(before: seq<Record>, inputs: seq<Input>, now: seq<Record>, used: map<string, string>)
    requires Deduped(before, inputs, now, used)
    ensures used == map[] <==> NothingShared(before, inputs)
    ensures AllDedupedAsSaid(before, now, inputs) && BoundInputs(before, now, inputs, used)
  {
    NoneMeans(before, inputs);
    DedupedMean(before, inputs);
    UsedMean(before, inputs, now, used);
  }

  lemma {:induction false} UsesStep(rs: seq<Record>, inputs: seq<Input>, used: map<string, string>, r: Record)
    requires Uses(rs, inputs, used)
    ensures var m := Match(r, inputs);
            Uses(rs + [r], inputs, if m.None? then used else used[m.value.input.id := m.value.input.sha256])
    ensures NoneMatch(rs + [r], inputs) <==> NoneMatch(rs, inputs) && Match(r, inputs).None?
  {
    var m, all := Match(r, inputs), rs + [r];
    var extended := if m.None? then used else used[m.value.input.id := m.value.input.sha256];
    forall id | id in extended
      ensures exists i :: 0 <= i < |all| && ConvertedAgainst(all[i], inputs, id, extended[id])
    {
      if m.Some? && id == m.value.input.id {
        assert ConvertedAgainst(all[|rs|], inputs, id, extended[id]);
      } else {
        var i :| 0 <= i < |rs| && ConvertedAgainst(rs[i], inputs, id, used[id]);
        assert all[i] == rs[i];
      }
    }
    if NoneMatch(all, inputs) {
      assert all[|rs|] == r;
      assert forall i :: 0 <= i < |rs| ==> all[i] == rs[i];
    }
  }

  function Lookup<K, V>(m: map<K, V>, k: K): Option<V> {
    if k in m then Some(m[k]) else None
  }

  /** The earlier entry if there is one, else the first of `n` records that offers the key. */
  function Extended(payloads: map<Key, Canonical>, input: Input, n: nat, key: Key): Option<Canonical>
    requires n <= |input.records|
  {
    if key in payloads then Some(payloads[key])
    else
      match FirstIn(input.records[..n], key)
      case Some(at) => Some(Canonical(input, at))
      case None => None
  }

  method PayloadMap(inputs: seq<Input>) returns (payloads: map<Key, Canonical>)
    ensures forall key :: Lookup(payloads, key) == FirstPayload(inputs, key)
  {
    payloads := map[];
    for k := 0 to |inputs|
      invariant forall key :: Lookup(payloads, key) == FirstPayload(inputs[..k], key)
    {
      assert inputs[..k + 1] == inputs[..k] + [inputs[k]];
      payloads := AddPayloads(payloads, inputs[k], inputs[..k]);
    }
    assert inputs[..|inputs|] == inputs;
  }

  method AddPayloads(payloads: map<Key, Canonical>, input: Input, ghost earlier: seq<Input>)
    returns (extended: map<Key, Canonical>)
    requires forall key :: Lookup(payloads, key) == FirstPayload(earlier, key)
    ensures forall key :: Lookup(extended, key) == FirstPayload(earlier + [input], key)
  {
    extended := payloads;
    for at := 0 to |input.records|
      invariant forall key :: Lookup(extended, key) == Extended(payloads, input, at, key)
    {
      var r := input.records[at];
      ghost var was := extended;
      if r.IsCapture() && r.payloadLength > 0 && KeyOf(r) !in extended {
        extended := extended[KeyOf(r) := Canonical(input, at)];
      }
      forall key
        ensures Lookup(extended, key) == Extended(payloads, input, at + 1, key)
      {
        assert input.records[..at + 1][..at] == input.records[..at];
        assert Lookup(was, key) == Extended(payloads, input, at, key);
      }
    }
    assert input.records[..|input.records|] == input.records;
    assert (earlier + [input])[..|earlier|] == earlier;
  }

  /** What the loop has done to the records seen so far. */
  ghost predicate Deduped(rs: seq<Record>, inputs: seq<Input>, done: seq<Record>, used: map<string, string>) {
    DedupeFrom(rs, inputs) == Ok(done) && Uses(rs, inputs, used) &&
    (used == map[] <==> NoneMatch(rs, inputs))
  }

  lemma {:induction false} DedupedStep(
    rs: seq<Record>, inputs: seq<Input>, i: nat, done: seq<Record>, used: map<string, string>)
    requires i < |rs| && Deduped(rs[..i], inputs, done, used) && DedupeRecord(rs[i], inputs).Ok?
    ensures var m := Match(rs[i], inputs);
            Deduped(rs[..i + 1], inputs, done + [DedupeRecord(rs[i], inputs).value],
                    if m.None? then used else used[m.value.input.id := m.value.input.sha256])
  {
    assert rs[..i + 1] == rs[..i] + [rs[i]] && rs[..i + 1][..i] == rs[..i];
    UsesStep(rs[..i], inputs, used, rs[i]);
    var m := Match(rs[i], inputs);
    assert m.Some? ==> m.value.input.id in used[m.value.input.id := m.value.input.sha256];
  }

  lemma {:induction false} DedupeFails(rs: seq<Record>, inputs: seq<Input>, i: nat)
    requires i < |rs| && DedupeFrom(rs[..i], inputs).Ok? && DedupeRecord(rs[i], inputs).Err?
    ensures DedupeFrom(rs, inputs) == Err(DedupeRecord(rs[i], inputs).error) == Err(UnstableTarget)
    ensures !NoneMatch(rs, inputs)
  {
    DedupeStep(rs, inputs, i);
    assert rs[..i + 1][i] == rs[i];
  }

  method ConvertOne(record: Record, inputs: seq<Input>, payloads: map<Key, Canonical>)
    returns (m: Option<Canonical>, bound: Result<Record, Error>)
    requires forall key :: Lookup(payloads, key) == FirstPayload(inputs, key)
    ensures m == Match(record, inputs) && bound == DedupeRecord(record, inputs)
    ensures m.None? ==> bound == Ok(record)
  {
    m, bound := None, Ok(record);
    if record.Kind() != "response" || record.payloadLength == 0 {
      return;
    }
    m := Lookup(payloads, KeyOf(record));
    if m.Some? {
      bound := Bound(record, m.value);
    }
  }

  lemma {:induction false} DedupeStep(rs: seq<Record>, inputs: seq<Input>, i: nat)
    requires i < |rs|
    ensures rs[..i + 1][..i] == rs[..i]
    ensures DedupeFrom(rs[..i + 1], inputs).Err? ==>
              DedupeFrom(rs, inputs) == DedupeFrom(rs[..i + 1], inputs)
    decreases |rs|
  {
    if i + 1 < |rs| {
      var n := |rs| - 1;
      assert rs[..n][..i + 1] == rs[..i + 1];
      DedupeStep(rs[..n], inputs, i);
    } else {
      assert rs[..i + 1] == rs;
    }
  }

  // ---- local resolution ----

  /** Unique record ids, and revisits that name their targets by id. */
  ghost predicate ById(records: seq<Record>) {
    UniqueIds(records) && LinkedById(records)
  }

  /** What has been achieved after a number of rounds. */
  ghost predicate Resolving(before: seq<Record>, now: seq<Record>, pending: bool, rounds: nat) {
    Sound(before, now) && (ById(before) ==> Reached(before, now, rounds + 1)) &&
    if pending then Waiting(before) >= Waiting(now) + rounds else Quiet(now)
  }

  lemma {:induction false} ResolvingStarts(before: seq<Record>)
    ensures Resolving(before, before, true, 0) && Affords(before, 0, WORK_LIMIT)
  {
    ReachedAtStart(before);
  }

  /** Few enough records for the work. */
  ghost predicate IsAffordable(rs: seq<Record>) {
    ById(rs) && MAX_ROUNDS * |rs| <= WORK_LIMIT
  }

  lemma {:induction false} ResolvingEnds(before: seq<Record>, now: seq<Record>, pending: bool, rounds: nat)
    requires Resolving(before, now, pending, rounds) && (pending ==> rounds == MAX_ROUNDS)
    ensures ById(before) ==> Reached(before, now, MAX_ROUNDS + 1) && (!pending ==> Resolution(before, now))
    ensures !pending ==> AllTaken(before, now)
  {
    if !pending {
      QuietMeans(before, now);
    }
    if ById(before) && !pending {
      QuietIsResolution(before, now);
      ResolutionReaches(before, now, MAX_ROUNDS + 1);
    }
  }

  /** An upper bound on the work of `rounds` passes over `n` uniquely identified records. */
  ghost function Spent(rounds: nat, n: nat): nat {
    if rounds == 0 then 0 else Spent(rounds - 1, n) + n
  }

  /** The work left after a number of rounds covers the rest of them. */
  ghost predicate Affords(before: seq<Record>, rounds: nat, work: nat) {
    ById(before) ==> work >= WORK_LIMIT - Spent(rounds, |before|)
  }

  lemma {:induction false} AffordsRound(before: seq<Record>, rounds: nat, work: nat)
    requires rounds < MAX_ROUNDS && Affords(before, rounds, work)
    ensures ById(before) && MAX_ROUNDS * |before| <= WORK_LIMIT ==> work >= |before|
  {
    SpentBound(rounds, |before|);
  }

  lemma {:induction false} AffordsNext(before: seq<Record>, rounds: nat, work: nat, left: nat)
    requires rounds < MAX_ROUNDS && Affords(before, rounds, work) && (ById(before) ==> left >= work - |before|)
    ensures Affords(before, rounds + 1, left)
  {
    SpentBound(rounds, |before|);
  }

  lemma {:induction false} SpentBound(rounds: nat, n: nat)
    requires rounds < MAX_ROUNDS
    ensures Spent(rounds + 1, n) == Spent(rounds, n) + n <= MAX_ROUNDS * n
  {
    SpentGrows(rounds + 1, MAX_ROUNDS, n);
    SpentIs(MAX_ROUNDS, n);
  }

  lemma {:induction false} SpentGrows(rounds: nat, more: nat, n: nat)
    requires rounds <= more
    ensures Spent(rounds, n) <= Spent(more, n)
  {
    if rounds < more {
      SpentGrows(rounds, more - 1, n);
    }
  }

  lemma {:induction false} SpentIs(rounds: nat, n: nat)
    ensures Spent(rounds, n) == rounds * n
  {
    if rounds > 0 {
      SpentIs(rounds - 1, n);
      assert rounds * n == (rounds - 1) * n + n;
    }
  }

  /** Below `n` either nothing could be resolved, or something has been. */
  ghost predicate Progress(start: seq<Record>, now: seq<Record>, pending: bool, n: nat) {
    n <= |now| &&
    if pending then Waiting(start) >= Waiting(now) + 1
    else now == start && forall i: nat :: i < n ==> Settled(now, i)
  }

  lemma {:induction false} ProgressNext(start: seq<Record>, was: seq<Record>, now: seq<Record>, pending: bool, i: nat,
                                        done: bool)
    requires Progress(start, was, pending, i) && i < |was| == |now|
    requires if done then Waiting(was) == Waiting(now) + 1 else now == was && Settled(now, i)
    ensures Progress(start, now, pending || done, i + 1)
  {
  }

  /** All chains of `depth` records have been followed, and the longer ones from records below `n`. */
  ghost predicate ReachedBelow(before: seq<Record>, now: seq<Record>, depth: nat, n: nat) {
    Reached(before, now, depth) &&
    forall path :: Chain(before, path) && |path| <= depth + 1 && path[0] < n ==> now[path[0]].resolved
  }

  lemma {:induction false} ReachedNext(before: seq<Record>, was: seq<Record>, now: seq<Record>, depth: nat, i: nat)
    requires ById(before) && ReachedBelow(before, was, depth, i) && i < |was|
    requires Sound(before, now) && KeepsResolved(was, now)
    requires now[i].resolved || (now == was && Settled(now, i))
    ensures ReachedBelow(before, now, depth, i + 1)
  {
    ReachedKept(before, was, now, depth);
    forall path | Chain(before, path) && |path| <= depth + 1 && path[0] == i
      ensures now[i].resolved
    {
      NextInReach(before, now, depth, path);
    }
  }

  /** With unique ids one attempt examines at most one record. */
  lemma {:induction false} AttemptCost(before: seq<Record>, now: seq<Record>, i: nat)
    requires Sound(before, now) && i < |now| && Eligible(now[i])
    ensures ById(before) ==> |Named(now[i], now)| <= 1
  {
    SameIds(before, now);
    Untouched(before, now, i);
    if ById(before) {
      var id := now[i].Get(RefersTo);
      var at := WithId(now, id, |now|);
      if at != [] {
        assert at[0] in at;
        WithIdUnique(now, id, at[0], |now|);
      }
    }
  }

  lemma {:induction false} StillIndexed(lookup: RecordLookup, rs: seq<Record>, i: nat, r: Record)
    requires Indexes(lookup, rs, |rs|) && i < |rs| && r.headers == rs[i].headers
    ensures Indexes(lookup, rs[i := r], |rs|)
  {
    forall id
      ensures Entry(lookup.ids, id) == WithId(rs[i := r], id, |rs|)
    {
      SameWithId(rs, rs[i := r], id, |rs|);
    }
    forall key
      ensures Entry(lookup.targets, key) == WithUrlAndDate(rs[i := r], key, |rs|)
    {
      SameWithUrlAndDate(rs, rs[i := r], key, |rs|);
    }
  }

  lemma {:induction false} SameWithId(a: seq<Record>, b: seq<Record>, id: string, n: nat)
    requires |a| == |b| && n <= |a| && forall i :: 0 <= i < |a| ==> a[i].headers == b[i].headers
    ensures WithId(a, id, n) == WithId(b, id, n)
  {
    if n > 0 {
      SameWithId(a, b, id, n - 1);
    }
  }

  lemma {:induction false} SameWithUrlAndDate(a: seq<Record>, b: seq<Record>, key: (string, string), n: nat)
    requires |a| == |b| && n <= |a| && forall i :: 0 <= i < |a| ==> a[i].headers == b[i].headers
    ensures WithUrlAndDate(a, key, n) == WithUrlAndDate(b, key, n)
  {
    if n > 0 {
      SameWithUrlAndDate(a, b, key, n - 1);
    }
  }
}
