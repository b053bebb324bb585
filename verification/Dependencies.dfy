/** Admission of authorized dependency archives: identity, hash and memory checks on
    each input, then a depth-first search with an active set and a done set over the
    dependency bindings. The search is proved exact: it succeeds if and only if every
    binding lands on an authorized input with the bound hash and no dependency is cyclic. */
module Dependencies {
  import opened Wrappers
  import opened Characters

  datatype Error =
    | TooManyInputs | OverBudget | InvalidIdentity | DuplicateId | LoadFailed | HashChanged
    | MissingBinding | MissingInput | BindingMismatch | CyclicDependencies

  datatype Loaded = Loaded(sha256: string, cost: nat, dependencies: seq<string>, hashes: map<string, string>)

  /** What the caller authorizes, with what loading its file yields. */
  datatype Authorized = Authorized(archiveId: string, sha256: string, file: Option<Loaded>)

  type Inputs = map<string, Loaded>

  // ---- identity ----

  predicate IsControl(c: char) {
    c as int < 0x20 || 0x7F <= c as int < 0xA0
  }

  predicate ValidDependencyId(id: string) {
    id != "" && |id| <= 256 && id != "." && id != ".." &&
    forall i :: 0 <= i < |id| ==> id[i] !in {'/', '\\', ':', '?', '#'} && !IsControl(id[i])
  }

  predicate ValidIdentity(a: Authorized) {
    ValidDependencyId(a.archiveId) && |a.sha256| == 64 &&
    forall i :: 0 <= i < 64 ==> IsHexDigit(a.sha256[i])
  }

  /** One input on its own: well named, loadable, and still the file that was authorized. */
  predicate Genuine(a: Authorized) {
    ValidIdentity(a) && a.file.Some? && EqualIgnoringCase(a.file.value.sha256, a.sha256)
  }

  function TotalCost(authorized: seq<Authorized>): nat {
    if authorized == [] then 0
    else
      var last := authorized[|authorized| - 1];
      TotalCost(authorized[..|authorized| - 1]) + if last.file.Some? then last.file.value.cost else 0
  }

  ghost predicate Admissible(source: Loaded, authorized: seq<Authorized>, limit: nat) {
    |authorized| <= 16 && source.cost + TotalCost(authorized) <= limit &&
    (forall i :: 0 <= i < |authorized| ==> Genuine(authorized[i])) &&
    forall i, j :: 0 <= i < j < |authorized| ==> authorized[i].archiveId != authorized[j].archiveId
  }

  ghost predicate Holds(authorized: seq<Authorized>, inputs: Inputs) {
    (forall i :: 0 <= i < |authorized| ==>
       authorized[i].file.Some? && authorized[i].archiveId in inputs &&
       inputs[authorized[i].archiveId] == authorized[i].file.value) &&
    forall id :: id in inputs ==> exists i :: 0 <= i < |authorized| && authorized[i].archiveId == id
  }

  // ---- the dependency graph ----

  /** Every dependency of `a` is authorized under the hash `a` binds it to. */
  predicate WellBound(a: Loaded, inputs: Inputs) {
    forall k :: 0 <= k < |a.dependencies| ==> BoundTo(a, inputs, a.dependencies[k])
  }

  predicate BoundTo(a: Loaded, inputs: Inputs, id: string) {
    id in a.hashes && id in inputs && a.hashes[id] == inputs[id].sha256
  }

  /** A walk along dependencies. */
  ghost predicate Path(inputs: Inputs, p: seq<string>) {
    p != [] && (forall k :: 0 <= k < |p| ==> p[k] in inputs) &&
    forall k :: 0 <= k < |p| - 1 ==> p[k + 1] in inputs[p[k]].dependencies
  }

  ghost predicate CycleFrom(inputs: Inputs, id: string) {
    exists p :: Path(inputs, p) && |p| >= 2 && p[0] == id == p[|p| - 1]
  }

  ghost predicate Sound(source: Loaded, inputs: Inputs) {
    WellBound(source, inputs) &&
    (forall id :: id in inputs ==> WellBound(inputs[id], inputs)) &&
    forall id :: id in inputs ==> !CycleFrom(inputs, id)
  }

  /** What the search has finished with: closed under dependencies, well bound, off every cycle. */
  ghost predicate Finished(inputs: Inputs, done: set<string>) {
    forall id :: id in done ==>
      id in inputs && WellBound(inputs[id], inputs) && Within(inputs[id], done) && !CycleFrom(inputs, id)
  }

  predicate Within(a: Loaded, done: set<string>) {
    forall k :: 0 <= k < |a.dependencies| ==> a.dependencies[k] in done
  }

  lemma {:induction false} StaysInside(inputs: Inputs, done: set<string>, p: seq<string>, k: nat)
    requires Finished(inputs, done) && Path(inputs, p) && 1 <= k < |p| && p[1] in done
    ensures p[k] in done
  {
    if k > 1 {
      StaysInside(inputs, done, p, k - 1);
      assert p[k - 1 + 1] in inputs[p[k - 1]].dependencies;
    }
  }

  /** An archive all of whose dependencies are finished is itself off every cycle. */
  lemma {:induction false} NoCycleOnto(inputs: Inputs, done: set<string>, id: string)
    requires Finished(inputs, done) && id in inputs && id !in done && Within(inputs[id], done)
    ensures !CycleFrom(inputs, id)
  {
    if CycleFrom(inputs, id) {
      var p :| Path(inputs, p) && |p| >= 2 && p[0] == id == p[|p| - 1];
      assert p[0 + 1] in inputs[p[0]].dependencies;
      StaysInside(inputs, done, p, |p| - 1);
    }
  }

  /** Meeting an active archive again closes a cycle. */
  lemma {:induction false} ClosesCycle(inputs: Inputs, stack: seq<string>, id: string)
    requires stack != [] && Path(inputs, stack) && id in stack
    requires id in inputs[stack[|stack| - 1]].dependencies
    ensures CycleFrom(inputs, id)
  {
    var i :| 0 <= i < |stack| && stack[i] == id;
    var p := stack[i..] + [id];
    forall k | 0 <= k < |p| - 1
      ensures p[k + 1] in inputs[p[k]].dependencies
    {
      if k < |p| - 2 {
        assert p[k] == stack[i + k] && p[k + 1] == stack[i + k + 1];
      }
    }
    assert Path(inputs, p) && p[0] == id;
  }

  /** Why a search fails: the first clause for a missing or wrong binding, the second
      for a cycle. */
  ghost predicate Explains(error: Error, archive: Loaded, inputs: Inputs) {
    match error
    case MissingBinding => Unbound(archive, inputs)
    case MissingInput => Unbound(archive, inputs)
    case BindingMismatch => Unbound(archive, inputs)
    case CyclicDependencies => exists id :: id in inputs && CycleFrom(inputs, id)
    case _ => false
  }

  ghost predicate Unbound(archive: Loaded, inputs: Inputs) {
    !WellBound(archive, inputs) || exists id :: id in inputs && !WellBound(inputs[id], inputs)
  }

  /** `stack` is the path of active archives that leads to `archive`; it is empty when
      `archive` is the source itself. */
  ghost predicate Entered(archive: Loaded, inputs: Inputs, active: set<string>, stack: seq<string>) {
    (forall id :: id in active <==> id in stack) &&
    (stack != [] ==> Path(inputs, stack) && archive == inputs[stack[|stack| - 1]])
  }

  predicate BoundSoFar(archive: Loaded, inputs: Inputs, done: set<string>, k: nat)
    requires k <= |archive.dependencies|
  {
    forall j :: 0 <= j < k ==> BoundTo(archive, inputs, archive.dependencies[j]) && archive.dependencies[j] in done
  }

  method Visit(archive: Loaded, inputs: Inputs, active0: set<string>, done0: set<string>, ghost stack: seq<string>)
    returns (r: Result<(), Error>, active: set<string>, done: set<string>)
    requires Entered(archive, inputs, active0, stack)
    requires Finished(inputs, done0) && active0 !! done0
    ensures r.Ok? ==> active == active0 && done0 <= done && active !! done
    ensures r.Ok? ==> Finished(inputs, done) && WellBound(archive, inputs) && Within(archive, done)
    ensures r.Err? ==> Explains(r.error, archive, inputs)
    decreases |inputs.Keys - active0|, 1
  {
    active, done := active0, done0;
    for k := 0 to |archive.dependencies|
      invariant active == active0 && done0 <= done && active !! done
      invariant Finished(inputs, done)
      invariant BoundSoFar(archive, inputs, done, k)
    {
      ghost var was := done;
      r, active, done := VisitDependency(archive, inputs, archive.dependencies[k], active, done, stack);
      if r.Err? {
        return;
      }
      BoundNext(archive, inputs, was, done, k);
    }
    AllBound(archive, inputs, done);
    r := Ok(());
  }

  lemma {:induction false} BoundNext(archive: Loaded, inputs: Inputs, was: set<string>, done: set<string>, k: nat)
    requires k < |archive.dependencies| && BoundSoFar(archive, inputs, was, k) && was <= done
    requires BoundTo(archive, inputs, archive.dependencies[k]) && archive.dependencies[k] in done
    ensures BoundSoFar(archive, inputs, done, k + 1)
  {
  }

  lemma {:induction false} AllBound(archive: Loaded, inputs: Inputs, done: set<string>)
    requires BoundSoFar(archive, inputs, done, |archive.dependencies|)
    ensures WellBound(archive, inputs) && Within(archive, done)
  {
  }

  /** One turn of the loop: a dependency that is missing, active, done, or to be visited. */
  method VisitDependency(archive: Loaded, inputs: Inputs, id: string, active0: set<string>, done0: set<string>,
                         ghost stack: seq<string>)
    returns (r: Result<(), Error>, active: set<string>, done: set<string>)
    requires Entered(archive, inputs, active0, stack) && id in archive.dependencies
    requires Finished(inputs, done0) && active0 !! done0
    ensures r.Ok? ==> active == active0 && done0 <= done && active !! done && Finished(inputs, done)
    ensures r.Ok? ==> BoundTo(archive, inputs, id) && id in done
    ensures r.Err? ==> Explains(r.error, archive, inputs)
    decreases |inputs.Keys - active0|, 0
  {
    active, done := active0, done0;
    if id !in archive.hashes {
      return Err(MissingBinding), active, done;
    }
    if id !in inputs {
      return Err(MissingInput), active, done;
    }
    var target := inputs[id];
    if archive.hashes[id] != target.sha256 {
      return Err(BindingMismatch), active, done;
    }
    if id in active {
      ClosesCycle(inputs, stack, id);
      return Err(CyclicDependencies), active, done;
    }
    if id in done {
      return Ok(()), active, done;
    }
    active := active + {id};
    ActiveGrows(inputs, active0, id);
    StackGrows(archive, inputs, active0, stack, id);
    r, active, done := Visit(target, inputs, active, done, stack + [id]);
    if r.Err? {
      ExplainsUp(r.error, target, archive, inputs, id);
      return;
    }
    active := active - {id};
    NoCycleOnto(inputs, done, id);
    FinishedGrows(inputs, done, id);
    done := done + {id};
  }

  /** What is wrong below is wrong for the whole. */
  lemma {:induction false} ExplainsUp(error: Error, target: Loaded, archive: Loaded, inputs: Inputs, id: string)
    requires id in inputs && target == inputs[id] && Explains(error, target, inputs)
    ensures Explains(error, archive, inputs)
  {
  }

  lemma {:induction false} FinishedGrows(inputs: Inputs, done: set<string>, id: string)
    requires Finished(inputs, done) && id in inputs && WellBound(inputs[id], inputs) && Within(inputs[id], done)
    requires !CycleFrom(inputs, id)
    ensures Finished(inputs, done + {id})
  {
  }

  lemma {:induction false} ActiveGrows(inputs: Inputs, active: set<string>, id: string)
    requires id in inputs && id !in active
    ensures |inputs.Keys - (active + {id})| < |inputs.Keys - active|
  {
    assert inputs.Keys - (active + {id}) == inputs.Keys - active - {id};
  }

  lemma {:induction false} StackGrows(
    archive: Loaded, inputs: Inputs, active: set<string>, stack: seq<string>, id: string)
    requires Entered(archive, inputs, active, stack) && id in inputs && id in archive.dependencies
    ensures Entered(inputs[id], inputs, active + {id}, stack + [id])
  {
    var p := stack + [id];
    forall k | 0 <= k < |p| - 1
      ensures p[k + 1] in inputs[p[k]].dependencies
    {
      assert p[k] == stack[k];
      assert k + 1 < |stack| ==> p[k + 1] == stack[k + 1];
    }
  }

  /** What the program promises to accept: admissible inputs whose graph, together with
      the source, is well bound and acyclic. */
  ghost predicate Acceptable(source: Loaded, authorized: seq<Authorized>, limit: nat) {
    Admissible(source, authorized, limit) &&
    exists inputs :: Holds(authorized, inputs) && Sound(source, inputs)
  }

  /** The authorized files determine the input map. */
  lemma {:induction false} InputsUnique(authorized: seq<Authorized>, a: Inputs, b: Inputs)
    requires Holds(authorized, a) && Holds(authorized, b)
    ensures a == b
  {
    forall id | id in a.Keys + b.Keys
      ensures id in a && id in b && a[id] == b[id]
    {
      var i :| 0 <= i < |authorized| && authorized[i].archiveId == id;
    }
    assert a.Keys == b.Keys;
  }

  lemma {:induction false} Refused(source: Loaded, authorized: seq<Authorized>, limit: nat, inputs: Inputs)
    requires Holds(authorized, inputs) && !Sound(source, inputs)
    ensures !Acceptable(source, authorized, limit)
  {
    forall other | Holds(authorized, other)
      ensures !Sound(source, other)
    {
      InputsUnique(authorized, inputs, other);
    }
  }

  /** The checks on the inputs, one after another, then the search from the source and
      from every input. */
  method DependenciesFor(source: Loaded, authorized: seq<Authorized>, limit: nat)
    returns (r: Result<Inputs, Error>)
    ensures r.Ok? <==> Acceptable(source, authorized, limit)
    ensures r.Ok? ==> Holds(authorized, r.value) && Sound(source, r.value)
  {
    var archives;
    archives :- Admit(source, authorized, limit);
    var checked, active, done := Visit(source, archives, {}, {}, []);
    if checked.Err? {
      Refused(source, authorized, limit, archives);
      return Err(checked.error);
    }
    var rest := archives.Keys;
    while rest != {}
      invariant rest <= archives.Keys
      invariant forall id :: id in archives && id !in rest ==>
        WellBound(archives[id], archives) && !CycleFrom(archives, id)
    {
      var id :| id in rest;
      assert Path(archives, [id]);
      checked, active, done := Visit(archives[id], archives, {id}, {}, [id]);
      if checked.Err? {
        Refused(source, authorized, limit, archives);
        return Err(checked.error);
      }
      NoCycleOnto(archives, done, id);
      rest := rest - {id};
    }
    return Ok(archives);
  }

  ghost predicate Admitted(authorized: seq<Authorized>, archives: Inputs) {
    Holds(authorized, archives) &&
    (forall i :: 0 <= i < |authorized| ==> Genuine(authorized[i])) &&
    forall i, j :: 0 <= i < j < |authorized| ==> authorized[i].archiveId != authorized[j].archiveId
  }

  lemma {:induction false} AdmitStep(authorized: seq<Authorized>, archives: Inputs, input: Authorized)
    requires Admitted(authorized, archives) && Genuine(input) && input.archiveId !in archives
    ensures Admitted(authorized + [input], archives[input.archiveId := input.file.value])
  {
    var all, extended := authorized + [input], archives[input.archiveId := input.file.value];
    forall id | id in extended
      ensures exists i :: 0 <= i < |all| && all[i].archiveId == id
    {
      if id == input.archiveId {
        assert all[|authorized|].archiveId == id;
      } else {
        var i :| 0 <= i < |authorized| && authorized[i].archiveId == id;
        assert all[i].archiveId == id;
      }
    }
  }

  method Admit(source: Loaded, authorized: seq<Authorized>, limit: nat) returns (r: Result<Inputs, Error>)
    ensures r.Ok? <==> Admissible(source, authorized, limit)
    ensures r.Ok? ==> Holds(authorized, r.value)
  {
    if |authorized| > 16 {
      return Err(TooManyInputs);
    }
    var archives: Inputs := map[];
    var cost := source.cost;
    if cost > limit {
      return Err(OverBudget);
    }
    for i := 0 to |authorized|
      invariant Admitted(authorized[..i], archives)
      invariant cost == source.cost + TotalCost(authorized[..i]) <= limit
    {
      var input := authorized[i];
      CostGrows(authorized, i);
      if !ValidIdentity(input) {
        return Err(InvalidIdentity);
      }
      if input.archiveId in archives {
        ghost var j :| 0 <= j < i && authorized[..i][j].archiveId == input.archiveId;
        return Err(DuplicateId);
      }
      if input.file.None? {
        return Err(LoadFailed);
      }
      var archive := input.file.value;
      if !EqualIgnoringCase(archive.sha256, input.sha256) {
        return Err(HashChanged);
      }
      cost := cost + archive.cost;
      if cost > limit {
        return Err(OverBudget);
      }
      AdmitStep(authorized[..i], archives, input);
      assert authorized[..i + 1] == authorized[..i] + [input];
      archives := archives[input.archiveId := archive];
    }
    assert authorized[..|authorized|] == authorized;
    return Ok(archives);
  }

  lemma {:induction false} CostGrows(authorized: seq<Authorized>, i: nat)
    requires i < |authorized|
    ensures authorized[..i + 1][..i] == authorized[..i]
    ensures TotalCost(authorized[..i + 1]) <= TotalCost(authorized)
    decreases |authorized|
  {
    if i + 1 < |authorized| {
      var n := |authorized| - 1;
      assert authorized[..n][..i + 1] == authorized[..i + 1];
      CostGrows(authorized[..n], i);
    } else {
      assert authorized[..i + 1] == authorized;
    }
  }

  /** A deduplicated archive depends only on inputs its source was checked against, under
      their own hashes; the same inputs are therefore accepted for it. */
  lemma {:induction false} DerivedAccepted(
    source: Loaded, derived: Loaded, authorized: seq<Authorized>, limit: nat, inputs: Inputs)
    requires Acceptable(source, authorized, limit) && Holds(authorized, inputs)
    requires derived.cost + TotalCost(authorized) <= limit
    requires forall id :: id in derived.dependencies ==>
      id in derived.hashes && id in inputs && derived.hashes[id] == inputs[id].sha256
    ensures Acceptable(derived, authorized, limit)
  {
    var found :| Holds(authorized, found) && Sound(source, found);
    InputsUnique(authorized, found, inputs);
    assert Sound(derived, inputs);
  }

  // ---- what makes an input genuine ----

  /** A name of one to 256 printable characters that is no path and no part of a URL. */
  predicate PlainName(id: string) {
    1 <= |id| <= 256 && id != "." && id != ".." &&
    forall i :: 0 <= i < |id| ==>
      (' ' <= id[i] <= '~' || id[i] as int >= 160) && id[i] != '/' && id[i] != '\\' && id[i] != ':' && id[i] != '?' && id[i] != '#'
  }

  predicate SameHexadecimal(a: string, b: string) {
    |a| == |b| && forall i :: 0 <= i < |a| ==> ToLower(a[i]) == ToLower(b[i])
  }

  /** Its name is plain, and its file has the authorized hash. */
  lemma {:induction false} GenuineMeans(a: Authorized)
    ensures Genuine(a) <==>
      PlainName(a.archiveId) && a.file.Some? && SameHexadecimal(a.file.value.sha256, a.sha256) && |a.sha256| == 64 &&
      forall i :: 0 <= i < 64 ==> IsHexDigit(a.sha256[i])
  {
    if a.file.Some? {
      var x, y := LowerAll(a.file.value.sha256), LowerAll(a.sha256);
      assert SameHexadecimal(a.file.value.sha256, a.sha256) ==> x == y;
      if x == y {
        forall i | 0 <= i < |x|
          ensures ToLower(a.file.value.sha256[i]) == ToLower(a.sha256[i])
        {
          assert x[i] == y[i];
        }
      }
    }
  }
}
