/** Page rows of a repair: each successful capture of a repaired URL gets one row, taken over
    from the crawler when exactly one of its rows belongs to that capture and to no other. */
module RepairPages {
  import opened Wrappers

  const WORK := 2_000_000

  /** A point in time: whole seconds, and the rest. */
  datatype Stamp = Stamp(seconds: int, rest: nat)

  /** Which record of which file: no two scanned records share one. */
  datatype Capture = Capture(recordId: string, member: string, offset: nat, bodyOffset: nat)

  datatype Kind = Response | Resource | Revisit | Other

  datatype Record = Record(
    url: string, kind: Kind, html: bool, status: nat, dateText: string, date: Option<Stamp>,
    pageId: string, capture: Capture)

  /** A row of the crawler's page list. */
  datatype Row = Row(url: string, status: nat, stamp: Option<Stamp>, capture: Option<Capture>, id: string, text: string)

  datatype Source = Native(row: Row) | Rebuilt(url: string, date: string, id: string)

  datatype Page = Page(source: Source, capture: Capture)

  predicate Success(status: nat) {
    200 <= status < 400
  }

  predicate Captured(successful: set<string>, r: Record) {
    r.url in successful && (r.kind.Response? || r.kind.Resource?) && r.html
  }

  /** The captures of a URL, failures included, in file order. */
  function Group(records: seq<Record>, successful: set<string>, url: string, n: nat): (g: seq<Record>)
    requires n <= |records|
    ensures forall r :: r in g <==> r in records[..n] && Captured(successful, r) && r.url == url
  {
    if n == 0 then []
    else
      assert records[..n] == records[..n - 1] + [records[n - 1]];
      var before := Group(records, successful, url, n - 1);
      if Captured(successful, records[n - 1]) && records[n - 1].url == url then before + [records[n - 1]] else before
  }

  function Captures(records: seq<Record>, successful: set<string>, url: string): (g: seq<Record>)
    ensures forall r :: r in g <==> r in records && Captured(successful, r) && r.url == url
  {
    assert records[..|records|] == records;
    Group(records, successful, url, |records|)
  }

  ghost predicate DistinctCaptures(records: seq<Record>) {
    forall i, j :: 0 <= i < j < |records| ==> records[i].capture != records[j].capture
  }

  // ---- whose row it is ----

  /** How well an unbound row fits a capture, 0 best: by page id first, then by exact date. A
      conflicting id, or no id and another second, does not fit at all. */
  function Score(row: Row, r: Record): Option<nat>
    requires row.stamp.Some?
  {
    if r.date.None? then None
    else
      var matching := row.id != "" && row.id == r.pageId;
      if (row.id != "" && r.pageId != "" && row.id != r.pageId) ||
         (!matching && row.stamp.value.seconds != r.date.value.seconds) then None
      else Some((if matching then 0 else 2) + if row.stamp == r.date then 0 else 1)
  }

  predicate Better(row: Row, r: Record, other: Record)
    requires row.stamp.Some?
  {
    Score(row, r).Some? && (Score(row, other).None? || Score(row, r).value < Score(row, other).value)
  }

  /** The capture a row is bound to, or else the one that fits it better than every other. */
  predicate Owns(row: Row, group: seq<Record>, r: Record)
    requires row.stamp.Some?
  {
    r in group &&
    if row.capture.Some? then r.capture == row.capture.value
    else Score(row, r).Some? && forall other :: other in group && other != r ==> Better(row, r, other)
  }

  predicate SameRow(a: Row, b: Row) {
    a.url == b.url && a.stamp == b.stamp && a.capture == b.capture
  }

  function Occurrences(rows: seq<Row>, row: Row, n: nat): nat
    requires n <= |rows|
  {
    if n == 0 then 0 else Occurrences(rows, row, n - 1) + if SameRow(rows[n - 1], row) then 1 else 0
  }

  predicate StatusOk(row: Row) {
    row.status == 0 || Success(row.status)
  }

  /** Work left after the first rows: a row costs the captures of its URL, or is passed over. */
  function Remaining(records: seq<Record>, successful: set<string>, rows: seq<Row>, n: nat): nat
    requires n <= |rows|
  {
    if n == 0 then WORK
    else
      var left := Remaining(records, successful, rows, n - 1);
      var cost := |Captures(records, successful, rows[n - 1].url)|;
      if StatusOk(rows[n - 1]) && cost > 0 && cost <= left then left - cost else left
  }

  /** A row that may belong to a capture: not failed, dated, not in conflict, within the work. */
  predicate Considered(records: seq<Record>, successful: set<string>, rows: seq<Row>, p: nat)
    requires p < |rows|
  {
    StatusOk(rows[p]) && rows[p].stamp.Some? && Occurrences(rows, rows[p], |rows|) == 1 &&
    0 < |Captures(records, successful, rows[p].url)| <= Remaining(records, successful, rows, p)
  }

  predicate Claims(records: seq<Record>, successful: set<string>, rows: seq<Row>, p: nat, r: Record)
    requires p < |rows|
  {
    Considered(records, successful, rows, p) && Owns(rows[p], Captures(records, successful, rows[p].url), r)
  }

  /** The rows among the first `n` that belong to a capture. */
  function Claimants(records: seq<Record>, successful: set<string>, rows: seq<Row>, n: nat, r: Record): (ps: seq<nat>)
    requires n <= |rows|
    ensures forall p: nat :: p in ps <==> p < n && Claims(records, successful, rows, p, r)
    ensures forall j, k :: 0 <= j < k < |ps| ==> ps[j] < ps[k]
  {
    if n == 0 then []
    else
      var before := Claimants(records, successful, rows, n - 1, r);
      assert forall k :: 0 <= k < |before| ==> before[k] in before;
      if Claims(records, successful, rows, n - 1, r) then before + [n - 1] else before
  }

  /** The row of a successful capture. */
  function PageOf(records: seq<Record>, successful: set<string>, rows: seq<Row>, r: Record): Page {
    var ps := Claimants(records, successful, rows, |rows|, r);
    Page(if |ps| == 1 then assert ps[0] in ps; Native(rows[ps[0]]) else Rebuilt(r.url, r.dateText, r.pageId), r.capture)
  }

  /** A native row is reused exactly when it alone belongs to the capture. */
  lemma {:induction false} NativeExact(records: seq<Record>, successful: set<string>, rows: seq<Row>, r: Record)
    ensures PageOf(records, successful, rows, r).source.Native? <==>
      exists p: nat :: p < |rows| && Claims(records, successful, rows, p, r) &&
                       forall q: nat :: q < |rows| && q != p ==> !Claims(records, successful, rows, q, r)
    ensures PageOf(records, successful, rows, r).source.Native? ==>
      var row := PageOf(records, successful, rows, r).source.row;
      row in rows && StatusOk(row) && row.url == r.url && row.stamp.Some? &&
      Owns(row, Captures(records, successful, r.url), r)
  {
    var ps := Claimants(records, successful, rows, |rows|, r);
    if |ps| == 1 {
      assert ps[0] in ps;
      forall q: nat | q < |rows| && Claims(records, successful, rows, q, r)
        ensures q == ps[0]
      {
        assert q in ps;
      }
    }
    if p: nat :| p < |rows| && Claims(records, successful, rows, p, r) &&
                 forall q: nat :: q < |rows| && q != p ==> !Claims(records, successful, rows, q, r)
    {
      assert p in ps;
      forall k | 0 <= k < |ps|
        ensures ps[k] == p
      {
        assert ps[k] in ps;
      }
      assert ps[0] == ps[|ps| - 1];
    }
  }

  lemma {:induction false} SameCapture(records: seq<Record>, a: Record, b: Record)
    requires DistinctCaptures(records) && a in records && b in records && a.capture == b.capture
    ensures a == b
  {
    var i :| 0 <= i < |records| && records[i] == a;
    var j :| 0 <= j < |records| && records[j] == b;
    assert !(i < j) && !(j < i);
  }

  /** At most one capture can own a row. */
  lemma {:induction false} OwnerUnique(row: Row, records: seq<Record>, group: seq<Record>, a: Record, b: Record)
    requires row.stamp.Some? && DistinctCaptures(records) && forall r :: r in group ==> r in records
    requires Owns(row, group, a) && Owns(row, group, b)
    ensures a == b
  {
    if row.capture.Some? {
      SameCapture(records, a, b);
    }
  }

  // ---- what the best fit is ----

  /** The capture has the row's page id. */
  predicate Named(row: Row, r: Record) {
    r.date.Some? && row.id != "" && r.pageId == row.id
  }

  /** The capture was made within the row's second, and they do not both have an id. */
  predicate Near(row: Row, r: Record)
    requires row.stamp.Some?
  {
    r.date.Some? && r.date.value.seconds == row.stamp.value.seconds && (row.id == "" || r.pageId == "")
  }

  /** Captures with the row's id come first; only without one do those within its second count. */
  ghost predicate Candidate(row: Row, group: seq<Record>, r: Record)
    requires row.stamp.Some?
  {
    r in group && if exists named :: named in group && Named(row, named) then Named(row, r) else Near(row, r)
  }

  /** The only candidate of the row's exact date; or, when none has it, the only candidate. */
  ghost predicate BestFit(row: Row, group: seq<Record>, r: Record)
    requires row.stamp.Some?
  {
    Candidate(row, group, r) &&
    if exists exact :: Candidate(row, group, exact) && exact.date == row.stamp then
      r.date == row.stamp && forall other :: Candidate(row, group, other) && other.date == row.stamp ==> other == r
    else
      forall other :: Candidate(row, group, other) ==> other == r
  }

  lemma {:induction false} ScoreMeans(row: Row, r: Record)
    requires row.stamp.Some?
    ensures Score(row, r).Some? <==> Named(row, r) || Near(row, r)
    ensures Score(row, r).Some? ==>
              (Score(row, r).value < 2 <==> Named(row, r)) && (Score(row, r).value in {0, 2} <==> r.date == row.stamp)
  {
  }

  /** A capture that fits is a candidate, or has no id where another has it. */
  lemma {:induction false} FitOrOutdone(row: Row, group: seq<Record>, r: Record, other: Record)
    requires row.stamp.Some? && Candidate(row, group, r) && other in group && Score(row, other).Some?
    ensures Candidate(row, group, other) || (Named(row, r) && !Named(row, other))
  {
    ScoreMeans(row, other);
  }

  lemma {:induction false} OwnerFits(row: Row, group: seq<Record>, r: Record)
    requires row.stamp.Some? && row.capture.None? && Owns(row, group, r)
    ensures BestFit(row, group, r)
  {
    ScoreMeans(row, r);
    forall other | other in group && (Named(row, other) || Near(row, other)) && other != r
      ensures Named(row, other) ==> Named(row, r)
      ensures Named(row, other) == Named(row, r) ==> r.date == row.stamp && other.date != row.stamp
    {
      ScoreMeans(row, other);
      assert Better(row, r, other);
    }
  }

  lemma {:induction false} FitOwns(row: Row, group: seq<Record>, r: Record)
    requires row.stamp.Some? && row.capture.None? && BestFit(row, group, r)
    ensures Owns(row, group, r)
  {
    ScoreMeans(row, r);
    forall other | other in group && other != r
      ensures Better(row, r, other)
    {
      ScoreMeans(row, other);
      if Score(row, other).Some? {
        FitOrOutdone(row, group, r, other);
      }
    }
  }

  /** An unbound row belongs exactly to its best fit. */
  lemma {:induction false} OwnerMeans(row: Row, group: seq<Record>, r: Record)
    requires row.stamp.Some? && row.capture.None?
    ensures Owns(row, group, r) <==> BestFit(row, group, r)
  {
    if Owns(row, group, r) {
      OwnerFits(row, group, r);
    }
    if BestFit(row, group, r) {
      FitOwns(row, group, r);
    }
  }

  // ---- the program's loops ----

  ghost predicate NoRepeats(group: seq<Record>) {
    forall i, j :: 0 <= i < j < |group| ==> group[i].capture != group[j].capture
  }

  method FindBound(row: Row, group: seq<Record>) returns (owner: Option<Record>)
    requires row.stamp.Some? && row.capture.Some? && NoRepeats(group)
    ensures forall r :: owner == Some(r) <==> Owns(row, group, r)
  {
    for k := 0 to |group|
      invariant forall j :: 0 <= j < k ==> group[j].capture != row.capture.value
    {
      if row.capture.value == group[k].capture {
        return Some(group[k]);
      }
    }
    return None;
  }

  /** The best score so far, and its holder unless there are several. */
  ghost predicate Leading(row: Row, group: seq<Record>, n: nat, best: Option<nat>, owner: Option<Record>)
    requires n <= |group| && row.stamp.Some?
  {
    (forall k :: 0 <= k < n && Score(row, group[k]).Some? ==> best.Some? && best.value <= Score(row, group[k]).value) &&
    (owner.Some? ==> exists i :: 0 <= i < n && LeadsAt(row, group, n, best, owner, i)) &&
    (owner.None? && best.Some? ==>
       exists i, j :: 0 <= i < j < n && Score(row, group[i]) == best && Score(row, group[j]) == best)
  }

  ghost predicate LeadsAt(row: Row, group: seq<Record>, n: nat, best: Option<nat>, owner: Option<Record>, i: nat)
    requires i < n <= |group| && row.stamp.Some?
  {
    owner == Some(group[i]) && best.Some? && Score(row, group[i]) == best &&
    forall k :: 0 <= k < n && k != i ==> Better(row, group[i], group[k])
  }

  lemma {:induction false} LeadingNext(row: Row, group: seq<Record>, n: nat, best: Option<nat>, owner: Option<Record>)
    requires n < |group| && row.stamp.Some? && Leading(row, group, n, best, owner)
    ensures var score := Score(row, group[n]);
            if score.None? then Leading(row, group, n + 1, best, owner)
            else if best.None? || score.value < best.value then Leading(row, group, n + 1, score, Some(group[n]))
            else if score == best then Leading(row, group, n + 1, best, None)
            else Leading(row, group, n + 1, best, owner)
  {
    var score := Score(row, group[n]);
    if score.Some? && (best.None? || score.value < best.value) {
      assert LeadsAt(row, group, n + 1, score, Some(group[n]), n);
    } else if score.Some? && score == best {
      if owner.Some? {
        var i :| 0 <= i < n && LeadsAt(row, group, n, best, owner, i);
        assert Score(row, group[i]) == best && Score(row, group[n]) == best;
      }
    } else if owner.Some? {
      var i :| 0 <= i < n && LeadsAt(row, group, n, best, owner, i);
      assert LeadsAt(row, group, n + 1, best, owner, i);
    }
  }

  lemma {:induction false} BetterAsymmetric(row: Row, a: Record, b: Record)
    requires row.stamp.Some? && Better(row, a, b)
    ensures !Better(row, b, a)
  {
  }

  lemma {:induction false} LeaderOwns(row: Row, group: seq<Record>, best: Option<nat>, owner: Option<Record>)
    requires row.stamp.Some? && row.capture.None? && NoRepeats(group)
    requires Leading(row, group, |group|, best, owner)
    ensures forall r :: owner == Some(r) <==> Owns(row, group, r)
  {
    if owner.Some? {
      var i :| 0 <= i < |group| && LeadsAt(row, group, |group|, best, owner, i);
      assert group[i] in group;
      forall other | other in group && other != group[i]
        ensures Better(row, group[i], other)
      {
        var k :| 0 <= k < |group| && group[k] == other;
      }
      forall r | Owns(row, group, r)
        ensures r == group[i]
      {
        if Better(row, group[i], r) {
          BetterAsymmetric(row, group[i], r);
        }
      }
    } else if best.Some? {
      var i, j :| 0 <= i < j < |group| && Score(row, group[i]) == best && Score(row, group[j]) == best;
      forall r
        ensures !Owns(row, group, r)
      {
        assert group[i].capture != group[j].capture;
        assert group[i] in group && group[j] in group;
        if r in group && Score(row, r).Some? {
          var k :| 0 <= k < |group| && group[k] == r;
          assert best.value <= Score(row, r).value;
          assert !Better(row, r, group[i]) && !Better(row, r, group[j]);
        }
      }
    } else {
      forall r
        ensures !Owns(row, group, r)
      {
        if r in group {
          var k :| 0 <= k < |group| && group[k] == r;
          assert Score(row, group[k]).None?;
        }
      }
    }
  }

  method FindBest(row: Row, group: seq<Record>) returns (owner: Option<Record>)
    requires row.stamp.Some? && row.capture.None? && NoRepeats(group)
    ensures forall r :: owner == Some(r) <==> Owns(row, group, r)
  {
    var best: Option<nat> := None;
    owner := None;
    for k := 0 to |group|
      invariant Leading(row, group, k, best, owner)
    {
      LeadingNext(row, group, k, best, owner);
      var score := Score(row, group[k]);
      if score.None? {
        continue;
      }
      if best.None? || score.value < best.value {
        best := score;
        owner := Some(group[k]);
      } else if score == best {
        owner := None;
      }
    }
    LeaderOwns(row, group, best, owner);
  }

  method FindOwner(row: Row, group: seq<Record>) returns (owner: Option<Record>)
    requires row.stamp.Some? && NoRepeats(group)
    ensures forall r :: owner == Some(r) <==> Owns(row, group, r)
  {
    if row.capture.Some? {
      owner := FindBound(row, group);
    } else {
      owner := FindBest(row, group);
    }
  }

  lemma {:induction false} GroupDistinct(records: seq<Record>, successful: set<string>, url: string, n: nat)
    requires DistinctCaptures(records) && n <= |records|
    ensures NoRepeats(Group(records, successful, url, n))
  {
    if n > 0 {
      GroupDistinct(records, successful, url, n - 1);
      var before := Group(records, successful, url, n - 1);
      forall i | 0 <= i < |before|
        ensures before[i].capture != records[n - 1].capture
      {
        assert before[i] in before;
        var j :| 0 <= j < n - 1 && records[j] == before[i];
      }
    }
  }

  /** Which rows belong to which capture, as far as `n` rows tell. */
  ghost predicate Associated(associated: map<Record, seq<nat>>, records: seq<Record>, successful: set<string>,
                             rows: seq<Row>, n: nat)
    requires n <= |rows|
  {
    forall r :: Rows(associated, r) == Claimants(records, successful, rows, n, r)
  }

  function Rows(associated: map<Record, seq<nat>>, r: Record): seq<nat> {
    if r in associated then associated[r] else []
  }

  lemma {:induction false} AssociatedNext(associated: map<Record, seq<nat>>, records: seq<Record>, successful: set<string>,
                                          rows: seq<Row>, n: nat, owner: Option<Record>)
    requires n < |rows| && Associated(associated, records, successful, rows, n)
    requires forall r :: owner == Some(r) <==> Claims(records, successful, rows, n, r)
    ensures owner.None? ==> Associated(associated, records, successful, rows, n + 1)
    ensures owner.Some? ==>
      Associated(associated[owner.value := Rows(associated, owner.value) + [n]], records, successful, rows, n + 1)
  {
    var next := if owner.None? then associated
                else associated[owner.value := Rows(associated, owner.value) + [n]];
    forall r
      ensures Rows(next, r) == Claimants(records, successful, rows, n + 1, r)
    {
      assert Rows(associated, r) == Claimants(records, successful, rows, n, r);
      assert owner == Some(r) <==> Claims(records, successful, rows, n, r);
    }
  }

  method Associate(records: seq<Record>, successful: set<string>, rows: seq<Row>)
    returns (associated: map<Record, seq<nat>>)
    requires DistinctCaptures(records)
    ensures Associated(associated, records, successful, rows, |rows|)
  {
    associated := map[];
    var work: nat := WORK;
    for p := 0 to |rows|
      invariant work == Remaining(records, successful, rows, p)
      invariant Associated(associated, records, successful, rows, p)
    {
      var page := rows[p];
      var group := Captures(records, successful, page.url);
      var owner: Option<Record> := None;
      if StatusOk(page) && group != [] && |group| <= work {
        work := work - |group|;
        if page.stamp.Some? && Occurrences(rows, page, |rows|) == 1 {
          GroupDistinct(records, successful, page.url, |records|);
          owner := FindOwner(page, group);
        }
      }
      AssociatedNext(associated, records, successful, rows, p, owner);
      if owner.Some? {
        associated := associated[owner.value := Rows(associated, owner.value) + [p]];
      }
    }
  }

  /** The captures that get a row. */
  predicate Repaired(successful: set<string>, r: Record) {
    Captured(successful, r) && Success(r.status)
  }

  function RebuiltCount(pages: seq<Page>): nat {
    if pages == [] then 0 else RebuiltCount(pages[..|pages| - 1]) + if pages[|pages| - 1].source.Rebuilt? then 1 else 0
  }

  ghost predicate RowFor(page: Page, done: seq<Record>, records: seq<Record>, successful: set<string>, rows: seq<Row>) {
    exists r :: r in done && Repaired(successful, r) && page == PageOf(records, successful, rows, r)
  }

  /** Exactly the rows of the captures in `done` that are repaired. */
  ghost predicate RowsFor(pages: seq<Page>, done: seq<Record>, records: seq<Record>, successful: set<string>, rows: seq<Row>) {
    forall page :: page in pages <==> RowFor(page, done, records, successful, rows)
  }

  predicate NoCaptureTwice(pages: seq<Page>) {
    forall i, j :: 0 <= i < j < |pages| ==> pages[i].capture != pages[j].capture
  }

  /** One row for each successful capture of a repaired URL, bound to that capture: the native
      row that alone belongs to it, or else a new one. */
  method RepairPageMetadata(records: seq<Record>, successful: set<string>, rows: seq<Row>)
    returns (pages: seq<Page>, fallbacks: nat)
    requires DistinctCaptures(records)
    ensures RowsFor(pages, records, records, successful, rows) && NoCaptureTwice(pages)
    ensures fallbacks == RebuiltCount(pages)
  {
    var associated := Associate(records, successful, rows);
    pages, fallbacks := [], 0;
    for k := 0 to |records|
      invariant RowsFor(pages, records[..k], records, successful, rows) && NoCaptureTwice(pages)
      invariant fallbacks == RebuiltCount(pages)
    {
      var record := records[k];
      if !Captured(successful, record) || !Success(record.status) {
        NoRow(records, successful, rows, k, pages);
        continue;
      }
      assert Rows(associated, record) == Claimants(records, successful, rows, |rows|, record);
      var page;
      if |Rows(associated, record)| == 1 {
        assert Rows(associated, record)[0] in Rows(associated, record);
        page := Page(Native(rows[Rows(associated, record)[0]]), record.capture);
      } else {
        fallbacks := fallbacks + 1;
        page := Page(Rebuilt(record.url, record.dateText, record.pageId), record.capture);
      }
      NewRow(records, successful, rows, k, pages, page);
      pages := pages + [page];
    }
    assert records[..|records|] == records;
  }

  lemma {:induction false} NoRow(records: seq<Record>, successful: set<string>, rows: seq<Row>, k: nat, pages: seq<Page>)
    requires k < |records| && !Repaired(successful, records[k])
    requires RowsFor(pages, records[..k], records, successful, rows)
    ensures RowsFor(pages, records[..k + 1], records, successful, rows)
  {
    assert records[..k + 1] == records[..k] + [records[k]];
  }

  lemma {:induction false} NewRow(records: seq<Record>, successful: set<string>, rows: seq<Row>, k: nat,
                                  pages: seq<Page>, page: Page)
    requires DistinctCaptures(records) && k < |records| && Repaired(successful, records[k])
    requires RowsFor(pages, records[..k], records, successful, rows) && NoCaptureTwice(pages)
    requires page == PageOf(records, successful, rows, records[k])
    ensures RowsFor(pages + [page], records[..k + 1], records, successful, rows) && NoCaptureTwice(pages + [page])
    ensures RebuiltCount(pages + [page]) == RebuiltCount(pages) + if page.source.Rebuilt? then 1 else 0
  {
    var more := records[..k + 1];
    assert more == records[..k] + [records[k]];
    forall other
      ensures other in pages + [page] <==> RowFor(other, more, records, successful, rows)
    {
      assert other in pages <==> RowFor(other, records[..k], records, successful, rows);
      assert records[k] in more;
    }
    NewCapture(records, successful, rows, k, pages);
    assert (pages + [page])[..|pages|] == pages;
  }

  lemma {:induction false} NewCapture(records: seq<Record>, successful: set<string>, rows: seq<Row>, k: nat, pages: seq<Page>)
    requires DistinctCaptures(records) && k < |records| && RowsFor(pages, records[..k], records, successful, rows)
    ensures forall i :: 0 <= i < |pages| ==> pages[i].capture != records[k].capture
  {
    forall i | 0 <= i < |pages|
      ensures pages[i].capture != records[k].capture
    {
      assert pages[i] in pages && RowFor(pages[i], records[..k], records, successful, rows);
      var r :| r in records[..k] && Repaired(successful, r) && pages[i] == PageOf(records, successful, rows, r);
      var j :| 0 <= j < k && records[j] == r;
    }
  }

  // ---- the order of records does not matter ----

  lemma {:induction false} GroupCount(records: seq<Record>, successful: set<string>, url: string, n: nat, r: Record)
    requires n <= |records|
    ensures multiset(Group(records, successful, url, n))[r] ==
            if Captured(successful, r) && r.url == url then multiset(records[..n])[r] else 0
  {
    if n > 0 {
      GroupCount(records, successful, url, n - 1, r);
      assert records[..n] == records[..n - 1] + [records[n - 1]];
    }
  }

  lemma {:induction false} SameGroups(a: seq<Record>, b: seq<Record>, successful: set<string>, url: string)
    requires multiset(a) == multiset(b)
    ensures multiset(Captures(a, successful, url)) == multiset(Captures(b, successful, url))
    ensures |Captures(a, successful, url)| == |Captures(b, successful, url)|
  {
    var g, h := Captures(a, successful, url), Captures(b, successful, url);
    assert a[..|a|] == a && b[..|b|] == b;
    forall r
      ensures multiset(g)[r] == multiset(h)[r]
    {
      GroupCount(a, successful, url, |a|, r);
      GroupCount(b, successful, url, |b|, r);
    }
    assert multiset(g) == multiset(h);
    assert |g| == |multiset(g)| && |h| == |multiset(h)|;
  }

  lemma {:induction false} SameRemaining(a: seq<Record>, b: seq<Record>, successful: set<string>, rows: seq<Row>, n: nat)
    requires multiset(a) == multiset(b) && n <= |rows|
    ensures Remaining(a, successful, rows, n) == Remaining(b, successful, rows, n)
  {
    if n > 0 {
      SameRemaining(a, b, successful, rows, n - 1);
      SameGroups(a, b, successful, rows[n - 1].url);
    }
  }

  lemma {:induction false} SameOwner(row: Row, g: seq<Record>, h: seq<Record>, r: Record)
    requires row.stamp.Some? && multiset(g) == multiset(h)
    ensures Owns(row, g, r) == Owns(row, h, r)
  {
    assert forall x :: x in g <==> x in multiset(g);
    assert forall x :: x in h <==> x in multiset(h);
  }

  lemma {:induction false} SameClaimants(a: seq<Record>, b: seq<Record>, successful: set<string>, rows: seq<Row>,
                                         n: nat, r: Record)
    requires multiset(a) == multiset(b) && n <= |rows|
    ensures Claimants(a, successful, rows, n, r) == Claimants(b, successful, rows, n, r)
  {
    if n > 0 {
      SameClaimants(a, b, successful, rows, n - 1, r);
      var row := rows[n - 1];
      SameGroups(a, b, successful, row.url);
      SameRemaining(a, b, successful, rows, n - 1);
      if row.stamp.Some? {
        SameOwner(row, Captures(a, successful, row.url), Captures(b, successful, row.url), r);
      }
    }
  }

  /** Records in any other order give every capture the same row. */
  lemma {:induction false} OrderIndependent(a: seq<Record>, b: seq<Record>, successful: set<string>, rows: seq<Row>, r: Record)
    requires multiset(a) == multiset(b)
    ensures PageOf(a, successful, rows, r) == PageOf(b, successful, rows, r)
    ensures r in a <==> r in b
  {
    SameClaimants(a, b, successful, rows, |rows|, r);
    assert r in a <==> r in multiset(a);
    assert r in b <==> r in multiset(b);
  }

  // ---- while the work lasts ----

  function Cost(records: seq<Record>, successful: set<string>, rows: seq<Row>, n: nat): nat
    requires n <= |rows|
  {
    if n == 0 then 0
    else
      Cost(records, successful, rows, n - 1) +
      if StatusOk(rows[n - 1]) then |Captures(records, successful, rows[n - 1].url)| else 0
  }

  lemma {:induction false} CostGrows(records: seq<Record>, successful: set<string>, rows: seq<Row>, m: nat, n: nat)
    requires m <= n <= |rows|
    ensures Cost(records, successful, rows, m) <= Cost(records, successful, rows, n)
  {
    if m < n {
      CostGrows(records, successful, rows, m, n - 1);
    }
  }

  lemma {:induction false} WorkLasts(records: seq<Record>, successful: set<string>, rows: seq<Row>, n: nat)
    requires n <= |rows| && Cost(records, successful, rows, |rows|) <= WORK
    ensures Remaining(records, successful, rows, n) == WORK - Cost(records, successful, rows, n)
  {
    if n > 0 {
      WorkLasts(records, successful, rows, n - 1);
      CostGrows(records, successful, rows, n, |rows|);
    }
  }

  /** While the work lasts, a row is considered if and only if it did not fail, is dated, has no
      double and has captures: which rows belong to a capture depends on the row alone. */
  lemma {:induction false} ConsideredWithinWork(records: seq<Record>, successful: set<string>, rows: seq<Row>, p: nat)
    requires p < |rows| && Cost(records, successful, rows, |rows|) <= WORK
    ensures Considered(records, successful, rows, p) <==>
      StatusOk(rows[p]) && rows[p].stamp.Some? && Occurrences(rows, rows[p], |rows|) == 1 &&
      Captures(records, successful, rows[p].url) != []
  {
    WorkLasts(records, successful, rows, p);
    CostGrows(records, successful, rows, p + 1, |rows|);
  }

  // ---- the order of rows does not matter either ----

  function Sum(rows: seq<Row>, f: Row -> nat): nat {
    if rows == [] then 0 else Sum(rows[..|rows| - 1], f) + f(rows[|rows| - 1])
  }

  lemma {:induction false} SumRemove(rows: seq<Row>, f: Row -> nat, i: nat)
    requires i < |rows|
    ensures Sum(rows, f) == Sum(rows[..i] + rows[i + 1..], f) + f(rows[i])
    decreases |rows|
  {
    var n := |rows| - 1;
    var less := rows[..i] + rows[i + 1..];
    if i == n {
      assert less == rows[..n];
    } else {
      SumRemove(rows[..n], f, i);
      assert less[..n - 1] == rows[..n][..i] + rows[..n][i + 1..];
    }
  }

  lemma {:induction false} LessOne(b: seq<Row>, i: nat)
    requires i < |b|
    ensures multiset(b[..i] + b[i + 1..]) == multiset(b) - multiset{b[i]}
  {
    assert b == b[..i] + [b[i]] + b[i + 1..];
  }

  lemma {:induction false} LessLast(a: seq<Row>)
    requires a != []
    ensures multiset(a[..|a| - 1]) == multiset(a) - multiset{a[|a| - 1]}
  {
    LessOne(a, |a| - 1);
    assert a[..|a| - 1] + a[|a|..] == a[..|a| - 1];
  }

  lemma {:induction false} PlaceOf(b: seq<Row>, x: Row) returns (i: nat)
    requires x in multiset(b)
    ensures i < |b| && b[i] == x
  {
    i :| 0 <= i < |b| && b[i] == x;
  }

  lemma {:induction false} SumSame(a: seq<Row>, b: seq<Row>, f: Row -> nat)
    requires multiset(a) == multiset(b)
    ensures Sum(a, f) == Sum(b, f)
    decreases |a|
  {
    if a == [] {
      assert |b| == |multiset(b)| == |multiset(a)|;
    } else {
      var n := |a| - 1;
      assert a[n] in multiset(a);
      var i := PlaceOf(b, a[n]);
      LessLast(a);
      LessOne(b, i);
      SumSame(a[..n], b[..i] + b[i + 1..], f);
      SumRemove(b, f, i);
    }
  }

  lemma {:induction false} OccurrencesSum(rows: seq<Row>, row: Row, n: nat)
    requires n <= |rows|
    ensures Occurrences(rows, row, n) == Sum(rows[..n], x => if SameRow(x, row) then 1 else 0)
  {
    if n > 0 {
      OccurrencesSum(rows, row, n - 1);
      assert rows[..n][..n - 1] == rows[..n - 1];
    }
  }

  function CostOf(records: seq<Record>, successful: set<string>, row: Row): nat {
    if StatusOk(row) then |Captures(records, successful, row.url)| else 0
  }

  lemma {:induction false} CostSum(records: seq<Record>, successful: set<string>, rows: seq<Row>, n: nat)
    requires n <= |rows|
    ensures Cost(records, successful, rows, n) == Sum(rows[..n], x => CostOf(records, successful, x))
  {
    if n > 0 {
      CostSum(records, successful, rows, n - 1);
      assert rows[..n][..n - 1] == rows[..n - 1];
    }
  }

  lemma {:induction false} SameCost(records: seq<Record>, successful: set<string>, a: seq<Row>, b: seq<Row>)
    requires multiset(a) == multiset(b)
    ensures Cost(records, successful, a, |a|) == Cost(records, successful, b, |b|)
  {
    CostSum(records, successful, a, |a|);
    CostSum(records, successful, b, |b|);
    assert a[..|a|] == a && b[..|b|] == b;
    SumSame(a, b, x => CostOf(records, successful, x));
  }

  lemma {:induction false} SameOccurrences(a: seq<Row>, b: seq<Row>, row: Row)
    requires multiset(a) == multiset(b)
    ensures Occurrences(a, row, |a|) == Occurrences(b, row, |b|)
  {
    OccurrencesSum(a, row, |a|);
    OccurrencesSum(b, row, |b|);
    assert a[..|a|] == a && b[..|b|] == b;
    SumSame(a, b, x => if SameRow(x, row) then 1 else 0);
  }

  /** Two rows that are the same occur twice. */
  lemma {:induction false} OccursTwice(rows: seq<Row>, p: nat, q: nat, n: nat)
    requires p < q < n <= |rows| && rows[p] == rows[q]
    ensures Occurrences(rows, rows[p], n) >= 2
  {
    if n == q + 1 {
      OccursOnce(rows, p, q);
    } else {
      OccursTwice(rows, p, q, n - 1);
    }
  }

  lemma {:induction false} OccursOnce(rows: seq<Row>, p: nat, n: nat)
    requires p < n <= |rows|
    ensures Occurrences(rows, rows[p], n) >= 1
  {
    if p < n - 1 {
      OccursOnce(rows, p, n - 1);
    }
  }

  /** The row at the one place that belongs to the capture. */
  ghost predicate OnlyClaim(records: seq<Record>, successful: set<string>, rows: seq<Row>, r: Record, p: nat) {
    p < |rows| && Claims(records, successful, rows, p, r) &&
    forall q: nat :: q < |rows| && q != p ==> !Claims(records, successful, rows, q, r)
  }

  lemma {:induction false} ClaimedRow(records: seq<Record>, successful: set<string>, rows: seq<Row>, r: Record, p: nat)
    requires OnlyClaim(records, successful, rows, r, p)
    ensures PageOf(records, successful, rows, r) == Page(Native(rows[p]), r.capture)
  {
    var ps := Claimants(records, successful, rows, |rows|, r);
    assert p in ps;
    forall k | 0 <= k < |ps|
      ensures ps[k] == p
    {
      assert ps[k] in ps;
    }
    assert ps[0] == ps[|ps| - 1];
  }

  /** The same row belongs to the capture wherever it stands. */
  lemma {:induction false} SameClaim(
    records: seq<Record>, successful: set<string>, a: seq<Row>, b: seq<Row>, r: Record, p: nat, q: nat)
    requires multiset(a) == multiset(b) && Cost(records, successful, a, |a|) <= WORK
    requires p < |a| && q < |b| && a[p] == b[q]
    ensures Claims(records, successful, a, p, r) <==> Claims(records, successful, b, q, r)
  {
    SameCost(records, successful, a, b);
    SameOccurrences(a, b, a[p]);
    ConsideredWithinWork(records, successful, a, p);
    ConsideredWithinWork(records, successful, b, q);
  }

  lemma {:induction false} ClaimMoves(
    records: seq<Record>, successful: set<string>, a: seq<Row>, b: seq<Row>, r: Record, p: nat) returns (q: nat)
    requires multiset(a) == multiset(b) && Cost(records, successful, a, |a|) <= WORK
    requires OnlyClaim(records, successful, a, r, p)
    ensures OnlyClaim(records, successful, b, r, q) && b[q] == a[p]
  {
    assert a[p] in multiset(b);
    q :| 0 <= q < |b| && b[q] == a[p];
    SameClaim(records, successful, a, b, r, p, q);
    forall k: nat | k < |b| && k != q
      ensures !Claims(records, successful, b, k, r)
    {
      if Claims(records, successful, b, k, r) {
        assert b[k] in multiset(a);
        var j :| 0 <= j < |a| && a[j] == b[k];
        SameClaim(records, successful, a, b, r, j, k);
        assert j == p;
        OccursTwice(b, if k < q then k else q, if k < q then q else k, |b|);
      }
    }
  }

  /** Rows in any other order, while the work lasts, give every capture the same page. */
  lemma {:induction false} RowOrderIndependent(
    records: seq<Record>, successful: set<string>, a: seq<Row>, b: seq<Row>, r: Record)
    requires multiset(a) == multiset(b) && Cost(records, successful, a, |a|) <= WORK
    ensures PageOf(records, successful, a, r) == PageOf(records, successful, b, r)
  {
    SameCost(records, successful, a, b);
    if p: nat :| OnlyClaim(records, successful, a, r, p) {
      var q := ClaimMoves(records, successful, a, b, r, p);
      ClaimedRow(records, successful, a, r, p);
      ClaimedRow(records, successful, b, r, q);
    } else if q: nat :| OnlyClaim(records, successful, b, r, q) {
      var p := ClaimMoves(records, successful, b, a, r, q);
      assert false;
    } else {
      NoOnlyClaim(records, successful, a, r);
      NoOnlyClaim(records, successful, b, r);
    }
  }

  lemma {:induction false} NoOnlyClaim(records: seq<Record>, successful: set<string>, rows: seq<Row>, r: Record)
    requires forall p: nat :: !OnlyClaim(records, successful, rows, r, p)
    ensures PageOf(records, successful, rows, r) == Page(Rebuilt(r.url, r.dateText, r.pageId), r.capture)
  {
    NativeExact(records, successful, rows, r);
    if PageOf(records, successful, rows, r).source.Native? {
      var p: nat :| p < |rows| && Claims(records, successful, rows, p, r) &&
                    forall q: nat :: q < |rows| && q != p ==> !Claims(records, successful, rows, q, r);
      assert OnlyClaim(records, successful, rows, r, p);
    }
  }

  // ---- all of it, from the records and rows alone ----

  /** HTML of a repaired URL that was fetched, successfully or not. */
  predicate Fetched(records: seq<Record>, successful: set<string>, url: string, r: Record) {
    r in records && r.url == url && url in successful && r.html && r.kind in {Response, Resource}
  }

  ghost predicate AllFetched(records: seq<Record>, successful: set<string>, url: string, group: seq<Record>) {
    forall r :: r in group <==> Fetched(records, successful, url, r)
  }

  /** No other row repeats its URL, date and binding. */
  predicate Single(rows: seq<Row>, p: nat)
    requires p < |rows|
  {
    forall q :: 0 <= q < |rows| && q != p ==>
      !(rows[q].url == rows[p].url && rows[q].stamp == rows[p].stamp && rows[q].capture == rows[p].capture)
  }

  /** A row that did not fail is bound to this capture, or is bound to none and fits this one best. */
  ghost predicate BelongsTo(records: seq<Record>, successful: set<string>, rows: seq<Row>, p: nat, r: Record) {
    p < |rows| && Single(rows, p) && Fetched(records, successful, rows[p].url, r) &&
    (rows[p].status == 0 || 200 <= rows[p].status <= 399) && rows[p].stamp.Some? &&
    match rows[p].capture
    case Some(c) => c == r.capture
    case None => exists group :: AllFetched(records, successful, rows[p].url, group) && BestFit(rows[p], group, r)
  }

  /** The native row, when one and no other belongs to the capture; otherwise a new one with the
      URL, date and page id of the capture. Either way it is bound to the capture. */
  ghost predicate PageSaid(records: seq<Record>, successful: set<string>, rows: seq<Row>, r: Record, page: Page) {
    page.capture == r.capture &&
    match page.source
    case Native(row) =>
      exists p: nat :: BelongsTo(records, successful, rows, p, r) && rows[p] == row &&
                       forall q: nat :: q != p ==> !BelongsTo(records, successful, rows, q, r)
    case Rebuilt(url, date, id) =>
      url == r.url && date == r.dateText && id == r.pageId &&
      forall p: nat :: BelongsTo(records, successful, rows, p, r) ==>
        exists q: nat :: q != p && BelongsTo(records, successful, rows, q, r)
  }

  lemma {:induction false} NoneOccurs(rows: seq<Row>, row: Row, n: nat)
    requires n <= |rows|
    ensures Occurrences(rows, row, n) == 0 <==> forall q :: 0 <= q < n ==> !SameRow(rows[q], row)
  {
    if n > 0 {
      NoneOccurs(rows, row, n - 1);
    }
  }

  lemma {:induction false} OneOccurs(rows: seq<Row>, p: nat, n: nat)
    requires p < n <= |rows|
    ensures Occurrences(rows, rows[p], n) == 1 <==> forall q :: 0 <= q < n && q != p ==> !SameRow(rows[q], rows[p])
  {
    if p == n - 1 {
      NoneOccurs(rows, rows[p], p);
    } else {
      OneOccurs(rows, p, n - 1);
      NoneOccurs(rows, rows[p], n - 1);
      assert SameRow(rows[p], rows[p]);
    }
  }

  lemma {:induction false} SameFit(row: Row, g: seq<Record>, h: seq<Record>, r: Record)
    requires row.stamp.Some? && BestFit(row, g, r) && forall x :: x in g <==> x in h
    ensures BestFit(row, h, r)
  {
    assert forall x :: Candidate(row, g, x) <==> Candidate(row, h, x);
  }

  lemma {:induction false} ClaimsMean(records: seq<Record>, successful: set<string>, rows: seq<Row>, p: nat, r: Record)
    requires p < |rows| && Cost(records, successful, rows, |rows|) <= WORK
    ensures Claims(records, successful, rows, p, r) <==> BelongsTo(records, successful, rows, p, r)
  {
    var row := rows[p];
    var group := Captures(records, successful, row.url);
    ConsideredWithinWork(records, successful, rows, p);
    OneOccurs(rows, p, |rows|);
    assert AllFetched(records, successful, row.url, group);
    if row.stamp.Some? && row.capture.None? {
      OwnerMeans(row, group, r);
      if g :| AllFetched(records, successful, row.url, g) && BestFit(row, g, r) {
        SameFit(row, g, group, r);
      }
    }
  }

  /** While the work lasts, the row of a capture is the native one that alone belongs to it, or a new one. */
  lemma {:induction false} PageMeans(records: seq<Record>, successful: set<string>, rows: seq<Row>, r: Record)
    requires Cost(records, successful, rows, |rows|) <= WORK
    ensures PageSaid(records, successful, rows, r, PageOf(records, successful, rows, r))
  {
    forall p: nat
      ensures OnlyClaim(records, successful, rows, r, p) <==>
        BelongsTo(records, successful, rows, p, r) && forall q: nat :: q != p ==> !BelongsTo(records, successful, rows, q, r)
    {
      forall q: nat | q < |rows| {
        ClaimsMean(records, successful, rows, q, r);
      }
    }
    if p: nat :| OnlyClaim(records, successful, rows, r, p) {
      ClaimedRow(records, successful, rows, r, p);
    } else {
      NoOnlyClaim(records, successful, rows, r);
    }
  }

  /** Every row of a repair is that of a capture with a status from 200 to 399, and every such capture has one. */
  lemma {:induction false} RepairMeans(pages: seq<Page>, records: seq<Record>, successful: set<string>, rows: seq<Row>)
    requires Cost(records, successful, rows, |rows|) <= WORK && RowsFor(pages, records, records, successful, rows)
    ensures forall r: Record :: Fetched(records, successful, r.url, r) && 200 <= r.status <= 399 ==>
      exists page :: page in pages && PageSaid(records, successful, rows, r, page)
    ensures forall page :: page in pages ==>
      exists r: Record :: Fetched(records, successful, r.url, r) && 200 <= r.status <= 399 &&
                  PageSaid(records, successful, rows, r, page)
  {
    forall r | r in records && Repaired(successful, r)
      ensures PageSaid(records, successful, rows, r, PageOf(records, successful, rows, r)) &&
              PageOf(records, successful, rows, r) in pages
    {
      PageMeans(records, successful, rows, r);
      assert RowFor(PageOf(records, successful, rows, r), records, records, successful, rows);
    }
    forall r: Record | Fetched(records, successful, r.url, r) && 200 <= r.status <= 399
      ensures exists page :: page in pages && PageSaid(records, successful, rows, r, page)
    {
      assert Repaired(successful, r);
    }
  }
}
