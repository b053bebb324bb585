/** Which pages an export with selected pages keeps: the pages asked for, every HTML document
    that is no page, and whatever these embed, found with a worklist under a budget. */
module PageClosure {
  import opened Wrappers

  const MAX_METADATA := 32 * 1024 * 1024

  /** The embedded documents of an HTML record: found, not analysable, or unreadable. */
  datatype Links = Known(urls: seq<string>) | Unknown | Broken

  datatype Record = Record(html: bool, url: string, size: nat, links: Links)

  datatype Error = Unreadable

  /** URLs without their fragments. */
  type Base = string -> string

  // ---- what is wanted ----

  /** The pages asked for, and HTML that is no page. */
  function Seeds(base: Base, inventory: set<string>, included: seq<string>, records: seq<Record>): set<string> {
    (set u | u in included :: base(u)) +
    (set r | r in records && r.html && base(r.url) !in inventory :: base(r.url))
  }

  /** Everything that could ever be kept. */
  function Universe(base: Base, seeds: set<string>, records: seq<Record>): set<string> {
    seeds + set r, u | r in records && r.html && r.links.Known? && u in r.links.urls :: base(u)
  }

  predicate Embeds(base: Base, r: Record, kept: set<string>) {
    r.links.Known? ==> forall u :: u in r.links.urls ==> base(u) in kept
  }

  /** Nothing is missing: with an HTML document, all it embeds is kept. */
  ghost predicate Closed(base: Base, seeds: set<string>, records: seq<Record>, kept: set<string>) {
    seeds <= kept &&
    forall k :: 0 <= k < |records| && records[k].html && base(records[k].url) in kept ==> Embeds(base, records[k], kept)
  }

  /** The least set from which nothing is missing. */
  ghost function Closure(base: Base, seeds: set<string>, records: seq<Record>): set<string> {
    set b | b in Universe(base, seeds, records) && Needed(base, seeds, records, b)
  }

  ghost predicate Needed(base: Base, seeds: set<string>, records: seq<Record>, b: string) {
    forall kept :: Closed(base, seeds, records, kept) ==> b in kept
  }

  lemma {:induction false} ClosureIsLeast(base: Base, seeds: set<string>, records: seq<Record>)
    ensures Closed(base, seeds, records, Closure(base, seeds, records))
    ensures forall kept :: Closed(base, seeds, records, kept) ==> Closure(base, seeds, records) <= kept
  {
    var least := Closure(base, seeds, records);
    forall k | 0 <= k < |records| && records[k].html && base(records[k].url) in least
      ensures Embeds(base, records[k], least)
    {
      var r := records[k];
      if r.links.Known? {
        forall u | u in r.links.urls
          ensures base(u) in least
        {
          forall kept | Closed(base, seeds, records, kept)
            ensures base(u) in kept
          {
            assert base(r.url) in kept;
            assert Embeds(base, r, kept);
          }
        }
      }
    }
  }

  // ---- the cost of analysing documents ----

  function LinkBytes(urls: seq<string>): nat {
    if urls == [] then 0 else LinkBytes(urls[..|urls| - 1]) + |urls[|urls| - 1]|
  }

  function Cost(links: Links): nat {
    if links.Known? then LinkBytes(links.urls) else 0
  }

  /** The HTML records at a base URL, in order. */
  function DocumentsAt(base: Base, records: seq<Record>, n: nat, b: string): seq<Record>
    requires n <= |records|
  {
    if n == 0 then []
    else
      var before := DocumentsAt(base, records, n - 1, b);
      if records[n - 1].html && base(records[n - 1].url) == b then before + [records[n - 1]] else before
  }

  function SizeSum(ds: seq<Record>): nat {
    if ds == [] then 0 else SizeSum(ds[..|ds| - 1]) + ds[|ds| - 1].size
  }

  function CostSum(ds: seq<Record>): nat {
    if ds == [] then 0 else CostSum(ds[..|ds| - 1]) + Cost(ds[|ds| - 1].links)
  }

  function SizeOver(base: Base, records: seq<Record>, n: nat, kept: set<string>): nat
    requires n <= |records|
  {
    if n == 0 then 0
    else
      SizeOver(base, records, n - 1, kept) +
      if records[n - 1].html && base(records[n - 1].url) in kept then records[n - 1].size else 0
  }

  function CostOver(base: Base, records: seq<Record>, n: nat, kept: set<string>): nat
    requires n <= |records|
  {
    if n == 0 then 0
    else
      CostOver(base, records, n - 1, kept) +
      if records[n - 1].html && base(records[n - 1].url) in kept then Cost(records[n - 1].links) else 0
  }

  /** All links of the documents at kept URLs, one text after the other. */
  function LinkText(base: Base, records: seq<Record>, n: nat, kept: set<string>): string
    requires n <= |records|
  {
    if n == 0 then ""
    else
      LinkText(base, records, n - 1, kept) +
      if records[n - 1].html && base(records[n - 1].url) in kept && records[n - 1].links.Known? then
        Concatenated(records[n - 1].links.urls)
      else ""
  }

  function Concatenated(urls: seq<string>): string {
    if urls == [] then "" else urls[0] + Concatenated(urls[1..])
  }

  lemma {:induction false} ConcatenatedLast(urls: seq<string>, u: string)
    ensures |Concatenated(urls + [u])| == |Concatenated(urls)| + |u|
  {
    if urls != [] {
      assert (urls + [u])[1..] == urls[1..] + [u];
      ConcatenatedLast(urls[1..], u);
    }
  }

  lemma {:induction false} LinkBytesMean(urls: seq<string>)
    ensures LinkBytes(urls) == |Concatenated(urls)|
  {
    if urls != [] {
      LinkBytesMean(urls[..|urls| - 1]);
      ConcatenatedLast(urls[..|urls| - 1], urls[|urls| - 1]);
      assert urls == urls[..|urls| - 1] + [urls[|urls| - 1]];
    }
  }

  /** The cost of a selection is the length of all its links together. */
  lemma {:induction false} CostMeans(base: Base, records: seq<Record>, n: nat, kept: set<string>)
    requires n <= |records|
    ensures CostOver(base, records, n, kept) == |LinkText(base, records, n, kept)|
  {
    if n > 0 {
      CostMeans(base, records, n - 1, kept);
      if records[n - 1].links.Known? {
        LinkBytesMean(records[n - 1].links.urls);
      }
    }
  }

  lemma {:induction false} SumsAdd(base: Base, records: seq<Record>, n: nat, kept: set<string>, b: string)
    requires n <= |records| && b !in kept
    ensures SizeOver(base, records, n, kept + {b}) ==
            SizeOver(base, records, n, kept) + SizeSum(DocumentsAt(base, records, n, b))
    ensures CostOver(base, records, n, kept + {b}) ==
            CostOver(base, records, n, kept) + CostSum(DocumentsAt(base, records, n, b))
  {
    if n > 0 {
      SumsAdd(base, records, n - 1, kept, b);
      var before := DocumentsAt(base, records, n - 1, b);
      if records[n - 1].html && base(records[n - 1].url) == b {
        assert (before + [records[n - 1]])[..|before|] == before;
      }
    }
  }

  lemma {:induction false} SumsGrow(base: Base, records: seq<Record>, n: nat, kept: set<string>, more: set<string>)
    requires n <= |records| && kept <= more
    ensures SizeOver(base, records, n, kept) <= SizeOver(base, records, n, more)
    ensures CostOver(base, records, n, kept) <= CostOver(base, records, n, more)
  {
    if n > 0 {
      SumsGrow(base, records, n - 1, kept, more);
    }
  }

  lemma {:induction false} NoSums(base: Base, records: seq<Record>, n: nat)
    requires n <= |records|
    ensures SizeOver(base, records, n, {}) == 0 && CostOver(base, records, n, {}) == 0
  {
    if n > 0 {
      NoSums(base, records, n - 1);
    }
  }

  lemma {:induction false} SumsPrefix(ds: seq<Record>, k: nat)
    requires k <= |ds|
    ensures SizeSum(ds[..k]) <= SizeSum(ds) && CostSum(ds[..k]) <= CostSum(ds)
    decreases |ds| - k
  {
    if k < |ds| {
      SumsPrefix(ds, k + 1);
      assert ds[..k + 1][..k] == ds[..k];
    } else {
      assert ds[..k] == ds;
    }
  }

  lemma {:induction false} LinksPrefix(urls: seq<string>, k: nat)
    requires k <= |urls|
    ensures LinkBytes(urls[..k]) <= LinkBytes(urls)
    decreases |urls| - k
  {
    if k < |urls| {
      LinksPrefix(urls, k + 1);
      assert urls[..k + 1][..k] == urls[..k];
    } else {
      assert urls[..k] == urls;
    }
  }

  lemma {:induction false} DocumentIs(base: Base, records: seq<Record>, n: nat, b: string, j: nat) returns (k: nat)
    requires n <= |records| && j < |DocumentsAt(base, records, n, b)|
    ensures k < n && records[k] == DocumentsAt(base, records, n, b)[j] && records[k].html && base(records[k].url) == b
  {
    var before := DocumentsAt(base, records, n - 1, b);
    if j < |before| {
      k := DocumentIs(base, records, n - 1, b, j);
    } else {
      k := n - 1;
    }
  }

  lemma {:induction false} DocumentAt(base: Base, records: seq<Record>, n: nat, k: nat)
    requires k < n <= |records| && records[k].html
    ensures records[k] in DocumentsAt(base, records, n, base(records[k].url))
  {
    if k < n - 1 {
      DocumentAt(base, records, n - 1, k);
    }
  }

  /** The closure can be found within the budget: every document in it can be analysed, and
      neither their sizes nor their links exceed it. */
  ghost predicate Affordable(base: Base, seeds: set<string>, records: seq<Record>) {
    var least := Closure(base, seeds, records);
    (forall k :: 0 <= k < |records| && records[k].html && base(records[k].url) in least ==> records[k].links.Known?) &&
    SizeOver(base, records, |records|, least) <= MAX_METADATA &&
    CostOver(base, records, |records|, least) <= MAX_METADATA
  }

  // ---- the worklist ----

  /** What holds between two documents: every base URL was enqueued once, what is done and
      what is pending make up what is retained, and the budget is spent on what is done. */
  ghost predicate Progress(base: Base, seeds: set<string>, records: seq<Record>, retained: set<string>,
                           pending: seq<string>, finished: set<string>, work: nat, linkBytes: nat)
  {
    seeds <= retained <= Closure(base, seeds, records) &&
    Enqueued(retained, pending, finished) &&
    (forall k :: 0 <= k < |records| && records[k].html && base(records[k].url) in finished ==>
       records[k].links.Known? && Embeds(base, records[k], retained)) &&
    work == SizeOver(base, records, |records|, finished) <= MAX_METADATA &&
    linkBytes == CostOver(base, records, |records|, finished) <= MAX_METADATA
  }

  ghost predicate Enqueued(retained: set<string>, pending: seq<string>, finished: set<string>) {
    (forall j, k :: 0 <= j < k < |pending| ==> pending[j] != pending[k]) &&
    (forall j :: 0 <= j < |pending| ==> pending[j] !in finished) &&
    forall b :: b in retained <==> b in finished || b in pending
  }

  /** The links of one document, followed while the budget lasts. */
  method Follow(base: Base, urls: seq<string>, retained: set<string>, pending: seq<string>, linkBytes: nat,
                ghost finished: set<string>)
    returns (ok: bool, retained': set<string>, pending': seq<string>, linkBytes': nat)
    requires linkBytes <= MAX_METADATA && Enqueued(retained, pending, finished)
    ensures ok <==> linkBytes + LinkBytes(urls) <= MAX_METADATA
    ensures retained <= retained' <= retained + set u | u in urls :: base(u)
    ensures ok ==> linkBytes' == linkBytes + LinkBytes(urls) && forall u :: u in urls ==> base(u) in retained'
    ensures Enqueued(retained', pending', finished)
  {
    retained', pending', linkBytes' := retained, pending, linkBytes;
    for k := 0 to |urls|
      invariant linkBytes' == linkBytes + LinkBytes(urls[..k]) <= MAX_METADATA
      invariant retained <= retained' <= retained + set u | u in urls :: base(u)
      invariant forall j :: 0 <= j < k ==> base(urls[j]) in retained'
      invariant Enqueued(retained', pending', finished)
    {
      assert urls[..k + 1][..k] == urls[..k];
      linkBytes' := linkBytes' + |urls[k]|;
      if linkBytes' > MAX_METADATA {
        LinksPrefix(urls, k + 1);
        return false, retained', pending', linkBytes';
      }
      var b := base(urls[k]);
      if b !in retained' {
        retained' := retained' + {b};
        pending' := pending' + [b];
      }
    }
    assert urls[..|urls|] == urls;
    return true, retained', pending', linkBytes';
  }

  datatype Outcome = Finished | OutOfBudget | Failed

  /** What the documents at one base URL embed. */
  function Embedded(base: Base, ds: seq<Record>): set<string> {
    set d, u | d in ds && d.links.Known? && u in d.links.urls :: base(u)
  }

  ghost predicate Spent(ds: seq<Record>, work: nat, linkBytes: nat) {
    (exists d :: d in ds && !d.links.Known?) || work + SizeSum(ds) > MAX_METADATA ||
    linkBytes + CostSum(ds) > MAX_METADATA
  }

  lemma {:induction false} EmbeddedHas(base: Base, ds: seq<Record>, k: nat)
    requires k < |ds| && ds[k].links.Known?
    ensures (set u | u in ds[k].links.urls :: base(u)) <= Embedded(base, ds)
  {
    assert forall u :: u in ds[k].links.urls ==> base(u) in Embedded(base, ds);
  }

  lemma {:induction false} EmbedsOn(base: Base, ds: seq<Record>, k: nat, was: set<string>, now: set<string>)
    requires k < |ds| && was <= now && forall j :: 0 <= j < k ==> ds[j].links.Known? && Embeds(base, ds[j], was)
    requires ds[k].links.Known? && forall u :: u in ds[k].links.urls ==> base(u) in now
    ensures forall j :: 0 <= j < k + 1 ==> ds[j].links.Known? && Embeds(base, ds[j], now)
  {
    assert forall j :: 0 <= j < k ==> Embeds(base, ds[j], was);
  }

  /** The documents at one base URL, analysed while the budget lasts. */
  method Analyse(base: Base, ds: seq<Record>, retained: set<string>, pending: seq<string>, work: nat, linkBytes: nat,
                 ghost finished: set<string>)
    returns (outcome: Outcome, retained': set<string>, pending': seq<string>, work': nat, linkBytes': nat)
    requires work <= MAX_METADATA && linkBytes <= MAX_METADATA && Enqueued(retained, pending, finished)
    ensures outcome.Finished? ==>
      (forall d :: d in ds ==> d.links.Known? && Embeds(base, d, retained')) &&
      work' == work + SizeSum(ds) <= MAX_METADATA && linkBytes' == linkBytes + CostSum(ds) <= MAX_METADATA
    ensures !outcome.Finished? ==> Spent(ds, work, linkBytes)
    ensures outcome.Failed? ==> exists d :: d in ds && d.links.Broken?
    ensures retained <= retained' <= retained + Embedded(base, ds)
    ensures Enqueued(retained', pending', finished)
  {
    outcome, retained', pending', work', linkBytes' := Finished, retained, pending, work, linkBytes;
    for k := 0 to |ds|
      invariant outcome.Finished?
      invariant work' == work + SizeSum(ds[..k]) <= MAX_METADATA
      invariant linkBytes' == linkBytes + CostSum(ds[..k]) <= MAX_METADATA
      invariant forall j :: 0 <= j < k ==> ds[j].links.Known? && Embeds(base, ds[j], retained')
      invariant retained <= retained' <= retained + Embedded(base, ds)
      invariant Enqueued(retained', pending', finished)
    {
      assert ds[..k + 1][..k] == ds[..k];
      SumsPrefix(ds, k + 1);
      work' := work' + ds[k].size;
      if work' > MAX_METADATA {
        return OutOfBudget, retained', pending', work', linkBytes';
      }
      match ds[k].links {
        case Broken => return Failed, retained', pending', work', linkBytes';
        case Unknown => return OutOfBudget, retained', pending', work', linkBytes';
        case Known(urls) =>
          ghost var was := retained';
          var ok;
          ok, retained', pending', linkBytes' := Follow(base, urls, retained', pending', linkBytes', finished);
          EmbeddedHas(base, ds, k);
          if !ok {
            return OutOfBudget, retained', pending', work', linkBytes';
          }
          EmbedsOn(base, ds, k, was, retained');
      }
    }
    assert ds[..|ds|] == ds;
  }

  function Group(documents: map<string, seq<Record>>, b: string): seq<Record> {
    if b in documents then documents[b] else []
  }

  ghost predicate Grouped(base: Base, documents: map<string, seq<Record>>, records: seq<Record>, n: nat)
    requires n <= |records|
  {
    forall b :: Group(documents, b) == DocumentsAt(base, records, n, b)
  }

  /** Documents by base URL, and the pages asked for with all HTML that is no page. */
  method Prepare(base: Base, inventory: set<string>, included: seq<string>, records: seq<Record>)
    returns (retained: set<string>, documents: map<string, seq<Record>>)
    ensures retained == Seeds(base, inventory, included, records)
    ensures Grouped(base, documents, records, |records|)
  {
    retained := set u | u in included :: base(u);
    documents := map[];
    ghost var asked := retained;
    for k := 0 to |records|
      invariant retained == asked + set r | r in records[..k] && r.html && base(r.url) !in inventory :: base(r.url)
      invariant Grouped(base, documents, records, k)
    {
      var r := records[k];
      assert records[..k + 1] == records[..k] + [r];
      if r.html {
        var b := base(r.url);
        if b !in inventory {
          retained := retained + {b};
        }
        assert Group(documents, b) == DocumentsAt(base, records, k, b);
        ghost var was := documents;
        documents := documents[b := Group(documents, b) + [r]];
        forall c
          ensures Group(documents, c) == DocumentsAt(base, records, k + 1, c)
        {
          assert Group(was, c) == DocumentsAt(base, records, k, c);
        }
      } else {
        forall c
          ensures Group(documents, c) == DocumentsAt(base, records, k + 1, c)
        {
          assert Group(documents, c) == DocumentsAt(base, records, k, c);
        }
      }
    }
    assert records[..|records|] == records;
  }

  method ListOf(s: set<string>) returns (list: seq<string>)
    ensures Enqueued(s, list, {})
  {
    list := [];
    var left := s;
    while left != {}
      invariant left <= s && forall b :: b in s <==> b in left || b in list
      invariant forall j :: 0 <= j < |list| ==> list[j] !in left
      invariant forall j, k :: 0 <= j < k < |list| ==> list[j] != list[k]
      decreases |left|
    {
      var b :| b in left;
      left := left - {b};
      list := list + [b];
    }
  }

  // ---- steps of the worklist ----

  lemma {:induction false} EmbeddedNeeded(base: Base, seeds: set<string>, records: seq<Record>, b: string)
    requires b in Closure(base, seeds, records)
    ensures Embedded(base, DocumentsAt(base, records, |records|, b)) <= Closure(base, seeds, records)
  {
    ClosureIsLeast(base, seeds, records);
    var ds := DocumentsAt(base, records, |records|, b);
    forall c | c in Embedded(base, ds)
      ensures c in Closure(base, seeds, records)
    {
      var d, u :| d in ds && d.links.Known? && u in d.links.urls && base(u) == c;
      var j :| 0 <= j < |ds| && ds[j] == d;
      var k := DocumentIs(base, records, |records|, b, j);
      assert Embeds(base, records[k], Closure(base, seeds, records));
    }
  }

  /** When the documents at a needed URL exhaust the budget, the whole closure does. */
  lemma {:induction false} SpentUnaffordable(base: Base, seeds: set<string>, records: seq<Record>,
                                             finished: set<string>, b: string)
    requires b !in finished && finished + {b} <= Closure(base, seeds, records)
    requires Spent(DocumentsAt(base, records, |records|, b), SizeOver(base, records, |records|, finished),
                   CostOver(base, records, |records|, finished))
    ensures !Affordable(base, seeds, records)
  {
    var ds := DocumentsAt(base, records, |records|, b);
    SumsAdd(base, records, |records|, finished, b);
    SumsGrow(base, records, |records|, finished + {b}, Closure(base, seeds, records));
    if d :| d in ds && !d.links.Known? {
      var j :| 0 <= j < |ds| && ds[j] == d;
      var k := DocumentIs(base, records, |records|, b, j);
      assert !records[k].links.Known?;
    }
  }

  /** With the documents at one more URL done, the progress goes on. */
  lemma {:induction false} Progressed(
    base: Base, seeds: set<string>, records: seq<Record>, retained: set<string>, pending: seq<string>,
    finished: set<string>, b: string, after: set<string>, pending': seq<string>, work: nat, linkBytes: nat)
    requires b !in finished && b in retained && retained <= after <= Closure(base, seeds, records)
    requires Enqueued(after, pending', finished + {b}) && seeds <= retained
    requires forall k :: 0 <= k < |records| && records[k].html && base(records[k].url) in finished ==>
               records[k].links.Known? && Embeds(base, records[k], retained)
    requires forall d :: d in DocumentsAt(base, records, |records|, b) ==> d.links.Known? && Embeds(base, d, after)
    requires work == SizeOver(base, records, |records|, finished) + SizeSum(DocumentsAt(base, records, |records|, b)) <= MAX_METADATA
    requires linkBytes == CostOver(base, records, |records|, finished) + CostSum(DocumentsAt(base, records, |records|, b)) <= MAX_METADATA
    ensures Progress(base, seeds, records, after, pending', finished + {b}, work, linkBytes)
  {
    SumsAdd(base, records, |records|, finished, b);
    forall k | 0 <= k < |records| && records[k].html && base(records[k].url) in finished + {b}
      ensures records[k].links.Known? && Embeds(base, records[k], after)
    {
      if base(records[k].url) == b {
        DocumentAt(base, records, |records|, k);
      }
    }
  }

  lemma {:induction false} ProgressDone(base: Base, seeds: set<string>, records: seq<Record>, retained: set<string>,
                                        finished: set<string>, work: nat, linkBytes: nat)
    requires Progress(base, seeds, records, retained, [], finished, work, linkBytes)
    ensures retained == Closure(base, seeds, records) && Affordable(base, seeds, records)
  {
    assert retained == finished;
    assert Closed(base, seeds, records, retained);
    ClosureIsLeast(base, seeds, records);
  }

  /** The turn of the loop that takes one base URL off the worklist. */
  method TakeOne(base: Base, documents: map<string, seq<Record>>, retained: set<string>, pending: seq<string>,
                 work: nat, linkBytes: nat, ghost seeds: set<string>, ghost records: seq<Record>,
                 ghost finished: set<string>)
    returns (outcome: Outcome, retained': set<string>, pending': seq<string>, work': nat, linkBytes': nat,
             ghost b: string)
    requires pending != [] && Grouped(base, documents, records, |records|)
    requires Progress(base, seeds, records, retained, pending, finished, work, linkBytes)
    ensures b in Closure(base, seeds, records) && b !in finished
    ensures seeds <= retained' <= Closure(base, seeds, records)
    ensures outcome.Finished? ==> Progress(base, seeds, records, retained', pending', finished + {b}, work', linkBytes')
    ensures !outcome.Finished? ==> !Affordable(base, seeds, records)
    ensures outcome.Failed? ==>
      exists k :: 0 <= k < |records| && records[k].html && base(records[k].url) == b && records[k].links.Broken?
  {
    var url := pending[|pending| - 1];
    b := url;
    assert b in pending && b in retained && b !in finished;
    var rest := pending[..|pending| - 1];
    assert pending == rest + [b];
    Popped(retained, rest, finished, b);
    var ds := Group(documents, url);
    assert ds == DocumentsAt(base, records, |records|, b);
    EmbeddedNeeded(base, seeds, records, b);
    outcome, retained', pending', work', linkBytes' :=
      Analyse(base, ds, retained, rest, work, linkBytes, finished + {b});
    if outcome.Finished? {
      Progressed(base, seeds, records, retained, rest, finished, b, retained', pending', work', linkBytes');
    } else {
      SpentUnaffordable(base, seeds, records, finished, b);
      if outcome.Failed? {
        BrokenRecord(base, records, b, ds);
      }
    }
  }

  /** The selection is exactly the closure when that can be found within the budget, and
      otherwise holds the whole page inventory and nothing beyond the closure besides. */
  method SelectedPages(base: Base, inventory: set<string>, included: seq<string>, records: seq<Record>)
    returns (r: Result<set<string>, Error>)
    ensures included == [] ==> r == Ok(inventory)
    ensures var seeds := Seeds(base, inventory, included, records);
            var least := Closure(base, seeds, records);
            included != [] ==>
              (Affordable(base, seeds, records) ==> r == Ok(least)) &&
              (!Affordable(base, seeds, records) && r.Ok? ==>
                 inventory + seeds <= r.value <= inventory + least) &&
              (r.Err? ==> exists k :: 0 <= k < |records| && records[k].html &&
                                      base(records[k].url) in least && records[k].links.Broken?)
  {
    if included == [] {
      return Ok(inventory);
    }
    var retained, documents := Prepare(base, inventory, included, records);
    ghost var seeds := retained;
    var pending := ListOf(retained);
    var work: nat, linkBytes: nat := 0, 0;
    ghost var finished: set<string> := {};
    NoSums(base, records, |records|);
    ClosureIsLeast(base, seeds, records);
    while pending != []
      invariant Progress(base, seeds, records, retained, pending, finished, work, linkBytes)
      decreases Closure(base, seeds, records) - finished
    {
      var outcome;
      ghost var b;
      outcome, retained, pending, work, linkBytes, b :=
        TakeOne(base, documents, retained, pending, work, linkBytes, seeds, records, finished);
      if outcome.Failed? {
        return Err(Unreadable);
      }
      if outcome.OutOfBudget? {
        return Ok(retained + inventory);
      }
      finished := finished + {b};
    }
    ProgressDone(base, seeds, records, retained, finished, work, linkBytes);
    return Ok(retained);
  }

  lemma {:induction false} Popped(retained: set<string>, pending: seq<string>, finished: set<string>, b: string)
    requires Enqueued(retained, pending + [b], finished)
    ensures Enqueued(retained, pending, finished + {b})
  {
    var all := pending + [b];
    assert forall j :: 0 <= j < |pending| ==> all[j] == pending[j];
    assert all[|pending|] == b;
    assert forall c :: c in all <==> c in pending || c == b;
  }

  lemma {:induction false} BrokenRecord(base: Base, records: seq<Record>, b: string, ds: seq<Record>)
    requires ds == DocumentsAt(base, records, |records|, b) && exists d :: d in ds && d.links.Broken?
    ensures exists k :: 0 <= k < |records| && records[k].html && base(records[k].url) == b && records[k].links.Broken?
  {
    var d :| d in ds && d.links.Broken?;
    var j :| 0 <= j < |ds| && ds[j] == d;
    var k := DocumentIs(base, records, |records|, b, j);
  }

  // ---- why a page is kept ----

  /** Asked for, or the URL of HTML that is no page. */
  ghost predicate Wanted(base: Base, inventory: set<string>, included: seq<string>, records: seq<Record>, b: string) {
    (exists i :: 0 <= i < |included| && base(included[i]) == b) ||
    (b !in inventory && exists k :: 0 <= k < |records| && records[k].html && base(records[k].url) == b)
  }

  /** An HTML document at the one URL embeds the other. */
  ghost predicate Leads(base: Base, records: seq<Record>, from: string, b: string) {
    exists k, j :: 0 <= k < |records| && records[k].html && base(records[k].url) == from && records[k].links.Known? &&
                   0 <= j < |records[k].links.urls| && base(records[k].links.urls[j]) == b
  }

  /** A way to a URL: from one that is wanted, each embedding the next. */
  ghost predicate Trail(base: Base, inventory: set<string>, included: seq<string>, records: seq<Record>, way: seq<string>) {
    way != [] && Wanted(base, inventory, included, records, way[0]) &&
    forall i :: 0 <= i < |way| - 1 ==> Leads(base, records, way[i], way[i + 1])
  }

  ghost predicate Reached(base: Base, inventory: set<string>, included: seq<string>, records: seq<Record>, b: string) {
    exists way :: Trail(base, inventory, included, records, way) && way[|way| - 1] == b
  }

  lemma {:induction false} TrailKept(base: Base, inventory: set<string>, included: seq<string>, records: seq<Record>,
                                     way: seq<string>)
    requires Trail(base, inventory, included, records, way)
    ensures way[|way| - 1] in Closure(base, Seeds(base, inventory, included, records), records)
    decreases |way|
  {
    var seeds := Seeds(base, inventory, included, records);
    ClosureIsLeast(base, seeds, records);
    if |way| == 1 {
      assert way[0] in seeds;
    } else {
      TrailKept(base, inventory, included, records, way[..|way| - 1]);
      assert Leads(base, records, way[|way| - 2], way[|way| - 1]);
    }
  }

  lemma {:induction false} TrailOn(base: Base, inventory: set<string>, included: seq<string>, records: seq<Record>,
                                   from: string, b: string)
    requires Reached(base, inventory, included, records, from) && Leads(base, records, from, b)
    ensures Reached(base, inventory, included, records, b)
  {
    var way :| Trail(base, inventory, included, records, way) && way[|way| - 1] == from;
    var on := way + [b];
    assert forall i :: 0 <= i < |way| ==> on[i] == way[i];
    assert Trail(base, inventory, included, records, on) && on[|on| - 1] == b;
  }

  /** A URL is kept exactly when there is a way to it. */
  lemma {:induction false} ClosureMeans(base: Base, inventory: set<string>, included: seq<string>, records: seq<Record>,
                                        b: string)
    ensures b in Closure(base, Seeds(base, inventory, included, records), records) <==>
            Reached(base, inventory, included, records, b)
  {
    var seeds := Seeds(base, inventory, included, records);
    var reached := set c | c in Universe(base, seeds, records) && Reached(base, inventory, included, records, c);
    forall c | c in seeds
      ensures c in reached
    {
      assert Trail(base, inventory, included, records, [c]);
    }
    forall k | 0 <= k < |records| && records[k].html && base(records[k].url) in reached && records[k].links.Known?
      ensures Embeds(base, records[k], reached)
    {
      forall u | u in records[k].links.urls
        ensures base(u) in reached
      {
        assert Leads(base, records, base(records[k].url), base(u));
        TrailOn(base, inventory, included, records, base(records[k].url), base(u));
      }
    }
    assert Closed(base, seeds, records, reached);
    if way :| Trail(base, inventory, included, records, way) && way[|way| - 1] == b {
      TrailKept(base, inventory, included, records, way);
    }
  }
}
