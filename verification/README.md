# Verified models of the archive engine, the ISO queue and the catalogue

Dafny models of four parts of the repository, with proofs of what each of them is for.
`dafny verify dfyconfig.toml` checks the whole project.

**The WACZ archive engine** reads, deduplicates, rehydrates, repairs and exports web archives.

- `Digest`: normalization of SHA-256 spellings (section 6 of RFC 4648).
- `Archives`, `LocalRevisits`, `Rehydration`, `ArchiveEngine`: the record inventory and its lookup,
  resolution of `revisit` records to a fixed point, hydration, and deduplication against authorized
  archives. `ArchiveEngine` is the program's record list, rewritten in place; the other modules say
  what the rewriting computes.
- `Rewriting`, `RoundTrip`, `RoundTripRefusals`: writing a record and scanning it again, exactly when
  deduplicating and materializing succeed and that they then give everything back, and archives
  for which they do not.
- `Dependencies`: admission of authorized inputs and the depth-first check of their graph.
- `Selectors`, `PreviewPaths`, `PreviewSelectors`, `DomRemoval`: the CSS subset, the selectors a
  preview writes on elements, and removal of matched nodes.
- `SelectorTexts`, `SelectorReading`, `SelectorGrammar`, `SelectorMeaning`, `RuleRemoval`: the grammar of
  rules and what they mean for elements and their attributes, told without the reader and the search; that
  the reader accepts this grammar and nothing else, and that removal takes out what the texts name.
- `ArchiveIndex`, `IndexMeaning`, `IndexRoundTrip`: the CDXJ index as the writer emits and the reader checks
  it, and what makes a text an index.
- `Chunked`, `ChunkedMeaning`, `ChunkedAgree`, `ChunkedRefusal`: the two decoders of chunked bodies
  (section 7.1 of RFC 9112), and what such a body is.
- `ZipDirectory`, `ZipPreflight`: the preflight of ZIP metadata (PKWARE APPNOTE 6.3.10).
- `ZipFields`, `ZipWriter`, `ZipNames`, `ZipMembers`, `ZipRoundTrip`: a writer of ZIP files, field by field,
  and exactly which of its files the preflight accepts.
- `Storage`: apportioning of gzip spans to records, and the storage report.
- `PageClosure`, `RepairPages`: page selection for exports, and page rows of repairs.

**The ISO queue** lets several workers import DVD images through one durable queue. `IsoQueue` has its
transactions, `IsoRuns` the runs of any number of workers with crashes and lost locks,
`IsoConservation`, `IsoCache` and `IsoRetries` what those runs keep.

**The catalogue** of jobs and published archives: `Catalog` has its transactions, `CatalogRuns` the runs
of users and one worker that may crash at any point.

**The converter's natural ordering** of file names is in `NaturalOrder`.

`Wrappers`, `Characters`, `Decimals` and `Radix` hold what these share.

## How the program appears here

Where the program rewrites state step by step, so does the model: `ArchiveEngine.Archive`,
`IsoQueue.Queue`, `Catalog.Database` and `ZipPreflight.Input` are classes whose methods run the program's
statements, and its algorithms are loops with invariants. Each such method is proved to compute a
function of its inputs and the old state, and the properties are proved of those functions. A few loops
are functions outright: grouping and counting of page rows in `RepairPages`, attribute tests and child
indices in `Selectors`, the two stack walks that annotate a preview, and detaching in `DomRemoval`.
Concurrent behaviour is a step relation over such functions, with properties proved over all runs.

Outside libraries appear as functions of which only stated laws are known: SHA-256 is injective, equal
hashes of authorized files mean the same file, decoding inverts encoding for index rows, an HTTP head is
read as it was written whatever body follows, a chunked body is longer than its entity and does not look
like an HTTP response, UTF-8 decoding is compatible with concatenation and the identity on ASCII. A gzip
decoder is a function from an offset to the bytes it takes and the records it finds.

Some properties hold only under a condition, which is then proved exact:

- Deduplicating and materializing again gives every record back exactly when record ids are unique,
  some record matches, every kept record can be written and scanned (a readable header, a body of the
  recorded length and, for a response with a body, an HTTP head with no transfer coding or `chunked`,
  under which its digest fits), every target has an id and a date, and every converted record comes
  back: its input is authorized only once and has no second record that fits, there is an HTTP head
  for its body, again with no coding or `chunked`, its header is readable, and the search for all
  targets stays within the work limit. The coding matters because that of a revisit is not looked at
  when it is scanned, and an empty `Transfer-Encoding` header matches captures without one.
- A record resolved inside its archive fits its digest under its own head exactly when that announces
  the transfer coding of the capture its chain ends at.
- A written index is accepted exactly when no lookup key has whitespace or an opening brace (as that of a URL
  with `{` in its query), every digest in a recognized notation can be normalized, and there is at least
  one row and no more than 50,000. The writer only gets records of archives that were read, so their
  keys never have this fault, and its callers refuse empty selections: what it writes from one to 50,000
  such records is always accepted.
- A ZIP file that is correctly written is accepted exactly when its members keep the stated rules and
  limits, its end says one disk, and no four bytes from the directory on happen to read as an end
  signature, as a checksum or a comment may.
- A selector rule is accepted exactly when the grammar writes it and it has no more than sixteen parts in
  an alternative and thirty-two alternatives in all.
- The in-memory chunk decoder refuses what the scanner accepted exactly when some size field is
  padded with whitespace, or the body is longer than 32 MiB.
- Natural ordering is a total preorder on strings whose digit runs have no leading zeros and fit in 128
  bits, and every other string breaks it.
- A preview selector is accepted and names its element exactly when it is a unique id, or a path of at
  most sixteen elements all of whose tags are plain identifiers and that no deeper element repeats at
  the end of its own path, as an `html` element inside an `svg` repeats that of the root.
- The failures charged to a file that stays as it is are what its queue entry shows exactly when no
  failed look at the file was taken for a change.

Each of these has an input on its failing side, or a family of them.

## Model

| member | source | states |
|---|---|---|
| `Digest.NormalizeExact` | custom_apps/rust/apps/browsertrix-downloader/archive_engine/read.rs:254-292 | A text normalizes to the canonical name of a 32-byte digest if and only if it spells that digest: `sha256:` in any case, then hexadecimal in any case or Base32 in any case with any trailing padding |
| `Digest.NormalizeNamesOneDigest` | custom_apps/rust/apps/browsertrix-downloader/archive_engine/read.rs:254-292 | Every accepted text names exactly one digest, so spellings of different digests never normalize to the same string |
| `Digest.SpellingDecodes` | custom_apps/rust/apps/browsertrix-downloader/archive_engine/read.rs:254-292 | The Base32 spelling of a digest has four zero bits left over and decodes to that digest |
| `Digest.DecodedIsSpelling` | custom_apps/rust/apps/browsertrix-downloader/archive_engine/read.rs:254-292 | A 52-symbol text without stray low bits is the Base32 spelling of the bytes it decodes to |
| `Digest.TakeAndGive` | custom_apps/rust/apps/browsertrix-downloader/archive_engine/read.rs:254-292 | Taking in one symbol keeps the accumulator below two to the number of pending bits, and bytes and accumulator together hold the number read so far |
| `Digest.DecodeBase32` | custom_apps/rust/apps/browsertrix-downloader/archive_engine/read.rs:254-292 | The accumulator loop computes the bytes of the whole 260-bit number, and refuses foreign symbols and nonzero leftover bits |
| `Digest.NormalizeSha256` | custom_apps/rust/apps/browsertrix-downloader/archive_engine/read.rs:254-292 | The program's normalization is the positional one of which the exactness is proved |
| `Archives.NewLookup` | custom_apps/rust/apps/browsertrix-downloader/archive_engine/read.rs:798-819 | The two lookup tables hold, for every id and every URL with date, the positions of the records that have it, in order |
| `Archives.Find` | custom_apps/rust/apps/browsertrix-downloader/archive_engine/read.rs:820-852 | Lookup yields a record exactly when it is the one record of that id (or of that URL and date) whose headers and digests are those the revisit states, charges one unit of work per record examined, or fails |
| `Archives.OnlyMatch` | custom_apps/rust/apps/browsertrix-downloader/archive_engine/read.rs:837-852 | The search stops at a second match and otherwise yields the only one |
| `Archives.MatchMeans` | custom_apps/rust/apps/browsertrix-downloader/archive_engine/read.rs:853-887 | What a match is, header field by header field: the id, URL and date stated, a stated digest as text or as the same SHA-256, the bound location, and the transfer coding of a revisit that has an HTTP head |
| `Archives.TargetMeans` | custom_apps/rust/apps/browsertrix-downloader/archive_engine/read.rs:820-852 | A revisit has a target exactly when one record and no other of its id, or its URL and date, agrees with all it states |
| `LocalRevisits.SoundStep` | custom_apps/rust/apps/browsertrix-downloader/archive_engine/read.rs:599-642 | Filling one revisit from a resolved match keeps every resolved record explained by a chain of matching links |
| `LocalRevisits.QuietIsResolution` | custom_apps/rust/apps/browsertrix-downloader/archive_engine/read.rs:599-642 | When a round changes nothing, a revisit is resolved exactly when a chain of matching links leads from it to a record with its own payload (unique ids, links by record id) |
| `LocalRevisits.ChainUnique` | custom_apps/rust/apps/browsertrix-downloader/archive_engine/read.rs:599-642 | With unique ids a chain is determined by where it starts |
| `LocalRevisits.ResolutionIsAlong` | custom_apps/rust/apps/browsertrix-downloader/archive_engine/read.rs:599-642 | A resolved record carries exactly what its one chain carries |
| `LocalRevisits.ClosedSetUnresolved` | custom_apps/rust/apps/browsertrix-downloader/archive_engine/read.rs:599-642 | A cycle of revisits, or any set of them whose links stay inside it, remains as it was |
| `LocalRevisits.OrderIndependent` | custom_apps/rust/apps/browsertrix-downloader/archive_engine/read.rs:599-642 | A settled result does not depend on the order of the records |
| `LocalRevisits.OnlyLongChains` | custom_apps/rust/apps/browsertrix-downloader/archive_engine/read.rs:599-642 | Whether or not the rounds settle, a record can come out differently under another order only if its chain is longer than what both runs have reached |
| `LocalRevisits.WaitingStep` | custom_apps/rust/apps/browsertrix-downloader/archive_engine/read.rs:599-642 | Every resolution shrinks the set of waiting revisits by one |
| `LocalRevisits.SoundMeans` | custom_apps/rust/apps/browsertrix-downloader/archive_engine/read.rs:599-642 | A revisit that was resolved carries the body, length and digest of a record with the id, URL, date and digest it states, and its own type and status unless it has none; every other record is as it was |
| `LocalRevisits.QuietMeans` | custom_apps/rust/apps/browsertrix-downloader/archive_engine/read.rs:599-642 | When nothing more happens, every waiting revisit that exactly one resolved record agrees with has taken that record over |
| `ArchiveEngine.Archive.Attempt` | custom_apps/rust/apps/browsertrix-downloader/archive_engine/read.rs:606-630 | One attempt leaves the records sound, resolves a revisit or leaves everything as it was with that revisit settled, and costs at most one unit with unique ids |
| `ArchiveEngine.Archive.Round` | custom_apps/rust/apps/browsertrix-downloader/archive_engine/read.rs:604-636 | A round that reports nothing pending has changed nothing and found every record settled; any other has shrunk the waiting set |
| `ArchiveEngine.Archive.ResolveLocal` | custom_apps/rust/apps/browsertrix-downloader/archive_engine/read.rs:599-642 | What is resolved is what its revisit states, field by field; the loop ends with the exact resolution, or after 64 rounds each of which resolved something; either way every record with a chain of at most 65 records is resolved; it stays within the work limit when ids are unique and the archive is small enough |
| `ArchiveEngine.Archive.Hydrate` | custom_apps/rust/apps/browsertrix-downloader/archive_engine/transform.rs:286-365 | The in-place loop fails with the first error, or leaves every response as it was and gives every revisit the payload, status and type of the one record that all inputs with the bound hash offer |
| `ArchiveEngine.HydrateOne` | custom_apps/rust/apps/browsertrix-downloader/archive_engine/transform.rs:286-365 | One record: segmented ones are refused, responses kept, revisits turned into responses with the payload of their one candidate |
| `ArchiveEngine.FindCandidates` | custom_apps/rust/apps/browsertrix-downloader/archive_engine/transform.rs:310-335 | The candidates are the matching capture of every input not ruled out by its bound hash, under the shared work limit |
| `ArchiveEngine.Archive.Deduplicate` | custom_apps/rust/apps/browsertrix-downloader/archive_engine/transform.rs:366-449 | The in-place loop converts exactly the responses whose digest, type and transfer coding some input offers, binds each to the first record that does, returns exactly the inputs used with their hashes, and reports no savings if and only if nothing is shared |
| `ArchiveEngine.PayloadMap` | custom_apps/rust/apps/browsertrix-downloader/archive_engine/transform.rs:372-395 | The payload table maps each digest, type and transfer coding to the first capture that offers it |
| `ArchiveEngine.ConvertOne` | custom_apps/rust/apps/browsertrix-downloader/archive_engine/transform.rs:396-449 | One record is converted to a revisit bound to its target's input, file and location, or kept |
| `Rehydration.HydratedMean` | custom_apps/rust/apps/browsertrix-downloader/archive_engine/transform.rs:286-365 | Hydration, told without its search: a revisit becomes a response with the body of a record that states the same, and no other in the inputs does |
| `Rehydration.DedupedMean` | custom_apps/rust/apps/browsertrix-downloader/archive_engine/transform.rs:366-449 | Deduplication, told without its tables: a response becomes a revisit of the first record, in the order of inputs and records, with the same digest, type and transfer coding, and otherwise stays |
| `Rewriting.ScannedIs` | custom_apps/rust/apps/browsertrix-downloader/archive_engine/streaming.rs:491-612 | Whatever the scanner accepts has a stored body; a response with a body has an HTTP head, and every digest but a revisit's is that of the decoded body |
| `Rewriting.ScanMeans` | custom_apps/rust/apps/browsertrix-downloader/archive_engine/streaming.rs:491-612 | The scanner accepts a block exactly when it is an HTTP head and a body (a body alone unless it is a response or revisit), the coding is supported, and both stated digests agree; and then status, type, length and digest are those of these parts |
| `Rewriting.HeadlessRefused` | custom_apps/rust/apps/browsertrix-downloader/archive_engine/streaming.rs:531-597 | A response written without an HTTP head is refused as soon as it has a body, whatever the body is |
| `Rewriting.HeadedChecked` | custom_apps/rust/apps/browsertrix-downloader/archive_engine/streaming.rs:531-612 | A response written with its HTTP head is read back as it was, if and only if the head has no transfer coding or `chunked`, and the digest is that of the body decoded under it |
| `Rewriting.LoadedIs` | custom_apps/rust/apps/browsertrix-downloader/archive_engine/read.rs:599-642 | After scanning and local resolution every resolved record has a body that its digest fits under some transfer coding, and every other record is as scanned |
| `Rewriting.ChainFixity` | custom_apps/rust/apps/browsertrix-downloader/archive_engine/read.rs:599-642 | A record resolved inside the archive fits its digest under its own head if and only if that announces the very transfer coding of the capture its chain ends at; an empty header is not an absent one |
| `Rewriting.HydratedRecord` | custom_apps/rust/apps/browsertrix-downloader/archive_engine/transform.rs:286-365 | Hydration of what was loaded leaves no revisit and no segmented record, and every digest true of the body under some coding |
| `RoundTrip.HydratedSetting` | custom_apps/rust/apps/browsertrix-downloader/archive_engine/transform.rs:286-365 | Every loaded and hydrated archive is one from which the round trip may start |
| `RoundTrip.KeptExact` | custom_apps/rust/apps/browsertrix-downloader/archive_engine/transform.rs:702-765 | A record that is kept is written and read back as it was, if and only if its header can be read again, a body from elsewhere has the recorded length, and a response has either no body or an HTTP head with no transfer coding or `chunked` under which its digest fits |
| `RoundTrip.BoundTarget` | custom_apps/rust/apps/browsertrix-downloader/archive_engine/read.rs:853-887 | The revisit the writer emits, read back, is bound to the target's input, names the target by id and fits it |
| `RoundTrip.TargetFound` | custom_apps/rust/apps/browsertrix-downloader/archive_engine/read.rs:820-852 | Lookup finds that target if and only if no other record of its id fits the revisit as well |
| `RoundTrip.CandidatesAre` | custom_apps/rust/apps/browsertrix-downloader/archive_engine/transform.rs:310-335 | Hydration finds it once in every authorized input that shares the bound hash, at the cost of the records that share its id |
| `RoundTrip.RestoredExact` | custom_apps/rust/apps/browsertrix-downloader/archive_engine/transform.rs:335-365 | A converted record, hydrated from its target, is written and read back as the record it was, if and only if it or its target has an HTTP head, that announces no transfer coding but `chunked`, and its header can be read again |
| `RoundTrip.DeduplicateExact` | custom_apps/rust/apps/browsertrix-downloader/archive_engine/transform.rs:366-449 | Deduplication yields an archive that loads if and only if record ids are unique, something can be converted, every kept record can be written and read back, and every converted record has a target with id and date |
| `RoundTrip.MaterializeExact` | custom_apps/rust/apps/browsertrix-downloader/archive_engine/transform.rs:286-365 | Materializing that archive succeeds if and only if every converted record can be brought back and finding their targets is within the work limit |
| `RoundTrip.DeduplicateThenMaterialize` | custom_apps/rust/apps/browsertrix-downloader/archive_engine/transform.rs:286-449 | Both together succeed if and only if these conditions hold, and then give every record back with its kind, identity, headers, HTTP head and decoded entity |
| `RoundTrip.UniqueIdsSuffice` | custom_apps/rust/apps/browsertrix-downloader/archive_engine/transform.rs:310-343 | When no input repeats a record id, every target can be found and the work limit is never reached |
| `RoundTrip.BoundRevisitsWait` | custom_apps/rust/apps/browsertrix-downloader/archive_engine/read.rs:599-642 | Local resolution leaves revisits bound to a dependency archive to hydration |
| `RoundTripRefusals.HeadlessKept` | custom_apps/rust/apps/browsertrix-downloader/archive_engine/transform.rs:344-359 | An archive that scans, resolves and hydrates, and is refused when deduplicated: a revisit without an HTTP head has become a response that nothing matches |
| `RoundTripRefusals.EmptyCodingKept` | custom_apps/rust/apps/browsertrix-downloader/archive_engine/streaming.rs:669-672 | An archive refused in the same way: the revisit has an HTTP head with an empty `Transfer-Encoding`, which nobody reads until the revisit has become a response |
| `RoundTripRefusals.EmptyCodingConverted` | custom_apps/rust/apps/browsertrix-downloader/archive_engine/streaming.rs:669-672 | A deduplicated archive that can not be materialized, for the same reason |
| `RoundTripRefusals.AuthorizedTwice` | custom_apps/rust/apps/browsertrix-downloader/archive_engine/transform.rs:310-343 | A deduplicated archive that can not be materialized: one file is authorized under two ids |
| `RoundTripRefusals.TargetTwice` | custom_apps/rust/apps/browsertrix-downloader/archive_engine/read.rs:837-852 | Another: the input holds two records of the target's id |
| `RoundTripRefusals.CodingLost` | custom_apps/rust/apps/browsertrix-downloader/archive_engine/read.rs:599-642 | A revisit without an HTTP head that repeats a transfer-coded capture: its digest does not fit under its own head |
| `Dependencies.Visit` | custom_apps/rust/apps/browsertrix-downloader/archive_engine/transform.rs:243-284 | The active/done search succeeds only with everything it met finished, well bound and off every cycle, restores the active set, and explains every failure; it terminates by inputs not yet active |
| `Dependencies.VisitDependency` | custom_apps/rust/apps/browsertrix-downloader/archive_engine/transform.rs:250-278 | One dependency: missing binding, missing input, wrong hash, active (a cycle), done, or visited |
| `Dependencies.ClosesCycle` | custom_apps/rust/apps/browsertrix-downloader/archive_engine/transform.rs:264-268 | Meeting an active archive again is a cycle through it |
| `Dependencies.NoCycleOnto` | custom_apps/rust/apps/browsertrix-downloader/archive_engine/transform.rs:270-278 | An archive all of whose dependencies are finished lies on no cycle |
| `Dependencies.Admit` | custom_apps/rust/apps/browsertrix-downloader/archive_engine/transform.rs:208-242 | Inputs are admitted exactly when they are at most sixteen, well named, distinct, loadable, unchanged and within the memory budget |
| `Dependencies.GenuineMeans` | custom_apps/rust/apps/browsertrix-downloader/archive_engine/read.rs:189-195 | An input is genuine when its name is one to 256 printable characters that are no path and no part of a URL, and its file has the authorized hash, in any case of its digits |
| `Dependencies.DependenciesFor` | custom_apps/rust/apps/browsertrix-downloader/archive_engine/transform.rs:208-285 | The check is exact: it accepts if and only if the inputs are admissible, every dependency of the source and of each input lands on an authorized input under the bound hash, and the graph is acyclic |
| `Dependencies.DerivedAccepted` | custom_apps/rust/apps/browsertrix-downloader/archive_engine/transform.rs:202-285 | A deduplicated archive is accepted with the inputs its source was checked against |
| `Selectors.ReadIdentifier` | custom_apps/rust/apps/browsertrix-downloader/archive_engine/selectors.rs:18-29 | The cursor loop reads the longest run of identifier characters and refuses an empty one |
| `Selectors.ReadCompound` | custom_apps/rust/apps/browsertrix-downloader/archive_engine/selectors.rs:30-117 | The cursor loop reads a compound as its grammar says: tag, id, classes, attribute tests, one child index |
| `Selectors.ReadRules` | custom_apps/rust/apps/browsertrix-downloader/archive_engine/selectors.rs:118-191 | Rules are read one after another under the limits on their number, length and compounds |
| `Selectors.ReadRule` | custom_apps/rust/apps/browsertrix-downloader/archive_engine/selectors.rs:126-190 | The scanner over brackets, quotes, commas, spaces and child combinators splits a rule as specified |
| `SelectorReading.PartReads` | custom_apps/rust/apps/browsertrix-downloader/archive_engine/selectors.rs:30-117 | Every compound the grammar writes, with any spelling, blanks and quotes, is read as its tests |
| `SelectorReading.RuleReads` | custom_apps/rust/apps/browsertrix-downloader/archive_engine/selectors.rs:126-190 | Every rule the grammar writes is read as its alternatives, or refused when there are more than sixteen parts or thirty-two alternatives |
| `SelectorGrammar.RuleAccepted` | custom_apps/rust/apps/browsertrix-downloader/archive_engine/selectors.rs:1-190 | Unsupported selectors are rejected, never approximated: a rule is accepted if and only if the grammar writes it, within the limits |
| `RuleRemoval.RulesAccepted` | custom_apps/rust/apps/browsertrix-downloader/archive_engine/selectors.rs:118-191 | The same for a list of rules, whose alternatives count together |
| `RuleRemoval.RulesRead` | custom_apps/rust/apps/browsertrix-downloader/archive_engine/selectors.rs:118-191 | Several rules are read one after the other as all their alternatives |
| `Selectors.MatchesAt` | custom_apps/rust/apps/browsertrix-downloader/archive_engine/selectors.rs:234-261 | The budgeted search that answers at all answers what the rule means, ancestors and child steps included; rules of child steps only never need more budget than compounds |
| `Selectors.OrdinalInjective` | custom_apps/rust/apps/browsertrix-downloader/archive_engine/selectors.rs:192-233 | Among element siblings the child index determines the child |
| `SelectorMeaning.WordsMean` | custom_apps/rust/apps/browsertrix-downloader/archive_engine/selectors.rs:204-211 | A class is one of the words that stand between white space in the attribute |
| `SelectorMeaning.AttrMeans` | custom_apps/rust/apps/browsertrix-downloader/archive_engine/selectors.rs:212-217 | An attribute is the first of its name, whatever the case of the name |
| `SelectorMeaning.NthMeans` | custom_apps/rust/apps/browsertrix-downloader/archive_engine/selectors.rs:218-231 | A child index counts the element siblings before |
| `SelectorMeaning.PartMeans` | custom_apps/rust/apps/browsertrix-downloader/archive_engine/selectors.rs:192-233 | A compound read from a text matches exactly the elements with the tag, classes, id, attributes and values that the text names; of several child indices in one compound the last alone counts |
| `SelectorMeaning.ChainMeans` | custom_apps/rust/apps/browsertrix-downloader/archive_engine/selectors.rs:234-261 | A rule matches exactly the elements that have ancestors, in order, for all its parts, a parent where it says child |
| `PreviewSelectors.PreviewSelectorExact` | custom_apps/rust/apps/browsertrix-downloader/archive_engine/views.rs:94-144 | On any page, the selector written on an element, when it is no longer than the bridge allows, is accepted and names that element and no other, if and only if it is a unique id, or a path of at most sixteen elements whose tags, on this path, are plain identifiers, and that no deeper element repeats at the end of its own path |
| `PreviewSelectors.UnreadableMisses` | custom_apps/rust/apps/browsertrix-downloader/archive_engine/selectors.rs:118-191 | A path with any other tag on it is refused, or read as rules that do not name the element |
| `PreviewSelectors.RootTagOnce` | custom_apps/rust/apps/browsertrix-downloader/archive_engine/selectors.rs:192-261 | On a page whose root tag occurs nowhere else, no path is repeated |
| `PreviewSelectors.NestedRoot` | custom_apps/rust/apps/browsertrix-downloader/archive_engine/selectors.rs:192-261 | On a page with an `html` element inside an `svg`, the path of the root element names both |
| `PreviewSelectors.ColonTag` | custom_apps/rust/apps/browsertrix-downloader/archive_engine/selectors.rs:30-117 | The path of an `o:p` element is refused |
| `PreviewSelectors.DottedTag` | custom_apps/rust/apps/browsertrix-downloader/archive_engine/selectors.rs:30-117 | The path of an `a.b` element is accepted and does not match it |
| `PreviewPaths.ReadPath` | custom_apps/rust/apps/browsertrix-downloader/archive_engine/views.rs:94-144 | A path of plain tags is read back as exactly its compounds if and only if there are at most sixteen |
| `PreviewPaths.PathMatches` | custom_apps/rust/apps/browsertrix-downloader/archive_engine/selectors.rs:192-261 | The compounds of the path to an element match exactly the elements whose own path ends with its tags and ordinals |
| `PreviewPaths.ReadSegment` | custom_apps/rust/apps/browsertrix-downloader/archive_engine/views.rs:120-140 | A tag with a child index is read back as that compound |
| `PreviewPaths.CountedOnce` | custom_apps/rust/apps/browsertrix-downloader/archive_engine/views.rs:76-93 | An id counted once is carried by one element |
| `PreviewPaths.ReadId` | custom_apps/rust/apps/browsertrix-downloader/archive_engine/views.rs:293-299 | A simple identifier after a number sign is read back as an id test and nothing more |
| `DomRemoval.FindTargets` | custom_apps/rust/apps/browsertrix-downloader/archive_engine/selectors.rs:262-275 | The stack search visits every node and collects exactly the nodes some rule matches; with child-only rules it succeeds whenever compounds times nodes stay within the budget |
| `DomRemoval.Remove` | custom_apps/rust/apps/browsertrix-downloader/archive_engine/selectors.rs:262-284 | Removal returns the document without the targets, or the error of the search, which child-only rules within the budget never have |
| `DomRemoval.RemoveNamed` | custom_apps/rust/apps/browsertrix-downloader/archive_engine/selectors.rs:262-284 | With a rule that names one node exactly, as a preview selector does, on a document of at most a sixteenth of the budget, removal succeeds and returns the document without that node |
| `DomRemoval.NamedNodeRemoved` | custom_apps/rust/apps/browsertrix-downloader/archive_engine/selectors.rs:262-284 | A rule that names one node exactly removes that node and leaves every other in place |
| `RuleRemoval.RemoveByRules` | custom_apps/rust/apps/browsertrix-downloader/archive_engine/selectors.rs:262-284 | From rule texts to the document: exactly the elements that the texts name go, with what lies under them; every other node stays, in its order and at its depth |
| `RuleRemoval.PrunedKeeps` | custom_apps/rust/apps/browsertrix-downloader/archive_engine/selectors.rs:276-284 | Listed with depths, the document after removal is the document before without what lies at or under a target |
| `RuleRemoval.OutlineDetermines` | custom_apps/rust/apps/browsertrix-downloader/archive_engine/selectors.rs:276-284 | Such a listing determines the document |
| `RuleRemoval.OneTestMeans` | custom_apps/rust/apps/browsertrix-downloader/archive_engine/selectors.rs:204-217 | The rules `.name`, `#name`, `[name]`, `[name=value]` and `[name="value"]` name the elements with that class word, id, attribute or value |
| `RuleRemoval.BelowMeans` | custom_apps/rust/apps/browsertrix-downloader/archive_engine/selectors.rs:234-261 | The rule `a b` names the elements that `b` names below one that `a` names |
| `ArchiveIndex.Locations` | custom_apps/rust/apps/browsertrix-downloader/archive_engine/read.rs:347-357 | The table of record places holds, for each member, offset, length and URL, the records found there |
| `ArchiveIndex.Identify` | custom_apps/rust/apps/browsertrix-downloader/archive_engine/read.rs:486-506 | A row stands for the one record at its place whose capture time it names, or is refused |
| `ArchiveIndex.AcceptRow` | custom_apps/rust/apps/browsertrix-downloader/archive_engine/read.rs:474-532 | A row is accepted when it does not fall behind the one before, names one record not named before, and its digest agrees |
| `ArchiveIndex.ValidateIndex` | custom_apps/rust/apps/browsertrix-downloader/archive_engine/read.rs:446-557 | The reader's loop computes the reading of an index: every record's key and row, or a refusal |
| `IndexMeaning.IndexMeans` | custom_apps/rust/apps/browsertrix-downloader/archive_engine/read.rs:446-557 | An index is accepted exactly when it is at most 32 MiB and its lines say, in order, one row for each of the records to be indexed, none twice, each with the key of its URL, its time, its place and its digest; the rows are then these |
| `ArchiveIndex.WriteArchiveIndex` | custom_apps/rust/apps/browsertrix-downloader/archive_engine/transform.rs:800-985 | The writer's loop lays records out one after another and emits the sorted index lines, or refuses an output over its limits |
| `ArchiveIndex.SortSorted` | custom_apps/rust/apps/browsertrix-downloader/archive_engine/transform.rs:978-979 | Sorting yields the lines in order |
| `IndexRoundTrip.IndexAccepted` | custom_apps/rust/apps/browsertrix-downloader/archive_engine/transform.rs:844-971 | The reader accepts what the writer writes, and gives each record its key and row back, if and only if every key is one word without an opening brace, every digest can be read, and there is at least one row and no more than 50,000 |
| `IndexRoundTrip.ReadThenWritten` | custom_apps/rust/apps/browsertrix-downloader/archive_engine/transform.rs:844-979 | Records read from accepted indexes, of any archives, are always indexed in a way that is accepted again and gives every record its key and row back, as long as there are one to 50,000 of them and the index is within the size limits |
| `IndexRoundTrip.ReadKeysChecked` | custom_apps/rust/apps/browsertrix-downloader/archive_engine/read.rs:463-479 | Whatever an accepted index holds, each key is clean and is the one that the URL of the record and its request lead to |
| `IndexRoundTrip.BraceInKey` | custom_apps/rust/apps/browsertrix-downloader/archive_engine/read.rs:455-462 | The row of a page at `http://a/?{b}`, whose key keeps the braces of the query, is refused: an archive that holds it cannot be read |
| `IndexRoundTrip.NoRowsRefused` | custom_apps/rust/apps/browsertrix-downloader/archive_engine/read.rs:554-556 | The index of no records is refused |
| `IndexRoundTrip.RecordsTile` | custom_apps/rust/apps/browsertrix-downloader/archive_engine/transform.rs:844-860 | The written records tile the output file from its start without gap or overlap |
| `IndexRoundTrip.LinesSortKeys` | custom_apps/rust/apps/browsertrix-downloader/archive_engine/read.rs:480-485 | Sorting whole lines sorts lookup keys with timestamps |
| `IndexRoundTrip.FindWritten` | custom_apps/rust/apps/browsertrix-downloader/archive_engine/read.rs:486-506 | A written row leads the reader to the record it was written for |
| `IndexRoundTrip.ParseUnclean` | custom_apps/rust/apps/browsertrix-downloader/archive_engine/read.rs:455-479 | A row whose key is not clean is refused, whatever line breaks the key contains |
| `IndexRoundTrip.AcceptedKeysClean` | custom_apps/rust/apps/browsertrix-downloader/archive_engine/read.rs:446-541 | Every key that comes from an accepted index is clean, so what was read can be written and read again |
| `Chunked.EntityHash` | custom_apps/rust/apps/browsertrix-downloader/archive_engine/streaming.rs:665-736 | The scanning decoder hashes the bytes its turns yield, under its limits on chunks, lines, trailer and total size |
| `ChunkedMeaning.EntityMeans` | custom_apps/rust/apps/browsertrix-downloader/archive_engine/streaming.rs:665-736 | A body is accepted exactly when it is chunks of the sizes their lines say, each closed by CRLF, a last chunk and trailer lines, within the limits; what is hashed is the data of the chunks |
| `Chunked.ReadTrailer` | custom_apps/rust/apps/browsertrix-downloader/archive_engine/streaming.rs:697-713 | The trailer loop accepts lines that end in CRLF, up to an empty one at the very end, within the header limit |
| `Chunked.TransferPayload` | custom_apps/rust/apps/browsertrix-downloader/archive_engine/content.rs:5-50 | The decoder in memory collects the bytes its turns yield |
| `ChunkedAgree.DecodersAgree` | custom_apps/rust/apps/browsertrix-downloader/archive_engine/content.rs:16-50 | For every body the scanner accepts, the payload decodes if and only if no size field is padded with whitespace and the body fits in 32 MiB, and then to the very bytes that were hashed |
| `ChunkedRefusal.PaddedRefused` | custom_apps/rust/apps/browsertrix-downloader/archive_engine/content.rs:22-27 | A size followed by a space: the scanner accepts the body, the other decoder refuses it |
| `ChunkedAgree.ChunkingDecodes` | custom_apps/rust/apps/browsertrix-downloader/archive_engine/streaming.rs:665-736 | Any chunking of a body, with any sizes, spellings, extensions and trailer, is read back as that body by both decoders (section 7.1 of RFC 9112) |
| `ChunkedAgree.SizeLine` | custom_apps/rust/apps/browsertrix-downloader/archive_engine/streaming.rs:691-693 | On one size line: trimming changes nothing unless the field is padded, and then the other decoder finds no size |
| `ChunkedAgree.TrailerAccepted` | custom_apps/rust/apps/browsertrix-downloader/archive_engine/content.rs:33-38 | A trailer the scanner accepts satisfies the other decoder's shorter test |
| `ZipPreflight.Validate` | custom_apps/rust/apps/browsertrix-downloader/archive_engine/zip_directory.rs:127-313 | The preflight accepts exactly the sound directories: one end record, records that fill the directory, distinct names, disjoint members before it, bounded total size; all 64-bit offset arithmetic is free of overflow |
| `ZipRoundTrip.WrittenAccepted` | custom_apps/rust/apps/browsertrix-downloader/archive_engine/zip_directory.rs:127-313 | A file written field by field (sections 4.3.7, 4.3.12 and 4.3.14 to 4.3.16 of PKWARE APPNOTE) is accepted as it was written if and only if its members are well formed with distinct safe names, within the limits and on one disk, its headers agree, and nothing behind the members looks like another end record; and then every member is listed with its name, compressed size, uncompressed size and offset |
| `ZipRoundTrip.SumRefused` | custom_apps/rust/apps/browsertrix-downloader/archive_engine/zip_directory.rs:193-202 | A member whose checksum happens to read as an end signature makes a correct archive refused |
| `ZipNames.NameMeans` | custom_apps/rust/apps/browsertrix-downloader/archive_engine/zip_directory.rs:228-239 | A name is accepted exactly when it is UTF-8 without control characters, backslash and colon, not absolute, and no part between slashes is `.` or `..`; not ASCII only when flagged; not encrypted |
| `ZipMembers.ExtraReads` | custom_apps/rust/apps/browsertrix-downloader/archive_engine/zip_directory.rs:99-120 | Extra fields that were written are read as their one 64-bit field, or refused when there are two or a Unicode path says another name |
| `ZipMembers.SizesRead` | custom_apps/rust/apps/browsertrix-downloader/archive_engine/zip_directory.rs:245-265 | The sizes and the offset are read back from wherever they were written |
| `ZipPreflight.CheckMembers` | custom_apps/rust/apps/browsertrix-downloader/archive_engine/zip_directory.rs:202-307 | The loop over records with its name set, running size and span list decides soundness of the whole member list |
| `ZipPreflight.ParseMember` | custom_apps/rust/apps/browsertrix-downloader/archive_engine/zip_directory.rs:202-299 | One directory record with its local header, read in 64-bit arithmetic, is what it is in unbounded arithmetic |
| `ZipPreflight.LocalSpan` | custom_apps/rust/apps/browsertrix-downloader/archive_engine/zip_directory.rs:271-299 | A local header is accepted when it agrees with the directory and its data ends before the directory |
| `ZipPreflight.FindExtra` | custom_apps/rust/apps/browsertrix-downloader/archive_engine/zip_directory.rs:99-120 | The extra-field loop finds the one 64-bit field and refuses truncated, repeated or renaming fields |
| `ZipPreflight.TakeSizes` | custom_apps/rust/apps/browsertrix-downloader/archive_engine/zip_directory.rs:121-125 | Saturated fields are widened in order from the 64-bit field by a moving cursor: uncompressed size, compressed size, offset |
| `ZipPreflight.ReadEndRecord` | custom_apps/rust/apps/browsertrix-downloader/archive_engine/zip_directory.rs:127-180 | The end record is the last one that fits the file exactly, widened by a consistent 64-bit record |
| `ZipPreflight.ScanSignatures` | custom_apps/rust/apps/browsertrix-downloader/archive_engine/zip_directory.rs:193-202 | No other end signature occurs from the directory to the end of the file |
| `ZipPreflight.NeighboursSuffice` | custom_apps/rust/apps/browsertrix-downloader/archive_engine/zip_directory.rs:304-307 | In sorted order comparing neighbours decides whether any two spans overlap |
| `ZipPreflight.SortApart` | custom_apps/rust/apps/browsertrix-downloader/archive_engine/zip_directory.rs:304-307 | Sorting neither makes nor resolves an overlap |
| `ZipPreflight.Input.Read` | custom_apps/rust/apps/browsertrix-downloader/archive_engine/zip_directory.rs:39-63 | While the archive is opened, reads see zeros before the directory and the frozen directory itself, and a read of nothing but the hidden part fails |
| `ZipDirectory.SoundLayout` | custom_apps/rust/apps/browsertrix-downloader/archive_engine/zip_directory.rs:127-313 | In an accepted archive the records tile the directory, every member lies before it, and all members together are no longer than what lies before it |
| `ZipDirectory.DisjointFits` | custom_apps/rust/apps/browsertrix-downloader/archive_engine/zip_directory.rs:127-313 | Disjoint spans below a bound are in total no longer than the bound |
| `Storage.SharesAddUp` | custom_apps/rust/apps/browsertrix-downloader/archive_engine/streaming.rs:635-650 | The shares of a gzip member's records are the member, to the byte |
| `Storage.ScanWarc` | custom_apps/rust/apps/browsertrix-downloader/archive_engine/streaming.rs:478-653 | The scanner's loop pushes records unmeasured and measures them when their gzip member ends, as specified |
| `Storage.ScanAddsUp` | custom_apps/rust/apps/browsertrix-downloader/archive_engine/streaming.rs:478-653 | The stored shares of a WARC's records add up to the WARC |
| `Storage.ScanTiles` | custom_apps/rust/apps/browsertrix-downloader/archive_engine/streaming.rs:628-650 | The gzip spans of the records tile the WARC |
| `Storage.ScanMeans` | custom_apps/rust/apps/browsertrix-downloader/archive_engine/streaming.rs:478-653 | A WARC is scanned exactly when it is gzip members from end to end, each of one to 128 records and no more than 50,000 in all; the scan is their records, with even shares that add up to the member |
| `Storage.Account` | custom_apps/rust/apps/browsertrix-downloader/archive_engine/read.rs:659-692 | Unique bytes are those of the payloads whose digest comes first, duplicate bytes those of all others; with the metadata they make up the archive, and the overflow error occurs only when they exceed it |
| `Storage.SumsMean` | custom_apps/rust/apps/browsertrix-downloader/archive_engine/read.rs:659-692 | What makes a payload come first: no earlier one has its digest, which is the digest stated for a revisit that was not resolved and the computed one otherwise |
| `Storage.StorageConserved` | custom_apps/rust/apps/browsertrix-downloader/archive_engine/read.rs:789-792 | In an archive the preflight accepts, whatever its WARCs decompress to, the payload bytes never exceed the archive, so the overflow branch is unreachable |
| `PageClosure.SelectedPages` | custom_apps/rust/apps/browsertrix-downloader/archive_engine/transform.rs:58-112 | The selection is exactly the least closed set when that can be found within the budget; otherwise it holds the whole page inventory and nothing beyond the closure besides; it fails only for an unreadable document in the closure |
| `PageClosure.TakeOne` | custom_apps/rust/apps/browsertrix-downloader/archive_engine/transform.rs:82-110 | A turn of the worklist keeps every base URL enqueued once and the budget equal to the cost of what is done |
| `PageClosure.Analyse` | custom_apps/rust/apps/browsertrix-downloader/archive_engine/transform.rs:84-108 | The documents at one URL are analysed completely, or the budget they exceed is named |
| `PageClosure.Prepare` | custom_apps/rust/apps/browsertrix-downloader/archive_engine/transform.rs:67-81 | The seeds are the pages asked for and all HTML that is no page; documents are grouped by base URL |
| `PageClosure.ClosureIsLeast` | custom_apps/rust/apps/browsertrix-downloader/archive_engine/transform.rs:58-112 | There is a least set closed under embedding, contained in every other |
| `PageClosure.ClosureMeans` | custom_apps/rust/apps/browsertrix-downloader/archive_engine/transform.rs:58-112 | A URL is kept exactly when there is a way to it: from a page asked for or from HTML that is no page, each document embedding the next |
| `PageClosure.CostMeans` | custom_apps/rust/apps/browsertrix-downloader/archive_engine/transform.rs:96-101 | What the link budget is spent on is the length of all links of the kept documents together |
| `PageClosure.SpentUnaffordable` | custom_apps/rust/apps/browsertrix-downloader/archive_engine/transform.rs:87-104 | When the documents at a needed URL exhaust the budget, the whole closure does |
| `RepairPages.RepairPageMetadata` | custom_apps/rust/apps/browsertrix-downloader/archive_engine/transform.rs:500-612 | There is exactly one row per successful HTML capture of a repaired URL, bound to that capture, and the count of rebuilt rows is right |
| `RepairPages.NativeExact` | custom_apps/rust/apps/browsertrix-downloader/archive_engine/transform.rs:500-612 | A native row is reused if and only if it alone belongs to that capture; it is a dated row of the same URL that did not fail |
| `RepairPages.RepairMeans` | custom_apps/rust/apps/browsertrix-downloader/archive_engine/transform.rs:500-612 | While the work lasts, told from records and rows alone: HTML of a repaired URL with a status from 200 to 399 gets the native row that did not fail, is dated, has no double and is bound to it or fits it best, when one and no other is such; otherwise a new row with its URL, date and page id |
| `RepairPages.OwnerMeans` | custom_apps/rust/apps/browsertrix-downloader/archive_engine/transform.rs:541-586 | A row bound to no capture belongs to the only capture with its page id, or without one to the only one in its second, an exact date deciding between several |
| `RepairPages.FindOwner` | custom_apps/rust/apps/browsertrix-downloader/archive_engine/transform.rs:541-586 | The loop over captures finds exactly the capture a row is bound to, or the one it fits better than every other |
| `RepairPages.OwnerUnique` | custom_apps/rust/apps/browsertrix-downloader/archive_engine/transform.rs:541-586 | At most one capture owns a row |
| `RepairPages.Associate` | custom_apps/rust/apps/browsertrix-downloader/archive_engine/transform.rs:528-590 | The association table holds, for each capture, exactly the rows considered within the work limit that belong to it |
| `RepairPages.OrderIndependent` | custom_apps/rust/apps/browsertrix-downloader/archive_engine/transform.rs:500-612 | Records in any other order give every capture the same row |
| `RepairPages.RowOrderIndependent` | custom_apps/rust/apps/browsertrix-downloader/archive_engine/transform.rs:518-612 | While the work lasts, native rows in any other order give every capture the same page, too |
| `RepairPages.ConsideredWithinWork` | custom_apps/rust/apps/browsertrix-downloader/archive_engine/transform.rs:528-540 | While the work lasts a row is considered if and only if it did not fail, is dated, has no double and has captures |
| `IsoQueue.UniqueDestination` | custom_apps/mkvmaker/auto_import.py:1197-1203 | The loop ends on a free name: the name itself, or else the stem with the first free number from 2 before the suffix |
| `IsoQueue.CandidatesDiffer` | custom_apps/mkvmaker/auto_import.py:1197-1203 | Candidates with different numbers are different names, so the search for a free one ends |
| `IsoQueue.NumberedName` | custom_apps/mkvmaker/auto_import.py:1197-1203 | The numbered name of a file is its stem, a hyphen, the number and its suffix |
| `IsoQueue.NumberedBare` | custom_apps/mkvmaker/auto_import.py:1197-1203 | A name without a suffix is numbered at its end |
| `IsoQueue.Queue.ArchiveSource` | custom_apps/mkvmaker/auto_import.py:1206-1221 | The source moves from the inbox to a name that was free on the shelf, and nothing else changes |
| `IsoQueue.Queue.ClaimNextSource` | custom_apps/mkvmaker/auto_import.py:1304-1365 | The first file in the listing that can be claimed is claimed: one whose signature is as before, that is settled, due, unlocked and unchanged at the second look; none is when there is none; what was looked at is recorded, and no other entry changes |
| `IsoQueue.ClaimNextMeans` | custom_apps/mkvmaker/auto_import.py:1304-1365 | The same of the specified claim, over view and entries alone |
| `IsoQueue.Queue.Renew` | custom_apps/mkvmaker/auto_import.py:1387-1398 | A lease is renewed if and only if the worker owns it |
| `IsoQueue.Queue.ResetChangedClaim` | custom_apps/mkvmaker/auto_import.py:1367-1385 | Only an owned entry is reset to the file as it is now, or dropped when the file is gone |
| `IsoQueue.Queue.ChargeFailure` | custom_apps/mkvmaker/auto_import.py:1447-1476 | An owned failure is charged with a delay of its number times the retry time, and at the limit the source goes to the failed shelf |
| `IsoQueue.Queue.Interrupt` | custom_apps/mkvmaker/auto_import.py:1550-1566 | An owned interrupt keeps the attempts and drops lease and retry time |
| `IsoQueue.Queue.RecordCheck` | custom_apps/mkvmaker/auto_import.py:1477-1512 | A duplicate check is recorded exactly when the lease is owned and the file unchanged: a duplicate is set aside, digests of files that are gone are dropped, new ones added |
| `IsoQueue.Queue.Complete` | custom_apps/mkvmaker/auto_import.py:1533-1549 | Completion archives the source under its digest exactly when the lease is owned and the file unchanged |
| `IsoQueue.FindDuplicateOf` | custom_apps/mkvmaker/auto_import.py:1038-1071 | The comparison is the specified search over archived files of the same size |
| `IsoQueue.SearchCandidates` | custom_apps/mkvmaker/auto_import.py:1059-1071 | The loop over candidates uses remembered digests, computes the missing ones, and stops at the first match |
| `IsoRuns.ClaimIsDue` | custom_apps/mkvmaker/auto_import.py:1318-1360 | A claimed file was settled, due, unlocked, and unchanged between listing and locking |
| `IsoRuns.LeaseFencing` | custom_apps/mkvmaker/auto_import.py:1402-1606 | Over every run, once a worker's lease is gone nothing it still does under that claim changes the queue or moves an ISO |
| `IsoRuns.FencedStep` | custom_apps/mkvmaker/auto_import.py:298-304 | A step of a worker that does not own its lease leaves the store as it was |
| `IsoRuns.ClaimReplaces` | custom_apps/mkvmaker/auto_import.py:1304-1398 | A newer claim of the same source retires the older lease for good |
| `IsoRuns.LeaseInvStep` | custom_apps/mkvmaker/auto_import.py:1304-1606 | Every step keeps lease ids unique to one source and one worker |
| `IsoRuns.MutualExclusion` | custom_apps/mkvmaker/auto_import.py:277-296 | While no source lock is lost, no two live workers work on the same pathname |
| `IsoConservation.Conservation` | custom_apps/mkvmaker/auto_import.py:1197-1221 | Between any two moments of any run, crashes included, an ISO that nobody withdraws is in exactly one place, and archived ISOs stay where they are |
| `IsoConservation.MoveConserves` | custom_apps/mkvmaker/auto_import.py:1206-1221 | Moving a file loses nothing and overwrites nothing |
| `IsoConservation.WorkerConserves` | custom_apps/mkvmaker/auto_import.py:1402-1606 | Every worker step, crashing between move and queue write or not, keeps every ISO in exactly one place |
| `IsoRetries.BoundedRetries` | custom_apps/mkvmaker/auto_import.py:1447-1476 | Over every run, while a file lies in the inbox as it is, its entry shows exactly the failures charged to it, if and only if no failed look at it is taken for a change; and then they stay below the limit. Interrupts, renewals, claims, crashes and late reports about an older file charge none and forget none |
| `IsoRetries.ClaimsInvStep` | custom_apps/mkvmaker/auto_import.py:1318-1398 | Every step keeps a claim in agreement with its entry on what the file looks like, for as long as the lease lasts |
| `IsoRetries.UndisturbedStep` | custom_apps/mkvmaker/auto_import.py:1367-1476 | One step adds one failure, or forgets all after a failed look, or leaves the number as it is |
| `IsoRetries.FailedLook` | custom_apps/mkvmaker/auto_import.py:268-274 | A file with two failures whose worker can not look at it once: it is unchanged and its failures are forgotten |
| `IsoRetries.LastChargeSetsAside` | custom_apps/mkvmaker/auto_import.py:1447-1476 | The charge that reaches the limit moves the file to the failed shelf |
| `IsoCache.DigestsStayRight` | custom_apps/mkvmaker/auto_import.py:1485-1490 | Over every run the remembered digests are those of the archived files they name, and a file is set aside as a duplicate only beside a processed file with the same content |
| `IsoCache.ComparisonsExact` | custom_apps/mkvmaker/auto_import.py:1038-1071 | Over every run a comparison with whatever digests its worker holds finds the first archived copy of the source, if there is one |
| `IsoCache.ComparisonExact` | custom_apps/mkvmaker/auto_import.py:1038-1071 | With any right partial cache a comparison answers as with an empty one, and every digest it passes on is right |
| `IsoCache.CacheInvStep` | custom_apps/mkvmaker/auto_import.py:1537-1549 | Every step keeps remembered digests, entry digests and workers' copies right |
| `IsoCache.SizeFilter` | custom_apps/mkvmaker/auto_import.py:1052-1060 | Looking only at files of the source's size loses no copy |
| `Catalog.Database.Control` | custom_apps/rust/apps/browsertrix-downloader/src/catalog.rs:530-571 | The transaction for pause and stop: refused for unknown jobs, other states and file operations |
| `Catalog.Database.ResumeJob` | custom_apps/rust/apps/browsertrix-downloader/src/catalog.rs:572-633 | The transaction for resume, with its checkpoint, extension and budget checks |
| `Catalog.Database.Cancel` | custom_apps/rust/apps/browsertrix-downloader/src/database.rs:167-202 | The transaction for cancel: refused outside its states, otherwise the job is discarded and its pending intents invalidated |
| `Catalog.Database.BeginCaptureOf` | custom_apps/rust/apps/browsertrix-downloader/src/catalog.rs:642-644 | Capture begins exactly for a starting job without a control |
| `Catalog.Database.BeginFileOperationOf` | custom_apps/rust/apps/browsertrix-downloader/src/catalog.rs:649-658 | A file operation begins exactly for a starting job without a control; otherwise a pending cancellation is completed |
| `Catalog.Database.Prepare` | custom_apps/rust/apps/browsertrix-downloader/src/catalog.rs:661-701 | Packaging freezes the stored control into the runtime record |
| `Catalog.Database.Put` | custom_apps/rust/apps/browsertrix-downloader/src/catalog.rs:262-276 | An intent is stored only for a packaging job of its owner that is not discarded |
| `Catalog.Database.Admit` | custom_apps/rust/apps/browsertrix-downloader/src/catalog.rs:280-316 | A pending publication is admitted into packaging, or a cancellation is honoured and the intent dropped |
| `Catalog.Database.Finalize` | custom_apps/rust/apps/browsertrix-downloader/src/catalog.rs:332-407 | The rows under the archive in each of the three tables are exactly those of the intent at their ordinals, the archive row is written, and the job of its owner ends with the final status and the archive's id, file and size; all other rows and jobs are as they were; nothing changes when the archive id is taken by another file |
| `Catalog.PublishedMeans` | custom_apps/rust/apps/browsertrix-downloader/src/catalog.rs:332-407 | The same of the specified publication, row by row and field by field |
| `Catalog.InterruptedMeans` | custom_apps/rust/apps/browsertrix-downloader/src/database.rs:90-101 | After a crash exactly the jobs that were starting, running, cancelling or packaging change: one being cancelled is cancelled, any other fails or pauses by whether it had begun |
| `Catalog.Database.PreserveControl` | custom_apps/rust/apps/browsertrix-downloader/src/catalog.rs:634-641 | The worker's record replaces the stored one except for the control and, after a discard, for what the discard decided |
| `Catalog.Database.Restore` | custom_apps/rust/apps/browsertrix-downloader/src/catalog.rs:724-727 | A checkpoint is restored only for a paused job that is not discarded |
| `Catalog.Database.FinishCleanup` | custom_apps/rust/apps/browsertrix-downloader/src/catalog.rs:720-723 | Cleanup is recorded only for a cancelled, discarded job |
| `Catalog.FinalizeReplay` | custom_apps/rust/apps/browsertrix-downloader/src/catalog.rs:332-407 | Finalizing again changes neither archive row, inventories, intent nor job |
| `Catalog.FinalizeKeepsEdits` | custom_apps/rust/apps/browsertrix-downloader/src/catalog.rs:348-356 | Replaying does not undo edits of the archive's record |
| `Catalog.ControlReachesPublication` | custom_apps/rust/apps/browsertrix-downloader/src/catalog.rs:661-701 | A pause or stop accepted while a capture runs is the control and the stop reason of its publication, whatever the worker writes in between |
| `Catalog.ResumedRuns` | custom_apps/rust/apps/browsertrix-downloader/src/catalog.rs:572-633 | A resumed job is queued, can be claimed and begun, and has pages, bytes and time left within the cumulative limits |
| `Catalog.CancelOrOperate` | custom_apps/rust/apps/browsertrix-downloader/src/catalog.rs:645-658 | A cancellation before a file operation wins; one after it is refused |
| `CatalogRuns.DiscardedStaysDown` | custom_apps/rust/apps/browsertrix-downloader/src/catalog.rs:262-407 | Over every run, in which reconcile jobs may recover publications at any time, a discarded job is cancelling or cancelled, never resumable, and never resumed, begun or packaged |
| `CatalogRuns.CancelIsFinal` | custom_apps/rust/apps/browsertrix-downloader/src/database.rs:167-202 | After an accepted cancellation nothing of the job is ever published, however often the worker restarts |
| `CatalogRuns.NoControlWhilePending` | custom_apps/rust/apps/browsertrix-downloader/src/catalog.rs:262-276 | From the moment an intent is stored until it is settled, no pause, stop, cancel or resume of its job is accepted |
| `CatalogRuns.NoControlWhileAdmitted` | custom_apps/rust/apps/browsertrix-downloader/src/catalog.rs:277-316 | While an admitted archive is moved into place none is accepted, even for intents of older versions |
| `CatalogRuns.DiscardInvStep` | custom_apps/rust/apps/browsertrix-downloader/src/catalog.rs:530-701 | Every step keeps discarded jobs down and an admitted publication's job in packaging |
| `CatalogRuns.FreezeInvStep` | custom_apps/rust/apps/browsertrix-downloader/src/catalog.rs:262-316 | Every step keeps the job of a pending publication frozen and its publication the only one |
| `CatalogRuns.PublishedOnce` | custom_apps/rust/apps/browsertrix-downloader/src/catalog.rs:280-407 | Two successful publications in a run are of different archives |
| `CatalogRuns.CleanupBeforeDelete` | custom_apps/rust/apps/browsertrix-downloader/src/database.rs:296-311 | A job discarded after it had started stays listed until its cleanup is recorded |
| `NaturalOrder.Compare` | custom_apps/mkvmaker/src/main.rs:704-733 | The two-cursor loop computes the comparison |
| `NaturalOrder.Antisymmetric` | custom_apps/mkvmaker/src/main.rs:704-733 | Swapping the strings reverses the answer, for all strings |
| `NaturalOrder.IsLexical` | custom_apps/mkvmaker/src/main.rs:704-733 | On strings whose digit runs have no leading zeros and fit in 128 bits the comparison is lexical over numbers and lower-case bytes |
| `NaturalOrder.Transitive` | custom_apps/mkvmaker/src/main.rs:704-733 | On those strings the comparison is a total preorder |
| `NaturalOrder.TiesExact` | custom_apps/mkvmaker/src/main.rs:704-733 | Those strings tie if and only if they are equal but for ASCII case |
| `NaturalOrder.NotCanonicalBreaks` | custom_apps/mkvmaker/src/main.rs:704-733 | Every other string breaks the order: it ties with two strings of which one is less than the other (`01` with `1a` and `1b`) |

## Left out

- Input, output and codecs: file reads and syncs, gzip, JSON and HTML parsing, SQLite itself, HTTP and
  the crawler container appear as parameters or steps, or not at all.
- URL normalization: base URLs and lookup keys of URLs are functions of the URL of which nothing is known.
- Compressed CDX indexes with their block files, and CDX rows with numeric instead of text offsets.
- Writing of page rows inside the archive writer; only record layout and the index are modelled.
- Record headers are a map from the header names the engine looks at; HTTP heads are parsed already.
- Reading back a written archive checks what `Rewriting.Scan` checks; its page rows, its index and the
  limits on the size and number of records are not part of the round trip; nor are the memory budget of
  the authorized inputs and the budget for rereading their WARC members, which many restored records
  with one large target can exhaust.
- A dependency location is read back as it was written, which one in a WARC member whose name begins
  with white space is not.
- DomRemoval.Remove: works on a tree value; nodes shared between parents and the order of detaching
  are not represented.
- Preview documents: which elements are dropped or sanitized before annotation is not modelled, only
  what is written on one element of the annotated document.
- Lengths of rules, paths and index lines count characters, where the program counts bytes.
- The ZIP preflight reads an unchanging file, so the check that the directory did not change between two
  reads has no counterpart; nor do the ZIP library's own checks.
- `RepairPages.RepairPageMetadata`: records are assumed to have distinct capture locations, which scanning
  provides; rows come in file order, not sorted by URL.
- `Catalog.Database.Admit`: timestamps, job events, progress and error texts are not stored.
- Recovery of more than a thousand pending publications at one start, replacement of legacy inventories,
  schedules and batches, and the choice of the oldest queued job.
- A whole runtime record is written without preserving the stored control only while a job is packaging
  or completed and with the control it has, as the worker's call sites do.
- Queue side files, reports, quarantine of converter outputs, title selection and conversion itself.
- Lease ids are assumed never to be issued twice; they are 128-bit random numbers.
- The inbox listing of one claim is taken at one moment, under the queue lock; a file that vanishes
  before its signature is read is not in the listing's view.
- `IsoRuns.ClaimIsDue`: for a positive settling time and a listing without repetitions.
- `IsoCache.DigestsStayRight`: while a pathname's equal signatures mean equal content and nothing but the
  workers changes the processed directory.
- `IsoConservation.Conservation`: files arrive under new ISO identities and are not renamed from outside.
- `ArchiveEngine.Archive.ResolveLocal`: of records whose chain is longer than 65 records nothing is said when
  the 64 rounds end before they settle.
- `PageClosure.SelectedPages`: the order in which the worklist takes URLs is not determined; it does not
  change any of what is stated.
- TVmaze matching, title heuristics, natural sorting of titles in the importer, `plan_tv` and `apply_order`.
- Reader exports, size estimates and archive comparison: single passes without a property across functions.
