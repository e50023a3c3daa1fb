# deconflict in Dafny

A model of `deconflict.js`, the conflict resolver for a revision-tree (MVCC)
document store (CouchDB, through the nano client). When several writers update one
document, the store keeps several live leaf revisions. Each strategy fetches the
leaves, filters them down to the conflict set, and builds one bulk write that
collapses the document to a single live revision:

- `latestWins`: the leaf with the highest value of a numeric field survives and
  every other live leaf is deleted.
- `merge`: every other live leaf is overlaid, field by field and in fetch order,
  onto the store's current winner. The losers are deleted and the merged winner is
  written back in the same batch.
- `nominated`: every live leaf except a named revision is deleted.

Three helpers sit underneath: the leaf filter (`filterList`), the deletion encoder
(`convertToDeletions`) and the field overlay (`objmerge`).

Files:

- `documents.dfy` (module `Documents`): JSON values with JavaScript truthiness,
  documents (`_id`, `_rev`, and a map holding every other key, `_deleted`
  included), fetch entries (`{ok: doc}` or a missing revision), fetch results, and
  the strategy outcome. `NotConflicted` and `FetchError` carry the two callback
  messages ("Document is not conflicted." and "Document could not be
  fetched"). `Batch` holds the documents of the bulk write.
- `deconflict.dfy` (module `Deconflict`): the three helpers. Each is a method with
  the source's loop, proved against a specification function (`ConflictSet`,
  `Tombstones`, `Overlay`). The lemmas about the filter are here too.
- `strategies.dfy` (module `Strategies`): the three strategies as methods. They run
  from the fetched data to the outcome. `merge` and `nominated` are deterministic,
  so each is proved equal to a specification function (`MergeOutcome`,
  `NominatedOutcome`), and the lemmas about those functions state what the
  strategy promises. `latestWins` depends on how the sort breaks ties, so its
  contract is relational (`IsLatestSplit`).

Behaviour kept as the code has it:

- The exclusion guard is `!excluderev`, so an absent or empty exclusion revision
  excludes nothing (`EmptyExclusionExcludesNothing`).
- `merge` and `nominated` test `doclist.length <= 1` after the exclusion. A
  document whose only live leaves are the winner (or the nominated revision) and
  one other leaf is therefore reported "not conflicted", and nothing is written
  (`MergeTwoLeavesNotConflicted`, `NominatedTwoLeavesNotConflicted`).
- `nominated` never looks at the fetch error, and neither does the second fetch of
  `merge`. A failed fetch yields no `ok` entries and so "not conflicted".
- `nominated` does not check that the named revision exists. If it matches no live
  leaf, every live leaf is deleted (`NominatedUnknownRevDeletesAll`).
- `merge` checks only the first fetch's error; an error in the second fetch is
  ignored and reads as an empty list. The code checks no identity fields; in this
  model every document has both `_id` and `_rev`.

## Model

| member | source | states |
|---|---|---|
| `Deconflict.FilterList` | deconflict.js:3-13 | the returned list is the conflict set; every element is live (not `_deleted`) and not the excluded revision |
| `Deconflict.ConflictSetMembers` | deconflict.js:3-13 | a document is kept iff some entry carries it under `ok`, it is not `_deleted`, and it is not the excluded revision; entries without `ok` contribute nothing |
| `Deconflict.ConflictSetConcat` | deconflict.js:5-9 | filtering a concatenation is the concatenation of the filtered parts: fetch order is preserved |
| `Deconflict.ConflictSetLength` | deconflict.js:3-13 | the filter never returns more documents than the fetch had entries |
| `Deconflict.ExclusionIsFilter` | deconflict.js:7 | excluding a non-empty revision equals removing that revision from the live leaves |
| `Deconflict.EmptyExclusionExcludesNothing` | deconflict.js:7 | an empty exclusion revision is falsy and excludes nothing |
| `Deconflict.ConflictSetDistinct` | deconflict.js:3-13 | when the fetched leaves have distinct revisions, so does the filtered list |
| `Deconflict.ConvertToDeletions` | deconflict.js:16-23 | one record per input, in order: same `_id` and `_rev`, `_deleted: true`, no other field |
| `Deconflict.TombstonesAt` | deconflict.js:16-23 | element k of the deletions retires input k: its `_id` and `_rev`, only `_deleted: true` in the body, and it reads as deleted |
| `Deconflict.TombstonesMembers` | deconflict.js:16-23 | a record is among the deletions iff it is the tombstone of some input document |
| `Deconflict.Overlay` | deconflict.js:26-33 | `_id` and `_rev` of the target are unchanged; every non-identity key of the source lands with the source's value; other target keys keep their value; no other key appears; identity keys are never added to the body |
| `Deconflict.ObjMerge` | deconflict.js:26-33 | the key-by-key copy loop, in any key order, yields the overlay |
| `Strategies.SortByKey` | deconflict.js:58 | the sorted list is ascending by the field and a permutation of the leaves |
| `Strategies.LatestWins` | deconflict.js:37-68 | a failed fetch gives "could not be fetched"; at most one live leaf gives "not conflicted"; otherwise the batch is the deletions of the losers, where the survivor is a live leaf with the maximum field and the losers are the other live leaves (as a multiset) in ascending field order |
| `Strategies.LatestSplitShape` | deconflict.js:56-65 | the batch holds n-1 deletions for n live leaves; each deleted leaf is live and its field does not exceed the survivor's |
| `Strategies.LatestSurvivorKept` | deconflict.js:59-62 | when the live leaves have distinct revisions, no deletion retires the survivor's revision |
| `Strategies.LatestWinsExample` | deconflict.js:56-65 | scores 3, 7, 5 under revisions a, b, c: b survives and the batch deletes a then c |
| `Strategies.MergeInto` | deconflict.js:95-98 | folding the losers into the winner keeps the winner's `_id` and `_rev`, and a well-formed winner stays free of identity keys in its body |
| `Strategies.MergedField` | deconflict.js:95-98 | each non-identity field of the fold is the value from the last loser having it; otherwise the winner's own value (or still absent) |
| `Strategies.Merge` | deconflict.js:72-110 | the method's outcome equals `MergeOutcome` of the two fetches |
| `Strategies.MergeOutcomeShape` | deconflict.js:76-107 | fetch error iff the winner's fetch failed; "not conflicted" iff at most one other live leaf (also when the second fetch failed); else one deletion per other live leaf in fetch order (its `_id` and `_rev`, body exactly `_deleted: true`), then the merged winner with the original `_id` and `_rev` |
| `Strategies.MergeSparesWinner` | deconflict.js:87-104 | when the winner's revision is non-empty, no deletion in the batch carries it |
| `Strategies.MergedWinnerField` | deconflict.js:94-104 | in the written winner, a field some loser has takes the value of the last such loser in fetch order; a field no loser has keeps the winner's value, or stays absent |
| `Strategies.MergeTwoLeavesNotConflicted` | deconflict.js:87-92 | with exactly two live leaves, one of them the winner, the outcome is "not conflicted" |
| `Strategies.Nominated` | deconflict.js:114-135 | the method's outcome equals `NominatedOutcome` of the fetch |
| `Strategies.NominatedDeletes` | deconflict.js:117-133 | never a fetch error (also when the fetch fails); "not conflicted" iff at most one leaf remains after exclusion; otherwise a record is in the batch iff it is the tombstone of a live leaf other than the nominated revision |
| `Strategies.NominatedSparesNominee` | deconflict.js:121-133 | for a non-empty nominated revision, no record in the batch carries it |
| `Strategies.NominatedDeletesOnce` | deconflict.js:121-133 | with distinct leaf revisions, the batch records carry distinct revisions, so each other live leaf is deleted exactly once |
| `Strategies.NominatedUnknownRevDeletesAll` | deconflict.js:121-133 | a nominated revision matching no live leaf excludes nothing: every live leaf is deleted |
| `Strategies.NominatedTwoLeavesNotConflicted` | deconflict.js:121-127 | with exactly two live leaves, one of them the nominated revision, the outcome is "not conflicted" |

## Left out

- The store calls (`db.get`, `db.bulk`), the nano client and the callbacks. Fetch
  results are parameters. The bulk write is the `Batch` outcome, and the store's
  per-document results are not modelled.
- Applying a batch to the store, and hence idempotence across two runs. The store's
  revision-tree semantics are not part of this model.
- Concurrent resolution of one document. Only the store's revision checks guard it.
- `LatestWins`: requires the field to hold an integer in every live leaf, when two
  or more are live. The JavaScript comparator converts both fields to numbers and
  subtracts in floating point: `null`, booleans and numeric strings sort as
  numbers, while a missing field or any other value gives `NaN`. None of these
  conversions is modelled; the model admits integer fields only.
- `SortByKey`: stands in for the engine's `Array.prototype.sort`. Its tie order
  depended on the engine before ECMAScript 2019 and is stable since then, so with
  a stable sort the last tied maximum in fetch order is popped. The contract does
  not fix which tied leaf survives: `LatestWins` promises only the facts that hold
  under either (some maximum survives, the losers in ascending order).
- `ObjMerge`: `objmerge` mutates its target object in place and returns it. The
  model returns the updated document as a value. Every caller reassigns the result
  and no other reference to the target is read afterwards, so the two agree.
- Values that a document cannot hold in this model: a missing or non-string `_id`
  or `_rev` (read as `undefined`), floating-point numbers, and a non-string
  exclusion revision compared with JavaScript's loose `!=`.
