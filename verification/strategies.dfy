/** The three resolution strategies. Each one is a method that does what the
    strategy does between its store calls: the fetched data comes in as
    parameters, and the documents of the one bulk write it would issue come out in
    the `Outcome`. */
module Strategies {
  import opened Documents
  import opened Deconflict

  /** The entries a strategy filters. A fetch whose error is not checked hands the
      filter no `ok` entries at all. */
  function Branches(revs: Fetch<seq<Branch>>): seq<Branch> {
    if revs.Fetched? then revs.value else []
  }

  // ---------------------------------------------------------------------------
  // latestWins: the leaf with the highest numeric field survives
  // ---------------------------------------------------------------------------

  /** `doc[field]` holds an integer. */
  predicate NumericIn(d: Doc, field: string) {
    field in d.fields && d.fields[field].Num?
  }

  function Key(d: Doc, field: string): int
    requires NumericIn(d, field)
  {
    d.fields[field].n
  }

  predicate AllNumeric(docs: seq<Doc>, field: string) {
    forall d :: d in docs ==> NumericIn(d, field)
  }

  /** Ascending by `field`, as the comparator `a[field] - b[field]` orders them. */
  predicate SortedByKey(docs: seq<Doc>, field: string)
    requires AllNumeric(docs, field)
  {
    forall i, j :: 0 <= i < j < |docs| ==> Key(docs[i], field) <= Key(docs[j], field)
  }

  /** Inserts `d` into a sequence already in ascending order, after every document
      whose key is not greater. */
  function InsertByKey(docs: seq<Doc>, d: Doc, field: string): (r: seq<Doc>)
    requires AllNumeric(docs, field) && NumericIn(d, field) && SortedByKey(docs, field)
    ensures AllNumeric(r, field) && SortedByKey(r, field)
    ensures multiset(r) == multiset(docs) + multiset{d}
    ensures r[0] == d || (docs != [] && r[0] == docs[0])
  {
    if docs == [] || Key(d, field) < Key(docs[0], field) then
      SortedCons(d, docs, field);
      [d] + docs
    else
      assert docs == [docs[0]] + docs[1..];
      var rest := InsertByKey(docs[1..], d, field);
      SortedCons(docs[0], rest, field);
      [docs[0]] + rest
  }

  /** Putting in front a document whose key does not exceed the first key keeps
      the order. */
  lemma SortedCons(x: Doc, docs: seq<Doc>, field: string)
    requires NumericIn(x, field) && AllNumeric(docs, field) && SortedByKey(docs, field)
    requires docs != [] ==> Key(x, field) <= Key(docs[0], field)
    ensures AllNumeric([x] + docs, field) && SortedByKey([x] + docs, field)
  {
    var s := [x] + docs;
    forall d | d in s ensures NumericIn(d, field) {
      if d != x {
        assert d in docs;
      }
    }
    forall i, j | 0 <= i < j < |s| ensures Key(s[i], field) <= Key(s[j], field) {
      assert s[j] == docs[j - 1];
      if i > 0 {
        assert s[i] == docs[i - 1];
      } else {
        assert Key(docs[0], field) <= Key(docs[j - 1], field);
      }
    }
  }

  /** The in-place `doclist.sort(...)`: some ascending permutation of the leaves.
      (Any sort meets this contract; which leaf wins a tie is not specified.) */
  method SortByKey(docs: seq<Doc>, field: string) returns (sorted: seq<Doc>)
    requires AllNumeric(docs, field)
    ensures AllNumeric(sorted, field) && SortedByKey(sorted, field)
    ensures multiset(sorted) == multiset(docs)
  {
    sorted := [];
    var i := 0;
    while i < |docs|
      invariant 0 <= i <= |docs|
      invariant AllNumeric(sorted, field) && SortedByKey(sorted, field)
      invariant multiset(sorted) == multiset(docs[..i])
    {
      assert docs[..i + 1] == docs[..i] + [docs[i]];
      sorted := InsertByKey(sorted, docs[i], field);
      i := i + 1;
    }
    assert docs[..i] == docs;
  }

  /** How `latestWins` splits the live leaves `cs`: a survivor whose field is a
      maximum, and the other leaves in ascending field order. */
  predicate IsLatestSplit(cs: seq<Doc>, field: string, survivor: Doc, losers: seq<Doc>)
    requires AllNumeric(cs, field)
  {
    && survivor in cs
    && (forall d :: d in cs ==> Key(d, field) <= Key(survivor, field))
    && multiset(losers) + multiset{survivor} == multiset(cs)
    && AllNumeric(losers, field)
    && SortedByKey(losers, field)
  }

  /** `latestWins(db, docid, fieldname, callback)` after its fetch: a failed fetch
      is reported; fewer than two live leaves write nothing; otherwise the leaves are
      sorted ascending by the field, the last one is popped as the survivor and
      every other leaf is deleted. */
  method LatestWins(revs: Fetch<seq<Branch>>, field: string)
    returns (o: Outcome, ghost survivor: Doc, ghost losers: seq<Doc>)
    requires revs.Fetched? && |ConflictSet(revs.value, None)| > 1 ==> AllNumeric(ConflictSet(revs.value, None), field)
    ensures revs.FetchFailed? ==> o == FetchError
    ensures revs.Fetched? && |ConflictSet(revs.value, None)| <= 1 ==> o == NotConflicted
    ensures revs.Fetched? && |ConflictSet(revs.value, None)| > 1 ==>
              && o == Batch(Tombstones(losers))
              && IsLatestSplit(ConflictSet(revs.value, None), field, survivor, losers)
  {
    survivor, losers := Doc("", "", map[]), [];
    if revs.FetchFailed? {
      return FetchError, survivor, losers;
    }
    var doclist := FilterList(revs.value, None);
    if |doclist| <= 1 {
      return NotConflicted, survivor, losers;
    }
    var sorted := SortByKey(doclist, field);
    var last := sorted[|sorted| - 1];
    var rest := sorted[..|sorted| - 1];
    PopSplits(doclist, field, sorted);
    var deletions := ConvertToDeletions(rest);
    survivor, losers := last, rest;
    o := Batch(deletions);
  }

  /** Popping the last element of an ascending permutation of the leaves splits
      them as `latestWins` does. */
  lemma PopSplits(cs: seq<Doc>, field: string, sorted: seq<Doc>)
    requires AllNumeric(cs, field) && AllNumeric(sorted, field) && SortedByKey(sorted, field)
    requires multiset(sorted) == multiset(cs) && sorted != []
    ensures IsLatestSplit(cs, field, sorted[|sorted| - 1], sorted[..|sorted| - 1])
  {
    var last := sorted[|sorted| - 1];
    var rest := sorted[..|sorted| - 1];
    assert sorted == rest + [last];
    assert last in multiset(cs);
    forall d | d in cs ensures Key(d, field) <= Key(last, field) {
      assert d in multiset(sorted);
      var k :| 0 <= k < |sorted| && sorted[k] == d;
    }
    forall d | d in rest ensures NumericIn(d, field) {
      assert d in sorted;
    }
  }

  /** The facts a caller reads off a split: one deletion per live leaf but one, and
      each deleted leaf is a live leaf whose field does not exceed the survivor's. */
  lemma LatestSplitShape(cs: seq<Doc>, field: string, survivor: Doc, losers: seq<Doc>)
    requires AllNumeric(cs, field) && IsLatestSplit(cs, field, survivor, losers)
    ensures |losers| == |cs| - 1 && |Tombstones(losers)| == |cs| - 1
    ensures forall d :: d in losers ==> d in cs && Key(d, field) <= Key(survivor, field)
  {
    assert |multiset(losers)| + 1 == |multiset(cs)|;
    TombstonesAt(losers);
    forall d | d in losers ensures d in cs {
      assert d in multiset(losers);
      assert d in multiset(cs);
    }
  }

  /** When the live leaves have distinct revisions (as the store guarantees), the
      survivor's revision is never in the deletion batch. */
  lemma LatestSurvivorKept(cs: seq<Doc>, field: string, survivor: Doc, losers: seq<Doc>)
    requires AllNumeric(cs, field) && IsLatestSplit(cs, field, survivor, losers)
    requires DistinctRevs(cs)
    ensures forall t :: t in Tombstones(losers) ==> t.rev != survivor.rev
  {
    var ks :| 0 <= ks < |cs| && cs[ks] == survivor;
    forall d | d in cs && d.rev == survivor.rev ensures d == survivor {
      var k :| 0 <= k < |cs| && cs[k] == d;
      assert k == ks;
    }
    // The survivor occurs once in cs, so not at all among the losers.
    assert multiset(cs)[survivor] == 1 by {
      MultisetCountOfUnique(cs, ks);
    }
    assert survivor !in multiset(losers);
    forall t | t in Tombstones(losers) ensures t.rev != survivor.rev {
      TombstonesMembers(losers, t);
      var d :| d in losers && t == Tombstone(d);
      assert d in multiset(losers);
      assert d in multiset(cs);
    }
  }

  /** A document occurring at index `k` and nowhere else in `docs` occurs once. */
  lemma {:induction false} MultisetCountOfUnique(docs: seq<Doc>, k: nat)
    requires k < |docs|
    requires forall i :: 0 <= i < |docs| && i != k ==> docs[i] != docs[k]
    ensures multiset(docs)[docs[k]] == 1
  {
    var init := docs[..|docs| - 1];
    var last := docs[|docs| - 1];
    assert docs == init + [last];
    if k < |init| {
      forall i | 0 <= i < |init| && i != k ensures init[i] != init[k] {
        assert init[i] == docs[i];
      }
      MultisetCountOfUnique(init, k);
      assert last != docs[k];
    } else {
      assert docs[k] !in init;
      assert multiset(init)[docs[k]] == 0;
    }
  }

  /** Three live leaves, fetched in order, form the conflict set in that order. */
  lemma ThreeLiveLeaves(a: Doc, b: Doc, c: Doc)
    requires !Deleted(a) && !Deleted(b) && !Deleted(c)
    ensures ConflictSet([Found(a), Found(b), Found(c)], None) == [a, b, c]
  {
    var list := [Found(a), Found(b), Found(c)];
    var l2, l1 := list[..2], list[..2][..1];
    assert l2 == [Found(a), Found(b)] && l1 == [Found(a)] && l1[..0] == [];
    assert ConflictSet(l1, None) == [a];
    assert ConflictSet(l2, None) == [a, b];
  }

  /** The worked example: scores 3, 7 and 5 under revisions "a", "b" and "c"; "b"
      survives and "a" then "c" are deleted. */
  lemma LatestWinsExample(a: Doc, b: Doc, c: Doc, survivor: Doc, losers: seq<Doc>)
    requires a == Doc("d1", "a", map["score" := Num(3)])
    requires b == Doc("d1", "b", map["score" := Num(7)])
    requires c == Doc("d1", "c", map["score" := Num(5)])
    requires AllNumeric(ConflictSet([Found(a), Found(b), Found(c)], None), "score")
    requires IsLatestSplit(ConflictSet([Found(a), Found(b), Found(c)], None), "score", survivor, losers)
    ensures survivor.rev == "b"
    ensures Tombstones(losers) == [Doc("d1", "a", map["_deleted" := Bool(true)]),
                                   Doc("d1", "c", map["_deleted" := Bool(true)])]
  {
    assert !Deleted(a) && !Deleted(b) && !Deleted(c);
    ThreeLiveLeaves(a, b, c);
    ExampleSplit(a, b, c, survivor, losers);
    TombstonesAt(losers);
  }

  lemma ExampleSplit(a: Doc, b: Doc, c: Doc, survivor: Doc, losers: seq<Doc>)
    requires NumericIn(a, "score") && NumericIn(b, "score") && NumericIn(c, "score")
    requires Key(a, "score") < Key(c, "score") < Key(b, "score")
    requires AllNumeric([a, b, c], "score") && IsLatestSplit([a, b, c], "score", survivor, losers)
    ensures survivor == b && losers == [a, c]
  {
    var cs := [a, b, c];
    assert Key(survivor, "score") >= Key(b, "score") by {
      assert b in cs;
    }
    assert survivor == b;
    assert multiset(losers) == multiset{a, c};
    assert |losers| == 2;
    assert losers == [losers[0], losers[1]];
    assert losers[0] in multiset(losers) && losers[1] in multiset(losers);
    assert losers[0] == a;
  }

  // ---------------------------------------------------------------------------
  // merge: every losing leaf is folded into the default winner
  // ---------------------------------------------------------------------------

  /** The winner after `winner = objmerge(winner, loser)` for each loser in order. */
  function MergeInto(winner: Doc, losers: seq<Doc>): (r: Doc)
    ensures r.id == winner.id && r.rev == winner.rev
    ensures WellFormed(winner) ==> WellFormed(r)
  {
    if losers == [] then winner
    else Overlay(MergeInto(winner, losers[..|losers| - 1]), losers[|losers| - 1])
  }

  /** The value of key `k` in the last document of `docs` that has it. */
  function LastValue(docs: seq<Doc>, k: string): Option<Value>
  {
    if docs == [] then None
    else if k in docs[|docs| - 1].fields then Some(docs[|docs| - 1].fields[k])
    else LastValue(docs[..|docs| - 1], k)
  }

  /** `LastValue` is absent exactly when no document has the key, and otherwise is
      the value at the last index that has it. */
  lemma {:induction false} LastValueSpec(docs: seq<Doc>, k: string)
    ensures LastValue(docs, k).None? <==> forall j :: 0 <= j < |docs| ==> k !in docs[j].fields
    ensures LastValue(docs, k).Some? ==>
              exists j :: 0 <= j < |docs| && k in docs[j].fields && LastValue(docs, k).value == docs[j].fields[k] &&
                          forall j' :: j < j' < |docs| ==> k !in docs[j'].fields
  {
    if docs != [] {
      var init := docs[..|docs| - 1];
      LastValueSpec(init, k);
      forall j | 0 <= j < |init| ensures init[j] == docs[j] {}
      if k !in docs[|docs| - 1].fields && LastValue(init, k).Some? {
        var j :| 0 <= j < |init| && k in init[j].fields && LastValue(init, k).value == init[j].fields[k] &&
                 forall j' :: j < j' < |init| ==> k !in init[j'].fields;
        assert forall j' :: j < j' < |docs| ==> k !in docs[j'].fields;
      }
    }
  }

  /** Field `k` of the merged winner: the value from the last loser that has it;
      when no loser has it, or it is an identity key, the winner's own. */
  lemma {:induction false} MergedField(winner: Doc, losers: seq<Doc>, k: string)
    ensures var m := MergeInto(winner, losers);
            LastValue(losers, k).Some? && !IsIdentityKey(k) ==>
              k in m.fields && m.fields[k] == LastValue(losers, k).value
    ensures var m := MergeInto(winner, losers);
            LastValue(losers, k).None? || IsIdentityKey(k) ==>
              (k in m.fields <==> k in winner.fields) && (k in winner.fields ==> m.fields[k] == winner.fields[k])
  {
    if losers != [] {
      MergedField(winner, losers[..|losers| - 1], k);
    }
  }

  /** The spec of `merge` after its two fetches. */
  function MergeOutcome(current: Fetch<Doc>, revs: Fetch<seq<Branch>>): Outcome
  {
    if current.FetchFailed? then FetchError
    else
      var losers := ConflictSet(Branches(revs), Some(current.value.rev));
      if |losers| <= 1 then NotConflicted
      else Batch(Tombstones(losers) + [MergeInto(current.value, losers)])
  }

  /** `merge(db, docid, callback)` after its fetches: the current document is the
      winner; the other live leaves are overlaid onto it in fetch order, deleted,
      and the merged winner is appended to the same batch. */
  method Merge(current: Fetch<Doc>, revs: Fetch<seq<Branch>>) returns (o: Outcome)
    ensures o == MergeOutcome(current, revs)
  {
    if current.FetchFailed? {
      return FetchError;
    }
    var winner := current.value;
    var doclist := FilterList(Branches(revs), Some(winner.rev));
    if |doclist| <= 1 {
      return NotConflicted;
    }
    var i := 0;
    while i < |doclist|
      invariant 0 <= i <= |doclist|
      invariant winner == MergeInto(current.value, doclist[..i])
    {
      assert doclist[..i + 1][..i] == doclist[..i];
      var loser := doclist[i];
      winner := ObjMerge(winner, loser);
      i := i + 1;
    }
    assert doclist[..i] == doclist;
    var deletions := ConvertToDeletions(doclist);
    deletions := deletions + [winner];
    o := Batch(deletions);
  }

  /** What `merge` writes: one deletion per live leaf other than the winner, in
      fetch order, then the merged winner under the winner's own `_id` and `_rev`;
      nothing when the winner cannot be fetched or fewer than two other leaves live. */
  lemma MergeOutcomeShape(current: Fetch<Doc>, revs: Fetch<seq<Branch>>)
    ensures current.FetchFailed? <==> MergeOutcome(current, revs) == FetchError
    ensures current.Fetched? ==>
              var losers := ConflictSet(Branches(revs), Some(current.value.rev));
              var o := MergeOutcome(current, revs);
              && (o == NotConflicted <==> |losers| <= 1)
              && (revs.FetchFailed? ==> o == NotConflicted)
              && (o.Batch? ==>
                    && |o.docs| == |losers| + 1
                    && (forall k :: 0 <= k < |losers| ==>
                          o.docs[k].id == losers[k].id && o.docs[k].rev == losers[k].rev &&
                          o.docs[k].fields == map[DeletedKey := Bool(true)] && Deleted(o.docs[k]))
                    && o.docs[|losers|] == MergeInto(current.value, losers)
                    && o.docs[|losers|].id == current.value.id && o.docs[|losers|].rev == current.value.rev)
  {
    if current.Fetched? {
      var losers := ConflictSet(Branches(revs), Some(current.value.rev));
      TombstonesAt(losers);
    }
  }

  /** No deletion in the `merge` batch retires the winner's own revision. */
  lemma MergeSparesWinner(current: Fetch<Doc>, revs: Fetch<seq<Branch>>)
    requires current.Fetched? && current.value.rev != ""
    ensures var o := MergeOutcome(current, revs);
            o.Batch? ==> forall k :: 0 <= k < |o.docs| - 1 ==> o.docs[k].rev != current.value.rev
  {
    var losers := ConflictSet(Branches(revs), Some(current.value.rev));
    TombstonesAt(losers);
    forall k | 0 <= k < |losers| ensures losers[k].rev != current.value.rev {
      ConflictSetMembers(Branches(revs), Some(current.value.rev), losers[k]);
    }
  }

  /** Each non-identity field of the merged winner comes from the last loser, in
      fetch order, that has it; fields no loser has keep the winner's value. */
  lemma MergedWinnerField(current: Fetch<Doc>, revs: Fetch<seq<Branch>>, k: string)
    requires current.Fetched? && !IsIdentityKey(k)
    ensures var o := MergeOutcome(current, revs);
            var losers := ConflictSet(Branches(revs), Some(current.value.rev));
            o.Batch? ==>
              var m := o.docs[|o.docs| - 1];
              && ((exists j :: 0 <= j < |losers| && k in losers[j].fields) ==>
                    exists j :: 0 <= j < |losers| && k in losers[j].fields && k in m.fields &&
                                m.fields[k] == losers[j].fields[k] &&
                                forall j' :: j < j' < |losers| ==> k !in losers[j'].fields)
              && ((forall j :: 0 <= j < |losers| ==> k !in losers[j].fields) ==>
                    (k in m.fields <==> k in current.value.fields) &&
                    (k in current.value.fields ==> m.fields[k] == current.value.fields[k]))
  {
    var losers := ConflictSet(Branches(revs), Some(current.value.rev));
    LastValueSpec(losers, k);
    MergedField(current.value, losers, k);
  }

  // ---------------------------------------------------------------------------
  // nominated: keep one named revision
  // ---------------------------------------------------------------------------

  /** The spec of `nominated` after its (unchecked) fetch. */
  function NominatedOutcome(revs: Fetch<seq<Branch>>, rev: Option<string>): Outcome
  {
    var losers := ConflictSet(Branches(revs), rev);
    if |losers| <= 1 then NotConflicted else Batch(Tombstones(losers))
  }

  /** `nominated(db, docid, rev, callback)` after its fetch: every live leaf other
      than `rev` is deleted. */
  method Nominated(revs: Fetch<seq<Branch>>, rev: Option<string>) returns (o: Outcome)
    ensures o == NominatedOutcome(revs, rev)
  {
    var doclist := FilterList(Branches(revs), rev);
    if |doclist| <= 1 {
      return NotConflicted;
    }
    var deletions := ConvertToDeletions(doclist);
    o := Batch(deletions);
  }

  /** The `nominated` batch deletes exactly the qualifying leaves: a record is in it
      iff it is the tombstone of a live leaf whose revision is not the nominated one.
      A failed fetch, or fewer than two such leaves, writes nothing. */
  lemma NominatedDeletes(revs: Fetch<seq<Branch>>, rev: Option<string>, t: Doc)
    ensures NominatedOutcome(revs, rev) != FetchError
    ensures NominatedOutcome(revs, rev) == NotConflicted <==> |ConflictSet(Branches(revs), rev)| <= 1
    ensures revs.FetchFailed? ==> NominatedOutcome(revs, rev) == NotConflicted
    ensures var o := NominatedOutcome(revs, rev);
            var list := Branches(revs);
            o.Batch? ==>
              (t in o.docs <==> exists i :: 0 <= i < |list| && Qualifies(list[i], rev) && t == Tombstone(list[i].ok))
  {
    var list := Branches(revs);
    var losers := ConflictSet(list, rev);
    TombstonesMembers(losers, t);
    if t in Tombstones(losers) {
      var d :| d in losers && t == Tombstone(d);
      ConflictSetMembers(list, rev, d);
    }
    if exists i :: 0 <= i < |list| && Qualifies(list[i], rev) && t == Tombstone(list[i].ok) {
      var i :| 0 <= i < |list| && Qualifies(list[i], rev) && t == Tombstone(list[i].ok);
      ConflictSetMembers(list, rev, list[i].ok);
    }
  }

  /** The nominated revision is never deleted. */
  lemma NominatedSparesNominee(revs: Fetch<seq<Branch>>, rev: string)
    requires rev != ""
    ensures var o := NominatedOutcome(revs, Some(rev));
            o.Batch? ==> forall k :: 0 <= k < |o.docs| ==> o.docs[k].rev != rev
  {
    var losers := ConflictSet(Branches(revs), Some(rev));
    TombstonesAt(losers);
    forall k | 0 <= k < |losers| ensures losers[k].rev != rev {
      ConflictSetMembers(Branches(revs), Some(rev), losers[k]);
    }
  }

  /** Over leaves with distinct revisions, every record of the `nominated` batch
      retires a different revision, so each qualifying leaf is deleted exactly once. */
  lemma NominatedDeletesOnce(revs: Fetch<seq<Branch>>, rev: Option<string>)
    requires DistinctLeafRevs(Branches(revs))
    ensures var o := NominatedOutcome(revs, rev);
            o.Batch? ==> DistinctRevs(o.docs)
  {
    var losers := ConflictSet(Branches(revs), rev);
    ConflictSetDistinct(Branches(revs), rev);
    TombstonesAt(losers);
  }

  /** A nominated revision that matches no live leaf excludes nothing: every live
      leaf is deleted, leaving the document with no live leaf. */
  lemma NominatedUnknownRevDeletesAll(revs: Fetch<seq<Branch>>, rev: string)
    requires forall i :: 0 <= i < |Branches(revs)| && Qualifies(Branches(revs)[i], None) ==>
               Branches(revs)[i].ok.rev != rev
    ensures var live := ConflictSet(Branches(revs), None);
            NominatedOutcome(revs, Some(rev)) == if |live| <= 1 then NotConflicted else Batch(Tombstones(live))
  {
    var list := Branches(revs);
    var live := ConflictSet(list, None);
    if rev == "" {
      EmptyExclusionExcludesNothing(list);
    } else {
      ExclusionIsFilter(list, rev);
      forall k | 0 <= k < |live| ensures live[k].rev != rev {
        ConflictSetMembers(list, None, live[k]);
      }
      WithoutAbsentRev(live, rev);
    }
  }

  // ---------------------------------------------------------------------------
  // The size test after exclusion
  // ---------------------------------------------------------------------------

  /** Excluding a revision that one live leaf carries leaves one leaf fewer to test. */
  lemma ExcludingLiveLeafShrinks(list: seq<Branch>, rev: string)
    requires rev != ""
    requires exists k :: 0 <= k < |ConflictSet(list, None)| && ConflictSet(list, None)[k].rev == rev
    ensures |ConflictSet(list, Some(rev))| < |ConflictSet(list, None)|
  {
    var live := ConflictSet(list, None);
    var k :| 0 <= k < |live| && live[k].rev == rev;
    ExclusionIsFilter(list, rev);
    WithoutRevShrinks(live, rev, k);
  }

  /** A document with exactly two live leaves, one of them the current winner, is
      reported "not conflicted" by `merge`, and nothing is written. */
  lemma MergeTwoLeavesNotConflicted(current: Fetch<Doc>, revs: Fetch<seq<Branch>>)
    requires current.Fetched? && current.value.rev != ""
    requires |ConflictSet(Branches(revs), None)| == 2
    requires exists k :: 0 <= k < 2 && ConflictSet(Branches(revs), None)[k].rev == current.value.rev
    ensures MergeOutcome(current, revs) == NotConflicted
  {
    ExcludingLiveLeafShrinks(Branches(revs), current.value.rev);
  }

  /** A document with exactly two live leaves, one of them the nominated revision,
      is reported "not conflicted" by `nominated`, and nothing is written. */
  lemma NominatedTwoLeavesNotConflicted(revs: Fetch<seq<Branch>>, rev: string)
    requires rev != ""
    requires |ConflictSet(Branches(revs), None)| == 2
    requires exists k :: 0 <= k < 2 && ConflictSet(Branches(revs), None)[k].rev == rev
    ensures NominatedOutcome(revs, Some(rev)) == NotConflicted
  {
    ExcludingLiveLeafShrinks(Branches(revs), rev);
  }
}
