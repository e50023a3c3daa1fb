/** The three list and record helpers of the resolver: the leaf filter, the
    deletion encoder and the field overlay. */
module Deconflict {
  import opened Documents

  // ---------------------------------------------------------------------------
  // Leaf filter
  // ---------------------------------------------------------------------------

  /** The exclusion test `!excluderev || rev != excluderev`: an absent or empty
      exclusion revision excludes nothing. */
  predicate Kept(d: Doc, exclude: Option<string>) {
    exclude.None? || exclude.value == "" || d.rev != exclude.value
  }

  /** An entry that the filter keeps: it carries `ok`, the document is not
      `_deleted`, and it is not the excluded revision. */
  predicate Qualifies(b: Branch, exclude: Option<string>) {
    b.Found? && !Deleted(b.ok) && Kept(b.ok, exclude)
  }

  /** The conflict set: the kept documents, in fetch order. */
  function ConflictSet(list: seq<Branch>, exclude: Option<string>): seq<Doc>
  {
    if list == [] then []
    else
      var last := list[|list| - 1];
      ConflictSet(list[..|list| - 1], exclude) + (if Qualifies(last, exclude) then [last.ok] else [])
  }

  /** A document is in the conflict set exactly when some entry carries it and qualifies. */
  lemma {:induction false} ConflictSetMembers(list: seq<Branch>, exclude: Option<string>, d: Doc)
    ensures d in ConflictSet(list, exclude) <==>
            exists i :: 0 <= i < |list| && list[i] == Found(d) && Qualifies(list[i], exclude)
  {
    if list != [] {
      var init := list[..|list| - 1];
      ConflictSetMembers(init, exclude, d);
      if exists i :: 0 <= i < |list| && list[i] == Found(d) && Qualifies(list[i], exclude) {
        var i :| 0 <= i < |list| && list[i] == Found(d) && Qualifies(list[i], exclude);
        if i < |init| {
          assert init[i] == list[i];
        }
      }
      if exists i :: 0 <= i < |init| && init[i] == Found(d) && Qualifies(init[i], exclude) {
        var i :| 0 <= i < |init| && init[i] == Found(d) && Qualifies(init[i], exclude);
        assert list[i] == init[i];
      }
    }
  }

  /** Filtering commutes with concatenation: the filter preserves fetch order. */
  lemma {:induction false} ConflictSetConcat(a: seq<Branch>, b: seq<Branch>, exclude: Option<string>)
    ensures ConflictSet(a + b, exclude) == ConflictSet(a, exclude) + ConflictSet(b, exclude)
  {
    if b == [] {
      assert a + b == a;
    } else {
      var b' := b[..|b| - 1];
      ConflictSetConcat(a, b', exclude);
      assert (a + b)[..|a + b| - 1] == a + b';
    }
  }

  /** The conflict set never has more documents than the fetch had entries. */
  lemma {:induction false} ConflictSetLength(list: seq<Branch>, exclude: Option<string>)
    ensures |ConflictSet(list, exclude)| <= |list|
  {
    if list != [] {
      ConflictSetLength(list[..|list| - 1], exclude);
    }
  }

  /** The documents of `docs` whose revision differs from `rev`, in order. */
  function WithoutRev(docs: seq<Doc>, rev: string): seq<Doc>
  {
    if docs == [] then []
    else
      var last := docs[|docs| - 1];
      WithoutRev(docs[..|docs| - 1], rev) + (if last.rev != rev then [last] else [])
  }

  /** Excluding a non-empty revision is the same as filtering it out of the live leaves. */
  lemma {:induction false} ExclusionIsFilter(list: seq<Branch>, rev: string)
    requires rev != ""
    ensures ConflictSet(list, Some(rev)) == WithoutRev(ConflictSet(list, None), rev)
  {
    if list != [] {
      var init := list[..|list| - 1];
      ExclusionIsFilter(init, rev);
      var live := ConflictSet(init, None);
      var last := list[|list| - 1];
      if Qualifies(last, None) {
        var s := live + [last.ok];
        assert s[..|s| - 1] == live && s[|s| - 1] == last.ok;
        assert WithoutRev(s, rev) == WithoutRev(live, rev) + (if last.ok.rev != rev then [last.ok] else []);
        assert ConflictSet(list, None) == s;
      } else {
        assert ConflictSet(list, None) == live;
      }
      assert ConflictSet(list, Some(rev)) == ConflictSet(init, Some(rev)) + (if Qualifies(last, Some(rev)) then [last.ok] else []);
    }
  }

  /** An empty exclusion revision (`!excluderev` holds) excludes nothing. */
  lemma {:induction false} EmptyExclusionExcludesNothing(list: seq<Branch>)
    ensures ConflictSet(list, Some("")) == ConflictSet(list, None)
  {
    if list != [] {
      EmptyExclusionExcludesNothing(list[..|list| - 1]);
    }
  }

  /** Removing a revision that some document carries makes the sequence strictly shorter. */
  lemma {:induction false} WithoutRevShrinks(docs: seq<Doc>, rev: string, k: nat)
    requires k < |docs| && docs[k].rev == rev
    ensures |WithoutRev(docs, rev)| < |docs|
  {
    var init := docs[..|docs| - 1];
    if k < |init| {
      WithoutRevShrinks(init, rev, k);
    } else {
      WithoutRevLength(init, rev);
    }
  }

  /** Removing a revision that no document carries changes nothing. */
  lemma {:induction false} WithoutAbsentRev(docs: seq<Doc>, rev: string)
    requires forall i :: 0 <= i < |docs| ==> docs[i].rev != rev
    ensures WithoutRev(docs, rev) == docs
  {
    if docs != [] {
      var init := docs[..|docs| - 1];
      forall i | 0 <= i < |init| ensures init[i].rev != rev {
        assert init[i] == docs[i];
      }
      WithoutAbsentRev(init, rev);
      assert init + [docs[|docs| - 1]] == docs;
    }
  }

  lemma {:induction false} WithoutRevLength(docs: seq<Doc>, rev: string)
    ensures |WithoutRev(docs, rev)| <= |docs|
  {
    if docs != [] {
      WithoutRevLength(docs[..|docs| - 1], rev);
    }
  }

  /** The live leaves of one document carry pairwise distinct revisions. */
  predicate DistinctRevs(docs: seq<Doc>) {
    forall i, j :: 0 <= i < j < |docs| ==> docs[i].rev != docs[j].rev
  }

  /** The fetched leaves carry pairwise distinct revisions (the store's guarantee). */
  predicate DistinctLeafRevs(list: seq<Branch>) {
    forall i, j :: 0 <= i < j < |list| && list[i].Found? && list[j].Found? ==> list[i].ok.rev != list[j].ok.rev
  }

  /** Over leaves with distinct revisions, the conflict set has distinct revisions. */
  lemma {:induction false} ConflictSetDistinct(list: seq<Branch>, exclude: Option<string>)
    requires DistinctLeafRevs(list)
    ensures DistinctRevs(ConflictSet(list, exclude))
  {
    if list != [] {
      var init := list[..|list| - 1];
      var last := list[|list| - 1];
      var cs := ConflictSet(init, exclude);
      ConflictSetDistinct(init, exclude);
      if Qualifies(last, exclude) {
        forall k | 0 <= k < |cs| ensures cs[k].rev != last.ok.rev {
          ConflictSetMembers(init, exclude, cs[k]);
          var i :| 0 <= i < |init| && init[i] == Found(cs[k]) && Qualifies(init[i], exclude);
          assert list[i] == init[i];
        }
      }
    }
  }

  /** `filterList(list, excluderev)`: pushes every qualifying `ok` document, in order. */
  method FilterList(list: seq<Branch>, exclude: Option<string>) returns (retval: seq<Doc>)
    ensures retval == ConflictSet(list, exclude)
    ensures forall k :: 0 <= k < |retval| ==> !Deleted(retval[k]) && Kept(retval[k], exclude)
  {
    retval := [];
    var i := 0;
    while i < |list|
      invariant 0 <= i <= |list|
      invariant retval == ConflictSet(list[..i], exclude)
      invariant forall k :: 0 <= k < |retval| ==> !Deleted(retval[k]) && Kept(retval[k], exclude)
    {
      assert list[..i + 1][..i] == list[..i];
      if list[i].Found? && !Deleted(list[i].ok) {
        if exclude.None? || exclude.value == "" || list[i].ok.rev != exclude.value {
          retval := retval + [list[i].ok];
        }
      }
      i := i + 1;
    }
    assert list[..i] == list;
  }

  // ---------------------------------------------------------------------------
  // Deletion encoder
  // ---------------------------------------------------------------------------

  /** `{_id, _rev, _deleted: true}` for one document. */
  function Tombstone(d: Doc): Doc {
    Doc(d.id, d.rev, map[DeletedKey := Bool(true)])
  }

  /** The deletion records of `docs`, one per document, in order. */
  function Tombstones(docs: seq<Doc>): seq<Doc>
  {
    if docs == [] then [] else Tombstones(docs[..|docs| - 1]) + [Tombstone(docs[|docs| - 1])]
  }

  /** Element `k` of the deletions retires exactly document `k`: same `_id` and
      `_rev`, `_deleted` set to true, and no other field. */
  lemma {:induction false} TombstonesAt(docs: seq<Doc>)
    ensures |Tombstones(docs)| == |docs|
    ensures forall k :: 0 <= k < |docs| ==>
              var t := Tombstones(docs)[k];
              t.id == docs[k].id && t.rev == docs[k].rev &&
              t.fields == map[DeletedKey := Bool(true)] && Deleted(t) && WellFormed(t)
  {
    if docs != [] {
      var init := docs[..|docs| - 1];
      TombstonesAt(init);
      forall k | 0 <= k < |init| ensures init[k] == docs[k] {}
    }
  }

  /** Every record in the deletions is the tombstone of some input document, and
      every input document's tombstone is there. */
  lemma TombstonesMembers(docs: seq<Doc>, t: Doc)
    ensures t in Tombstones(docs) <==> exists d :: d in docs && t == Tombstone(d)
  {
    TombstonesAt(docs);
    var ts := Tombstones(docs);
    if t in ts {
      var k :| 0 <= k < |ts| && ts[k] == t;
      assert docs[k] in docs && t == Tombstone(docs[k]);
    }
    if exists d :: d in docs && t == Tombstone(d) {
      var d :| d in docs && t == Tombstone(d);
      var k :| 0 <= k < |docs| && docs[k] == d;
      assert ts[k] == t;
    }
  }

  /** `convertToDeletions(list)`: pushes one deletion record per document, in order. */
  method ConvertToDeletions(list: seq<Doc>) returns (retval: seq<Doc>)
    ensures retval == Tombstones(list)
    ensures |retval| == |list|
    ensures forall k :: 0 <= k < |list| ==>
              retval[k].id == list[k].id && retval[k].rev == list[k].rev &&
              retval[k].fields == map[DeletedKey := Bool(true)]
  {
    retval := [];
    var i := 0;
    while i < |list|
      invariant 0 <= i <= |list|
      invariant retval == Tombstones(list[..i])
    {
      assert list[..i + 1][..i] == list[..i];
      var obj := Doc(list[i].id, list[i].rev, map[DeletedKey := Bool(true)]);
      retval := retval + [obj];
      i := i + 1;
    }
    assert list[..i] == list;
    TombstonesAt(list);
  }

  // ---------------------------------------------------------------------------
  // Field overlay
  // ---------------------------------------------------------------------------

  /** `a` after every non-identity key of `b` has been copied onto it. */
  function Overlay(a: Doc, b: Doc): (r: Doc)
    ensures r.id == a.id && r.rev == a.rev
    ensures forall k :: k in b.fields && !IsIdentityKey(k) ==> k in r.fields && r.fields[k] == b.fields[k]
    ensures forall k :: k in a.fields && (k !in b.fields || IsIdentityKey(k)) ==>
              k in r.fields && r.fields[k] == a.fields[k]
    ensures forall k :: k in r.fields ==> k in a.fields || (k in b.fields && !IsIdentityKey(k))
    ensures WellFormed(a) ==> WellFormed(r)
  {
    Doc(a.id, a.rev, a.fields + map k | k in b.fields && !IsIdentityKey(k) :: b.fields[k])
  }

  /** The non-identity entries of `fields` whose keys lie in `done`. */
  function CopiedKeys(fields: map<string, Value>, done: set<string>): map<string, Value>
  {
    map k | k in fields && k in done && !IsIdentityKey(k) :: fields[k]
  }

  /** Visiting one more key of the source adds that key's entry, unless it is an
      identity key. */
  lemma CopiedKeysStep(a: map<string, Value>, fields: map<string, Value>, done: set<string>, i: string)
    requires i in fields
    ensures !IsIdentityKey(i) ==> a + CopiedKeys(fields, done + {i}) == (a + CopiedKeys(fields, done))[i := fields[i]]
    ensures IsIdentityKey(i) ==> CopiedKeys(fields, done + {i}) == CopiedKeys(fields, done)
  {
  }

  /** `objmerge(a, b)`: for every key of `b` other than `_id` and `_rev`, sets
      `a[key] = b[key]`; the keys are visited in any order. */
  method ObjMerge(a: Doc, b: Doc) returns (r: Doc)
    ensures r == Overlay(a, b)
  {
    r := a;
    var keys := b.fields.Keys;
    ghost var done: set<string> := {};
    while keys != {}
      invariant keys <= b.fields.Keys && done == b.fields.Keys - keys
      invariant r.id == a.id && r.rev == a.rev
      invariant r.fields == a.fields + CopiedKeys(b.fields, done)
      decreases keys
    {
      var i :| i in keys;
      CopiedKeysStep(a.fields, b.fields, done, i);
      if i != IdKey && i != RevKey {
        r := r.(fields := r.fields[i := b.fields[i]]);
      }
      keys := keys - {i};
      done := done + {i};
    }
    assert CopiedKeys(b.fields, done) == map k | k in b.fields && !IsIdentityKey(k) :: b.fields[k];
  }
}
